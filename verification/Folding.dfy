/** The encoding that is hashed (src/integrity/folding.ts). SHA-256 is a parameter: every result holds for
    any function from byte strings to 32-byte digests. */
module Folding {
  import opened Sorting
  import opened Utf8

  const LEAF_DOMAIN: byte := 0
  const NODE_DOMAIN: byte := 1
  const UNREADABLE_DOMAIN: byte := 2
  const NAME_TERMINATOR: byte := 0

  type Digest = s: seq<byte> | |s| == 32
    witness [0,0,0,0,0,0,0,0,0,0,0,0,0,0,0,0,0,0,0,0,0,0,0,0,0,0,0,0,0,0,0,0]

  type Sha = seq<byte> -> Digest

  datatype ChildRef = ChildRef(name: string, hash: Digest)

  predicate RefLe(a: ChildRef, b: ChildRef) { NameLe(a.name, b.name) }

  /** The bytes fed to the hash for a child list, in the order given. */
  function Serialize(refs: seq<ChildRef>): seq<byte> {
    if refs == [] then []
    else Encode(refs[0].name) + [NAME_TERMINATOR] + refs[0].hash + Serialize(refs[1..])
  }

  function LeafBytes(payload: seq<byte>): seq<byte> { [LEAF_DOMAIN] + payload }

  function NodeBytes(refs: seq<ChildRef>): seq<byte> { [NODE_DOMAIN] + Serialize(Sort(RefLe, refs)) }

  const UNREADABLE_BYTES: seq<byte> := [UNREADABLE_DOMAIN]

  predicate NulFree(refs: seq<ChildRef>) { forall r | r in refs :: '\0' !in r.name }

  ghost predicate DistinctNames(refs: seq<ChildRef>) {
    forall i, j | 0 <= i < j < |refs| :: refs[i].name != refs[j].name
  }

  lemma RefLeTotal()
    ensures TotalPreorder(RefLe)
  {
    NameLeTotalOrder();
    forall a, b ensures RefLe(a, b) || RefLe(b, a) {}
    forall a, b, c | RefLe(a, b) && RefLe(b, c) ensures RefLe(a, c) {}
  }

  lemma TerminatorPosition(a: seq<byte>, b: seq<byte>, x: seq<byte>, y: seq<byte>)
    requires NAME_TERMINATOR !in a && NAME_TERMINATOR !in b
    requires a + [NAME_TERMINATOR] + x == b + [NAME_TERMINATOR] + y
    ensures a == b && x == y
  {
    var s, t := a + [NAME_TERMINATOR] + x, b + [NAME_TERMINATOR] + y;
    assert s[|a|] == 0 && t[|b|] == 0;
    assert forall k | 0 <= k < |a| :: s[k] == a[k] && a[k] in a && a[k] != 0;
    assert forall k | 0 <= k < |b| :: t[k] == b[k] && b[k] in b && b[k] != 0;
    assert |a| == |b|;
    assert s[..|a|] == a && t[..|b|] == b && s[|a| + 1..] == x && t[|b| + 1..] == y;
  }

  lemma SerializeHead(refs: seq<ChildRef>)
    requires refs != []
    ensures Serialize(refs) == Encode(refs[0].name) + [NAME_TERMINATOR] + (refs[0].hash + Serialize(refs[1..]))
  {}

  lemma DigestPrefix(h: Digest, k: Digest, x: seq<byte>, y: seq<byte>)
    requires h + x == k + y
    ensures h == k && x == y
  {
    assert (h + x)[..32] == h && (k + y)[..32] == k && (h + x)[32..] == x && (k + y)[32..] == y;
  }

  /** The child-list encoding is uniquely decodable. */
  lemma {:induction false} SerializeInjective(a: seq<ChildRef>, b: seq<ChildRef>)
    requires NulFree(a) && NulFree(b)
    requires Serialize(a) == Serialize(b)
    ensures a == b
  {
    if a != [] && b != [] {
      SerializeHead(a);
      SerializeHead(b);
      assert a[0] in a && b[0] in b;
      EncodeNulFree(a[0].name);
      EncodeNulFree(b[0].name);
      TerminatorPosition(Encode(a[0].name), Encode(b[0].name),
                         a[0].hash + Serialize(a[1..]), b[0].hash + Serialize(b[1..]));
      EncodeInjective(a[0].name, b[0].name);
      DigestPrefix(a[0].hash, b[0].hash, Serialize(a[1..]), Serialize(b[1..]));
      SerializeInjective(a[1..], b[1..]);
      assert a == [a[0]] + a[1..] && b == [b[0]] + b[1..];
    }
  }

  lemma DistinctNamesNoTies(refs: seq<ChildRef>)
    requires DistinctNames(refs)
    ensures Distinct(refs)
    ensures forall x, y | x in refs && y in refs && RefLe(x, y) && RefLe(y, x) :: x == y
  {
    NameLeTotalOrder();
  }

  /** The bytes of a directory do not depend on the order its children were collected in. */
  lemma NodeBytesPermutation(a: seq<ChildRef>, b: seq<ChildRef>)
    requires DistinctNames(a) && Distinct(b) && (forall r :: r in a <==> r in b)
    ensures NodeBytes(a) == NodeBytes(b)
  {
    DistinctNamesNoTies(a);
    DistinctSameMultiset(a, b);
    RefLeTotal();
    SortPermutationInvariant(RefLe, a, b);
  }

  /** Distinct, NUL-free child lists with equal bytes hold the same children. */
  lemma NodeBytesInjective(a: seq<ChildRef>, b: seq<ChildRef>)
    requires NulFree(a) && NulFree(b)
    requires NodeBytes(a) == NodeBytes(b)
    ensures forall r :: r in a <==> r in b
  {
    var x, y := Sort(RefLe, a), Sort(RefLe, b);
    SameElements(x, a);
    SameElements(y, b);
    assert NodeBytes(a)[1..] == Serialize(x) && NodeBytes(b)[1..] == Serialize(y);
    SerializeInjective(x, y);
  }

  function UnreadableHash(sha: Sha): Digest { sha(UNREADABLE_BYTES) }

  function FoldRefs(sha: Sha, refs: seq<ChildRef>): Digest { sha(NodeBytes(refs)) }

  function EmptyDirHash(sha: Sha): Digest { FoldRefs(sha, []) }

  /** The bytes of an empty directory and of one with a single child: the domain byte, the name, a NUL and the hash. */
  lemma NodeBytesAre(r: ChildRef)
    ensures NodeBytes([]) == [1] && NodeBytes([r]) == [1] + Encode(r.name) + [0] + r.hash
  {
    assert Sort(RefLe, [r]) == [r] by {
      SameElements(Sort(RefLe, [r]), [r]);
      assert Sort(RefLe, [r])[0] in Sort(RefLe, [r]);
    }
    assert [r][1..] == [];
  }

  lemma {:induction false} SerializeAppend(a: seq<ChildRef>, r: ChildRef)
    ensures Serialize(a + [r]) == Serialize(a) + (Encode(r.name) + [NAME_TERMINATOR] + r.hash)
  {
    if a == [] {
      assert a + [r] == [r];
    } else {
      assert (a + [r])[0] == a[0] && (a + [r])[1..] == a[1..] + [r];
      SerializeAppend(a[1..], r);
    }
  }

  lemma FedStep(d: byte, body: seq<byte>, name: seq<byte>, hash: seq<byte>)
    ensures [d] + body + name + [NAME_TERMINATOR] + hash == [d] + (body + (name + [NAME_TERMINATOR] + hash))
  {}

  /** `foldNode`: sorts, then feeds the hash child by child. */
  method FoldNode(sha: Sha, children: seq<ChildRef>) returns (digest: Digest)
    ensures digest == FoldRefs(sha, children)
  {
    var sorted := Sort(RefLe, children);
    var fed: seq<byte> := [NODE_DOMAIN];
    for i := 0 to |sorted|
      invariant fed == [NODE_DOMAIN] + Serialize(sorted[..i])
    {
      var name: seq<byte>, hash: seq<byte> := Encode(sorted[i].name), sorted[i].hash;
      FedStep(NODE_DOMAIN, Serialize(sorted[..i]), name, hash);
      SerializeAppend(sorted[..i], sorted[i]);
      assert sorted[..i + 1] == sorted[..i] + [sorted[i]];
      fed := fed + name + [NAME_TERMINATOR] + hash;
    }
    assert sorted[..|sorted|] == sorted;
    digest := sha(fed);
  }
}
