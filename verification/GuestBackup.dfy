/** Guest archives: retention planners (src/tools/backups.ts) and the create-confirm-evict handler
    (src/tools/backupTools.ts), for the archives of one guest on one storage. */
module GuestBackups {
  import opened Sorting
  import opened Options

  const MCP_BACKUP_PREFIX := "mcp-"

  datatype Archive = Archive(volid: string, ctime: Option<int>, sizeBytes: Option<int>, notes: Option<string>)

  /** White space and line terminators as ECMAScript trims them. */
  predicate IsBlank(c: char) {
    || c == ' ' || '\t' <= c <= '\r' || c == '\U{00A0}' || c == '\U{1680}' || '\U{2000}' <= c <= '\U{200A}'
    || c == '\U{2028}' || c == '\U{2029}' || c == '\U{202F}' || c == '\U{205F}' || c == '\U{3000}' || c == '\U{FEFF}'
  }

  /** The same by code units: tab to carriage return, the spaces, the two separators and the byte order mark. */
  lemma BlanksAre(c: char)
    ensures IsBlank(c) <==>
      var n := c as int;
      9 <= n <= 13 || n == 32 || n == 160 || n == 0x1680 || 0x2000 <= n <= 0x200A || n == 0x2028 || n == 0x2029 || n == 0x202F
      || n == 0x205F || n == 0x3000 || n == 0xFEFF
  {}

  function TrimStart(s: string): string {
    if s != "" && IsBlank(s[0]) then TrimStart(s[1..]) else s
  }

  function TrimEnd(s: string): (r: string)
    ensures r <= s
  {
    if s != "" && IsBlank(s[|s| - 1]) then TrimEnd(s[..|s| - 1]) else s
  }

  function Trim(s: string): string { TrimEnd(TrimStart(s)) }

  predicate IsMcpNote(notes: Option<string>) { notes.Some? && MCP_BACKUP_PREFIX <= TrimStart(notes.value) }

  predicate IsMcp(a: Archive) { IsMcpNote(a.notes) }

  /** The note has the letters `mcp-` after nothing but blanks. */
  predicate HasMark(notes: Option<string>) {
    notes.Some? && exists k | 0 <= k <= |notes.value| - 4 :: MarkAt(notes.value, k)
  }

  predicate MarkAt(note: string, k: nat) {
    && k + 4 <= |note| && (forall i | 0 <= i < k :: IsBlank(note[i]))
    && note[k] == 'm' && note[k + 1] == 'c' && note[k + 2] == 'p' && note[k + 3] == '-'
  }

  lemma {:induction false} TrimmedFrom(s: string) returns (k: nat)
    ensures k <= |s| && TrimStart(s) == s[k..] && (forall i | 0 <= i < k :: IsBlank(s[i])) && (k < |s| ==> !IsBlank(s[k]))
  {
    if s != "" && IsBlank(s[0]) {
      var j := TrimmedFrom(s[1..]);
      k := j + 1;
      assert forall i | 0 <= i < k :: i == 0 || s[i] == s[1..][i - 1];
    } else {
      k := 0;
    }
  }

  /** An archive counts as made by the server exactly when its note has the mark. */
  lemma IsMcpIff(a: Archive)
    ensures IsMcp(a) <==> HasMark(a.notes)
  {
    if a.notes.Some? {
      var note := a.notes.value;
      var k := TrimmedFrom(note);
      hide TrimStart;
      assert MCP_BACKUP_PREFIX == ['m', 'c', 'p', '-'];
      if IsMcp(a) {
        assert note[k..][0] == 'm' && note[k..][1] == 'c' && note[k..][2] == 'p' && note[k..][3] == '-';
        assert MarkAt(note, k);
      }
      if HasMark(a.notes) {
        var j :| 0 <= j <= |note| - 4 && MarkAt(note, j);
        assert !IsBlank('m') && j == k;
        assert note[k..][..4] == MCP_BACKUP_PREFIX;
      }
    }
  }

  /** A note the server made: it starts with the ownership prefix. */
  predicate IsServerNote(note: string) { MCP_BACKUP_PREFIX <= note }

  /** An archive that carries a server note carries the ownership mark. */
  lemma MatchIsMcp(a: Archive, note: string)
    requires IsServerNote(note) && a.notes.Some? && Trim(a.notes.value) == note
    ensures IsMcp(a)
  {
    var start := TrimStart(a.notes.value);
    assert TrimEnd(start) <= start;
    assert MCP_BACKUP_PREFIX <= start;
  }

  // ---- Planners ----

  /** How volids compare; any total preorder. */
  type Collation = (string, string) -> bool

  function When(a: Archive): int { if a.ctime.Some? then a.ctime.value else 0 }

  /** `a` is not older than `b`; an absent time counts as 0. */
  predicate NoEarlier(a: Archive, b: Archive) {
    match (a.ctime, b.ctime)
    case (Some(x), Some(y)) => x >= y
    case (Some(x), None) => x >= 0
    case (None, Some(y)) => 0 >= y
    case (None, None) => true
  }

  /** `a` ranks before `b`: newer, or as old with a volid that compares as greater. */
  predicate RanksBefore(collate: Collation, a: Archive, b: Archive) {
    NoEarlier(a, b) && (NoEarlier(b, a) ==> collate(b.volid, a.volid))
  }

  lemma NewestFirstMeans(collate: Collation, a: Archive, b: Archive)
    ensures NewestFirst(collate)(a, b) <==> RanksBefore(collate, a, b)
  {
    assert When(a) >= When(b) <==> NoEarlier(a, b);
    assert When(b) >= When(a) <==> NoEarlier(b, a);
  }

  function NewestFirst(collate: Collation): (Archive, Archive) -> bool {
    (a: Archive, b: Archive) => if When(a) != When(b) then When(a) > When(b) else collate(b.volid, a.volid)
  }

  function McpOnly(archives: seq<Archive>): seq<Archive> {
    if archives == [] then [] else (if IsMcp(archives[0]) then [archives[0]] else []) + McpOnly(archives[1..])
  }

  function Volids(archives: seq<Archive>): (r: seq<string>)
    ensures |r| == |archives| && forall i | 0 <= i < |r| :: r[i] == archives[i].volid
  {
    seq(|archives|, i requires 0 <= i < |archives| => archives[i].volid)
  }

  function Max(a: int, b: int): int { if a >= b then a else b }

  /** The server-made archives, newest first. */
  function Ranked(collate: Collation, archives: seq<Archive>): seq<Archive> {
    Sort(NewestFirst(collate), McpOnly(archives))
  }

  function PlanArchiveEviction(collate: Collation, archives: seq<Archive>, cap: int, incoming: int): seq<string> {
    var sorted := Ranked(collate, archives);
    var allowed := Max(0, cap - incoming);
    Volids(if allowed >= |sorted| then [] else sorted[allowed..])
  }

  function Without(archives: seq<Archive>, volid: string): seq<Archive> {
    if archives == [] then [] else (if archives[0].volid != volid then [archives[0]] else []) + Without(archives[1..], volid)
  }

  function PlanPostCreateEviction(collate: Collation, archives: seq<Archive>, newVolid: string, cap: int): seq<string> {
    PlanArchiveEviction(collate, Without(archives, newVolid), Max(1, cap), 1)
  }

  ghost predicate DistinctVolids(archives: seq<Archive>) {
    forall i, j | 0 <= i < j < |archives| :: archives[i].volid != archives[j].volid
  }

  lemma McpOnlyMember(archives: seq<Archive>)
    ensures forall a :: a in McpOnly(archives) <==> a in archives && IsMcp(a)
  {}

  lemma {:induction false} McpOnlyDistinct(archives: seq<Archive>)
    requires DistinctVolids(archives)
    ensures DistinctVolids(McpOnly(archives))
  {
    if archives != [] {
      McpOnlyDistinct(archives[1..]);
      McpOnlyMember(archives[1..]);
      assert forall a: Archive | a in archives[1..] :: a.volid != archives[0].volid;
    }
  }

  lemma WithoutMember(archives: seq<Archive>, volid: string)
    ensures forall a: Archive :: a in Without(archives, volid) <==> a in archives && a.volid != volid
  {}

  lemma {:induction false} WithoutDistinct(archives: seq<Archive>, volid: string)
    requires DistinctVolids(archives)
    ensures DistinctVolids(Without(archives, volid))
  {
    if archives != [] {
      WithoutDistinct(archives[1..], volid);
      WithoutMember(archives[1..], volid);
      assert forall a: Archive | a in archives[1..] :: a.volid != archives[0].volid;
    }
  }

  lemma NewestFirstIsOrder(collate: Collation)
    requires TotalPreorder(collate)
    ensures TotalPreorder(NewestFirst(collate))
  {
    var le := NewestFirst(collate);
    forall a, b ensures le(a, b) || le(b, a) { assert collate(a.volid, b.volid) || collate(b.volid, a.volid); }
    forall a, b, c | le(a, b) && le(b, c) ensures le(a, c) {
      if When(a) == When(b) == When(c) { assert collate(c.volid, b.volid) && collate(b.volid, a.volid); }
    }
  }

  lemma VolidsOfPermutation(a: seq<Archive>, b: seq<Archive>)
    requires multiset(a) == multiset(b) && DistinctVolids(b)
    ensures DistinctVolids(a)
  {
    SameElements(a, b);
    PermutationDistinct(a, b);
    forall i, j | 0 <= i < j < |a| ensures a[i].volid != a[j].volid {
      assert a[i] in b && a[j] in b && a[i] != a[j];
    }
  }

  /** The ranking lists exactly the server-made archives, each once and newest first. */
  lemma RankedIsRanking(collate: Collation, archives: seq<Archive>)
    requires TotalPreorder(collate) && DistinctVolids(archives)
    ensures
      var r := Ranked(collate, archives);
      && (forall a :: a in r <==> a in archives && IsMcp(a))
      && DistinctVolids(r)
      && SortedBy(NewestFirst(collate), r)
  {
    hide Sort;
    McpOnlyMember(archives);
    McpOnlyDistinct(archives);
    NewestFirstIsOrder(collate);
    SortSorted(NewestFirst(collate), McpOnly(archives));
    SameElements(Sort(NewestFirst(collate), McpOnly(archives)), McpOnly(archives));
    VolidsOfPermutation(Sort(NewestFirst(collate), McpOnly(archives)), McpOnly(archives));
  }

  /** How many of the other archives stay beside the new one. */
  function Stay(others: seq<Archive>, cap: int): (n: nat)
    ensures n <= |others| && n <= Max(1, cap) - 1
    ensures n < |others| ==> n == Max(1, cap) - 1
  {
    if |others| <= Max(1, cap) - 1 then |others| else Max(1, cap) - 1
  }

  /** A ranking cut in two: the names of the rest tell which archives are in front. */
  lemma CutRanking(ranked: seq<Archive>, n: nat)
    requires DistinctVolids(ranked) && n <= |ranked|
    ensures forall a: Archive | a in ranked :: a.volid !in Volids(ranked[n..]) <==> a in ranked[..n]
    ensures forall v | v in Volids(ranked[n..]) :: exists a: Archive :: a in ranked && a.volid == v
  {
    var plan := Volids(ranked[n..]);
    forall v | v in plan ensures exists a: Archive :: a in ranked && a.volid == v {
      var i :| 0 <= i < |plan| && plan[i] == v;
      assert ranked[n + i] in ranked;
    }
    forall a: Archive | a in ranked ensures a.volid !in plan <==> a in ranked[..n] {
      var i :| 0 <= i < |ranked| && ranked[i] == a;
      if i >= n {
        assert plan[i - n] == a.volid;
      } else {
        assert ranked[..n][i] == a;
      }
    }
  }

  lemma CutIsNewest(collate: Collation, ranked: seq<Archive>, n: nat)
    requires SortedBy(NewestFirst(collate), ranked) && n <= |ranked|
    ensures forall a, b | a in ranked[..n] && b in ranked[n..] :: NewestFirst(collate)(a, b)
  {
    hide NewestFirst;
    forall a, b | a in ranked[..n] && b in ranked[n..] ensures NewestFirst(collate)(a, b) {
      var i :| 0 <= i < n && ranked[i] == a;
      var j :| 0 <= j < |ranked[n..]| && ranked[n..][j] == b;
      assert ranked[n + j] == b;
    }
  }

  /** The plan deletes only archives with the mark other than the spared one, and what stays of them is the `n` ranked
      newest. */
  ghost predicate IsRetention(collate: Collation, plan: seq<string>, archives: seq<Archive>, spared: Option<string>, others: seq<Archive>, n: nat) {
    && n <= |others| && plan == Volids(others[n..])
    && (forall v | v in plan :: exists a: Archive :: a in archives && a.volid == v && HasMark(a.notes) && Some(v) != spared)
    && (forall a: Archive | a in archives && HasMark(a.notes) && Some(a.volid) != spared :: a.volid !in plan <==> a in others[..n])
    && (forall a, b | a in others[..n] && b in others[n..] :: RanksBefore(collate, a, b))
  }

  lemma RankingRetains(collate: Collation, archives: seq<Archive>, spared: Option<string>, others: seq<Archive>, n: nat)
    requires n <= |others| && DistinctVolids(others) && SortedBy(NewestFirst(collate), others)
    requires forall a: Archive :: a in others <==> a in archives && IsMcp(a) && Some(a.volid) != spared
    ensures IsRetention(collate, Volids(others[n..]), archives, spared, others, n)
  {
    hide NewestFirst, IsMcp, HasMark, Volids, DistinctVolids, SortedBy, RanksBefore;
    CutRanking(others, n);
    CutIsNewest(collate, others, n);
    forall a { IsMcpIff(a); }
    forall v | v in Volids(others[n..])
      ensures exists a: Archive :: a in archives && a.volid == v && HasMark(a.notes) && Some(v) != spared
    {
      var a: Archive :| a in others && a.volid == v;
    }
    forall a, b | a in others[..n] && b in others[n..] ensures RanksBefore(collate, a, b) { NewestFirstMeans(collate, a, b); }
  }

  /** Post-create retention, for any cap: the new archive and the newest max(1, cap) - 1 others stay. */
  lemma PostCreateKeepsNewest(collate: Collation, archives: seq<Archive>, newVolid: string, cap: int)
    requires TotalPreorder(collate) && DistinctVolids(archives)
    ensures
      var others := Ranked(collate, Without(archives, newVolid));
      IsRetention(collate, PlanPostCreateEviction(collate, archives, newVolid, cap), archives, Some(newVolid), others, Stay(others, cap))
  {
    hide *;
    var rest := Without(archives, newVolid);
    var others := Ranked(collate, rest);
    WithoutMember(archives, newVolid);
    WithoutDistinct(archives, newVolid);
    RankedIsRanking(collate, rest);
    RankingRetains(collate, archives, Some(newVolid), others, Stay(others, cap));
    PlanIsCut(collate, archives, newVolid, cap);
  }

  lemma PlanIsCut(collate: Collation, archives: seq<Archive>, newVolid: string, cap: int)
    ensures
      var others := Ranked(collate, Without(archives, newVolid));
      PlanPostCreateEviction(collate, archives, newVolid, cap) == Volids(others[Stay(others, cap)..])
  {
    hide Ranked, Without;
    var others := Ranked(collate, Without(archives, newVolid));
    assert others[|others|..] == [];
  }

  /** Retention before a backup, for any cap: the newest cap - incoming archives with the mark stay, none below 0. */
  lemma PlanKeepsNewest(collate: Collation, archives: seq<Archive>, cap: int, incoming: int) returns (ranked: seq<Archive>, n: nat)
    requires TotalPreorder(collate) && DistinctVolids(archives)
    ensures IsRetention(collate, PlanArchiveEviction(collate, archives, cap, incoming), archives, None, ranked, n)
    ensures if cap - incoming <= 0 then n == 0 else if cap - incoming < |ranked| then n == cap - incoming else n == |ranked|
  {
    hide Ranked, Volids, DistinctVolids, NewestFirst, TotalPreorder, IsMcp, SortedBy;
    ranked := Ranked(collate, archives);
    RankedIsRanking(collate, archives);
    var allowed := Max(0, cap - incoming);
    n := if allowed >= |ranked| then |ranked| else allowed;
    assert ranked[|ranked|..] == [];
    RankingRetains(collate, archives, None, ranked, n);
  }

  /** An archive whose note lacks the mark is in no plan, whatever the caps. */
  lemma UnmarkedIsNeverPlanned(collate: Collation, archives: seq<Archive>, a: Archive, newVolid: string, cap: int, incoming: int)
    requires TotalPreorder(collate) && DistinctVolids(archives) && a in archives && !HasMark(a.notes)
    ensures a.volid !in PlanArchiveEviction(collate, archives, cap, incoming)
    ensures a.volid !in PlanPostCreateEviction(collate, archives, newVolid, cap)
  {
    hide PlanArchiveEviction, PlanPostCreateEviction, HasMark, Ranked, Without, TotalPreorder;
    var ranked, n := PlanKeepsNewest(collate, archives, cap, incoming);
    PostCreateKeepsNewest(collate, archives, newVolid, cap);
  }

  /** An operator's note, beside a note of the server's. */
  lemma NoteExamples()
    ensures !HasMark(Some("before upgrade")) && !HasMark(None) && HasMark(Some(" mcp-20260614-153000"))
  {
    assert "before upgrade"[0] == 'b';
    assert MarkAt(" mcp-20260614-153000", 1);
  }

  // ---- Headroom ----

  datatype Headroom = HasRoom | Insufficient | Unknown

  predicate LaterFirst(a: Archive, b: Archive) { When(a) >= When(b) }

  function Sized(archives: seq<Archive>): seq<Archive> {
    if archives == [] then []
    else (if archives[0].sizeBytes.Some? && archives[0].sizeBytes.value > 0 then [archives[0]] else []) + Sized(archives[1..])
  }

  lemma SizedMember(archives: seq<Archive>)
    ensures forall a: Archive :: a in Sized(archives) <==> a in archives && a.sizeBytes.Some? && a.sizeBytes.value > 0
  {}

  function CheckBackupHeadroom(archives: seq<Archive>, availBytes: Option<int>): Headroom {
    var sized := Sort(LaterFirst, Sized(archives));
    if sized == [] || availBytes.None? || sized[0].sizeBytes.None? then Unknown
    else if availBytes.value >= (sized[0].sizeBytes.value * 11 + 9) / 10 then HasRoom
    else Insufficient
  }

  /** Refused exactly when the newest archive with a size is known not to fit with a tenth to spare. */
  lemma HeadroomMargin(archives: seq<Archive>, availBytes: Option<int>)
    ensures CheckBackupHeadroom(archives, availBytes) == Unknown <==>
            availBytes.None? || forall a: Archive | a in archives && a.sizeBytes.Some? :: a.sizeBytes.value <= 0
    ensures CheckBackupHeadroom(archives, availBytes) != Unknown ==>
      exists a: Archive ::
        && a in archives && a.sizeBytes.Some? && a.sizeBytes.value > 0
        && (forall b | b in archives && b.sizeBytes.Some? && b.sizeBytes.value > 0 :: NoEarlier(a, b))
        && (CheckBackupHeadroom(archives, availBytes) == HasRoom <==> 10 * availBytes.value >= 11 * a.sizeBytes.value)
  {
    hide Sort, Sized;
    var sized := Sort(LaterFirst, Sized(archives));
    SizedMember(archives);
    SortSorted(LaterFirst, Sized(archives));
    SameElements(sized, Sized(archives));
    if sized != [] {
      assert sized[0] in sized;
      forall b | b in Sized(archives) ensures When(b) <= When(sized[0]) {
        var i :| 0 <= i < |sized| && sized[i] == b;
        assert i > 0 ==> LaterFirst(sized[0], sized[i]);
      }
    }
  }

  // ---- The node ----

  type Archives = map<string, Archive>

  ghost predicate WellNamed(archives: Archives) { forall v | v in archives :: archives[v].volid == v }

  ghost predicate HasMcp(archives: Archives) { exists v :: v in archives && IsMcp(archives[v]) }

  /** Nothing gone, nothing changed. */
  ghost predicate Grows(a: Archives, b: Archives) { forall v | v in a :: v in b && b[v] == a[v] }

  /** One server-made archive gone at most, and never this one. */
  ghost predicate DropsMcp(a: Archives, b: Archives, spared: Option<string>) {
    b == a || exists v :: v in a && IsMcp(a[v]) && Some(v) != spared && b == a - {v}
  }

  /** How a call may delete: carefully, only while the spared archive is there and never that one, or at will. */
  datatype Manner = Careful(spared: Option<string>) | AtWill

  ghost predicate IsStep(a: Archives, b: Archives, m: Manner) {
    || Grows(a, b)
    || match m
       case AtWill => DropsMcp(a, b, None)
       case Careful(spared) => spared.Some? && spared.value in a && IsMcp(a[spared.value]) && DropsMcp(a, b, spared)
  }

  /** A stretch of states: what a call does to the archives, step by step. */
  ghost predicate Trail(first: Archives, states: seq<Archives>, last: Archives, m: Manner)
    decreases |states|
  {
    if states == [] then last == first else IsStep(first, states[0], m) && Trail(states[0], states[1..], last, m)
  }

  lemma {:induction false} TrailPush(first: Archives, states: seq<Archives>, last: Archives, next: Archives, m: Manner)
    requires Trail(first, states, last, m) && IsStep(last, next, m)
    ensures Trail(first, states + [next], next, m)
    decreases |states|
  {
    hide IsStep;
    if states == [] {
      assert (states + [next])[1..] == [];
    } else {
      TrailPush(states[0], states[1..], last, next, m);
      assert (states + [next])[1..] == states[1..] + [next];
    }
  }

  lemma {:induction false} TrailJoin(first: Archives, a: seq<Archives>, mid: Archives, b: seq<Archives>, last: Archives, m: Manner)
    requires Trail(first, a, mid, m) && Trail(mid, b, last, m)
    ensures Trail(first, a + b, last, m)
    decreases |a|
  {
    hide IsStep;
    if a == [] {
      assert a + b == b;
    } else {
      TrailJoin(a[0], a[1..], mid, b, last, m);
      assert (a + b)[1..] == a[1..] + b;
    }
  }

  /** Only growing is allowed in every manner. */
  lemma {:induction false} TrailWidens(first: Archives, states: seq<Archives>, last: Archives, m: Manner)
    requires Trail(first, states, last, Careful(None))
    ensures Trail(first, states, last, m)
    decreases |states|
  {
    if states != [] { TrailWidens(states[0], states[1..], last, m); }
  }

  /** A careful call never takes the guest from one server-made archive or more to none. */
  lemma {:induction false} CarefulKeepsMcp(first: Archives, states: seq<Archives>, last: Archives, spared: Option<string>)
    requires Trail(first, states, last, Careful(spared)) && HasMcp(first)
    ensures forall s | s in states :: HasMcp(s)
    ensures HasMcp(last)
    decreases |states|
  {
    if states != [] {
      var next := states[0];
      assert HasMcp(next) by {
        var v :| v in first && IsMcp(first[v]);
        if Grows(first, next) { assert v in next && IsMcp(next[v]); }
        else { assert spared.value in next && IsMcp(next[spared.value]); }
      }
      CarefulKeepsMcp(next, states[1..], last, spared);
    }
  }

  /** A call never deletes an archive whose note lacks the mark, and a careful one never the spared archive. */
  lemma {:induction false} TrailKeeps(first: Archives, states: seq<Archives>, last: Archives, m: Manner, v: string)
    requires Trail(first, states, last, m) && v in first
    requires !HasMark(first[v].notes) || (m.Careful? && m.spared == Some(v))
    ensures forall s | s in states :: v in s && s[v] == first[v]
    ensures v in last && last[v] == first[v]
    decreases |states|
  {
    hide IsMcp, HasMark;
    IsMcpIff(first[v]);
    if states != [] {
      assert v in states[0] && states[0][v] == first[v];
      TrailKeeps(states[0], states[1..], last, m, v);
    }
  }

  datatype TaskStatus = StatusRunning | StatusStopped(exitstatus: string) | StatusLost

  datatype TaskOutcome = TaskOk | TaskFailed(exitstatus: string) | TaskPending

  /** The archives of one guest. Other writers and the backup task itself may add archives while a backup runs; only
      this server deletes. */
  class Node {
    var archives: Archives
    /** Every state so far, the current one last. */
    ghost var past: seq<Archives>
    /** How each backup start went, and what each poll said. */
    ghost var created: seq<bool>
    ghost var polls: seq<TaskStatus>

    constructor (archives: Archives)
      requires WellNamed(archives)
      ensures Valid() && this.archives == archives && past == [archives]
    {
      this.archives, past, created, polls := archives, [archives], [], [];
    }

    ghost predicate Valid()
      reads this
    {
      WellNamed(archives)
    }

    method Add()
      requires Valid()
      modifies this`archives, this`past
      ensures Valid() && Grows(old(archives), archives) && past == old(past) + [archives]
    {
      var a: Archive :| true;
      if a.volid !in archives { archives := archives[a.volid := a]; }
      past := past + [archives];
    }

    /** The archives in some order, or None when the call throws. */
    method ListBackupArchives() returns (list: Option<seq<Archive>>)
      requires Valid()
      ensures list.Some? ==> IsListing(list.value, archives)
    {
      var fails: bool := *;
      if fails { return None; }
      var out: seq<Archive>, todo := [], archives.Keys;
      while todo != {}
        invariant todo <= archives.Keys && DistinctVolids(out)
        invariant forall a :: a in out <==> a.volid in archives && a.volid !in todo && archives[a.volid] == a
        decreases |todo|
      {
        var v :| v in todo;
        out, todo := out + [archives[v]], todo - {v};
      }
      list := Some(out);
    }

    /** vzdump: throws or hands back a task; archives may appear either way. */
    method CreateBackup() returns (ok: bool)
      requires Valid()
      modifies this`archives, this`past, this`created
      ensures Valid() && Grows(old(archives), archives) && past == old(past) + [archives]
      ensures created == old(created) + [ok]
    {
      ok := *;
      created := created + [ok];
      Add();
    }

    method PollTask() returns (status: TaskStatus)
      requires Valid()
      modifies this`archives, this`past, this`polls
      ensures Valid() && Grows(old(archives), archives) && past == old(past) + [archives]
      ensures polls == old(polls) + [status]
    {
      status := *;
      polls := polls + [status];
      Add();
    }

    /** A delete that fails may have happened all the same. */
    method DeleteBackupArchive(volid: string) returns (ok: bool)
      requires Valid()
      modifies this`archives, this`past
      ensures Valid() && past == old(past) + [archives]
      ensures archives == old(archives) || archives == old(archives) - {volid}
      ensures ok ==> archives == old(archives) - {volid}
    {
      ok := *;
      var done: bool := *;
      if ok || done { archives := archives - {volid}; }
      past := past + [archives];
    }
  }

  ghost predicate IsListing(list: seq<Archive>, archives: Archives) {
    DistinctVolids(list) && forall a :: a in list <==> a.volid in archives && archives[a.volid] == a
  }

  // ---- Waiting for the task ----

  /** What the polls of one wait say: done only on a task that stopped with OK, pending only after all of them. */
  ghost predicate Tells(outcome: TaskOutcome, polls: seq<TaskStatus>, timeoutMs: int, pollIntervalMs: int) {
    match outcome
    case TaskOk => polls != [] && polls[|polls| - 1] == StatusStopped("OK")
    case TaskFailed(exitstatus) => polls != [] && exitstatus != "OK" && polls[|polls| - 1] == StatusStopped(exitstatus)
    case TaskPending => |polls| == MaxPolls(timeoutMs, pollIntervalMs) && forall p | p in polls :: !p.StatusStopped?
  }

  /** Polls until the task stops or the polls run out. */
  method WaitForBackupTask(node: Node, timeoutMs: int, pollIntervalMs: int) returns (outcome: TaskOutcome)
    requires node.Valid()
    modifies node`archives, node`past, node`polls
    ensures node.Valid() && Grows(old(node.archives), node.archives)
    ensures old(node.past) <= node.past && Trail(old(node.archives), node.past[|old(node.past)|..], node.archives, Careful(None))
    ensures old(node.polls) <= node.polls && Tells(outcome, node.polls[|old(node.polls)|..], timeoutMs, pollIntervalMs)
  {
    ghost var polls: seq<TaskStatus> := [];
    var maxPolls := MaxPolls(timeoutMs, pollIntervalMs);
    assert node.past[|old(node.past)|..] == [];
    for i := 0 to maxPolls
      invariant node.Valid() && Grows(old(node.archives), node.archives) && |polls| == i
      invariant old(node.past) <= node.past && Trail(old(node.archives), node.past[|old(node.past)|..], node.archives, Careful(None))
      invariant node.polls == old(node.polls) + polls && forall p | p in polls :: !p.StatusStopped?
    {
      ghost var was, seen := node.archives, node.past[|old(node.past)|..];
      var status := node.PollTask();
      assert node.past[|old(node.past)|..] == seen + [node.archives];
      TrailPush(old(node.archives), seen, was, node.archives, Careful(None));
      polls := polls + [status];
      assert node.polls[|old(node.polls)|..] == polls;
      if status.StatusStopped? {
        return if status.exitstatus == "OK" then TaskOk else TaskFailed(status.exitstatus);
      }
    }
    assert node.polls[|old(node.polls)|..] == polls;
    outcome := TaskPending;
  }

  /** The least number of intervals that covers the timeout, but at least one poll. */
  function MaxPolls(timeoutMs: int, pollIntervalMs: int): (n: nat)
    ensures n >= 1 && n * IntervalMs(pollIntervalMs) >= timeoutMs
    ensures n > 1 ==> (n - 1) * IntervalMs(pollIntervalMs) < timeoutMs
  {
    var interval := Max(1, pollIntervalMs);
    Max(1, (timeoutMs + interval - 1) / interval)
  }

  function IntervalMs(pollIntervalMs: int): int { if pollIntervalMs < 1 then 1 else pollIntervalMs }

  // ---- The handler ----

  datatype Request = Request(
    confirm: bool, argumentsOk: bool, note: string, evictBeforeCreate: bool, cap: int, isApi: bool,
    timeoutMs: int, pollIntervalMs: int, availBytes: Option<int>)

  datatype Refusal = NotConfirmed | BadArguments | ListingFailed | PreEvictionFailed | NoRoom

  datatype Result =
    | Refused(why: Refusal)
    | Failed
    | PendingTask(evicted: seq<string>)
    | Completed(volid: Option<string>, evicted: seq<string>, evictionErrors: seq<string>)

  function McpVolids(archives: Archives): set<string> { set v | v in archives && IsMcp(archives[v]) }

  /** Deletes the listed archives one after the other, noting which deletes fail. */
  method Evict(node: Node, volids: seq<string>, ghost m: Manner) returns (evicted: seq<string>, errors: seq<string>)
    requires node.Valid() && forall v | v in volids && v in node.archives :: IsMcp(node.archives[v])
    requires m.Careful? ==>
      m.spared.Some? && m.spared.value !in volids && m.spared.value in node.archives && IsMcp(node.archives[m.spared.value])
    modifies node`archives, node`past
    ensures node.Valid() && old(node.past) <= node.past
    ensures Trail(old(node.archives), node.past[|old(node.past)|..], node.archives, m)
    ensures errors == [] ==> evicted == volids && node.archives == old(node.archives) - set v | v in volids
  {
    hide Trail, IsMcp;
    evicted, errors := [], [];
    ghost var start := node.archives;
    assert node.past[|old(node.past)|..] == [];
    TrailOfNothing(start, m);
    for i := 0 to |volids|
      invariant node.Valid() && old(node.past) <= node.past
      invariant Trail(start, node.past[|old(node.past)|..], node.archives, m)
      invariant forall v | v in node.archives :: v in start && node.archives[v] == start[v]
      invariant m.Careful? ==> m.spared.value in node.archives
      invariant errors == [] ==> evicted == volids[..i] && node.archives == start - set v | v in volids[..i]
    {
      ghost var was, seen := node.archives, node.past[|old(node.past)|..];
      var v := volids[i];
      assert v in volids && volids[..i + 1] == volids[..i] + [v];
      var ok := node.DeleteBackupArchive(v);
      assert node.past[|old(node.past)|..] == seen + [node.archives];
      DeleteIsStep(was, node.archives, v, m);
      TrailPush(start, seen, was, node.archives, m);
      if ok { evicted := evicted + [v]; } else { errors := errors + [v]; }
    }
    assert volids[..|volids|] == volids;
  }

  lemma TrailOfNothing(start: Archives, m: Manner)
    ensures Trail(start, [], start, m)
  {}

  lemma DeleteIsStep(a: Archives, b: Archives, v: string, m: Manner)
    requires b == a || b == a - {v}
    requires v in a ==> IsMcp(a[v])
    requires m.Careful? ==> m.spared.Some? && m.spared.value != v && m.spared.value in a && IsMcp(a[m.spared.value])
    ensures IsStep(a, b, m)
  {
    hide IsMcp;
    if v !in a { assert a - {v} == a; }
  }

  function Carrying(list: seq<Archive>, note: string): seq<Archive> {
    if list == [] then []
    else (if list[0].notes.Some? && Trim(list[0].notes.value) == note then [list[0]] else []) + Carrying(list[1..], note)
  }

  /** The newest archive that carries exactly this note. */
  function ResolveVolid(list: seq<Archive>, note: string): Option<string> {
    var mine := Sort(LaterFirst, Carrying(list, note));
    if mine == [] then None else Some(mine[0].volid)
  }

  lemma CarryingMember(list: seq<Archive>, note: string)
    ensures forall a: Archive :: a in Carrying(list, note) <==> a in list && a.notes.Some? && Trim(a.notes.value) == note
  {
    hide Trim;
  }

  /** `a` carries exactly this note, and no listed archive that does is newer. */
  ghost predicate IsNewestCarrier(list: seq<Archive>, note: string, a: Archive) {
    && a in list && a.notes.Some? && Trim(a.notes.value) == note
    && forall b | b in list && b.notes.Some? && Trim(b.notes.value) == note :: NoEarlier(a, b)
  }

  /** A resolved volid names the newest archive of the listing with that note, which the server made. */
  lemma ResolvedIsMcp(list: seq<Archive>, note: string)
    requires IsServerNote(note)
    ensures
      var r := ResolveVolid(list, note);
      && (r == None <==> forall a: Archive | a in list && a.notes.Some? :: Trim(a.notes.value) != note)
      && (r.Some? ==> exists a: Archive :: a in list && a.volid == r.value && IsMcp(a) && IsNewestCarrier(list, note, a))
  {
    hide Sort, IsMcp, IsServerNote, Trim, Carrying;
    var mine := Sort(LaterFirst, Carrying(list, note));
    CarryingMember(list, note);
    SameElements(mine, Carrying(list, note));
    if mine != [] {
      assert mine[0] in mine;
      MatchIsMcp(mine[0], note);
      SortSorted(LaterFirst, Carrying(list, note));
      forall b | b in list && b.notes.Some? && Trim(b.notes.value) == note ensures NoEarlier(mine[0], b) {
        assert b in mine;
        var i :| 0 <= i < |mine| && mine[i] == b;
        assert i > 0 ==> LaterFirst(mine[0], mine[i]);
      }
    } else {
      forall a: Archive | a in list && a.notes.Some? ensures Trim(a.notes.value) != note { assert a !in mine; }
    }
  }

  function Names(archives: seq<Archive>): set<string> { set v | v in Volids(archives) }

  /** After retention the server-made archives are the new one and the newest others, max(1, cap) at most. */
  ghost predicate IsRetained(collate: Collation, list: seq<Archive>, final: Archives, newVolid: string, cap: int) {
    var others := Ranked(collate, Without(list, newVolid));
    && newVolid in final && IsMcp(final[newVolid])
    && McpVolids(final) == {newVolid} + Names(others[..Stay(others, cap)])
    && |McpVolids(final)| <= Max(1, cap)
  }

  lemma {:induction false} NamesSize(archives: seq<Archive>)
    ensures |Names(archives)| <= |archives|
  {
    if archives == [] {
      assert Names(archives) == {};
    } else {
      var last := |archives| - 1;
      NamesSize(archives[..last]);
      assert Volids(archives) == Volids(archives[..last]) + [archives[last].volid];
      assert Names(archives) == Names(archives[..last]) + {archives[last].volid};
    }
  }

  lemma NamesMember(archives: seq<Archive>, v: string)
    ensures v in Names(archives) <==> exists a: Archive :: a in archives && a.volid == v
  {
    if v in Names(archives) {
      var i :| 0 <= i < |archives| && Volids(archives)[i] == v;
      assert archives[i] in archives;
    }
    if exists a: Archive :: a in archives && a.volid == v {
      var a: Archive :| a in archives && a.volid == v;
      var i :| 0 <= i < |archives| && archives[i] == a;
      assert Volids(archives)[i] == v;
    }
  }

  lemma RetentionEnds(collate: Collation, list: seq<Archive>, archives: Archives, final: Archives, newVolid: string, cap: int)
    requires TotalPreorder(collate) && WellNamed(archives) && IsListing(list, archives)
    requires newVolid in archives && IsMcp(archives[newVolid])
    requires final == archives - set v | v in PlanPostCreateEviction(collate, list, newVolid, cap)
    ensures IsRetained(collate, list, final, newVolid, cap)
  {
    hide Ranked, Without, PlanPostCreateEviction, IsMcp, Volids, Names, DistinctVolids, NewestFirst, TotalPreorder;
    var others := Ranked(collate, Without(list, newVolid));
    var n := Stay(others, cap);
    var plan := PlanPostCreateEviction(collate, list, newVolid, cap);
    PostCreateKeepsNewest(collate, list, newVolid, cap);
    RankedRest(collate, list, newVolid);
    assert newVolid !in plan;
    forall v ensures v in McpVolids(final) <==> v == newVolid || v in Names(others[..n]) {
      NamesMember(others[..n], v);
      if v in McpVolids(final) && v != newVolid {
        assert archives[v] in list && archives[v].volid == v;
        assert archives[v] in others[..n];
      }
      if v in Names(others[..n]) {
        var a: Archive :| a in others[..n] && a.volid == v;
        assert a in others;
        assert a in list && archives[v] == a;
      }
    }
    assert McpVolids(final) == {newVolid} + Names(others[..n]);
    NamesSize(others[..n]);
  }

  lemma RankedRest(collate: Collation, list: seq<Archive>, newVolid: string)
    requires TotalPreorder(collate) && DistinctVolids(list)
    ensures forall a: Archive :: a in Ranked(collate, Without(list, newVolid)) <==> a in list && IsMcp(a) && a.volid != newVolid
  {
    hide *;
    WithoutMember(list, newVolid);
    WithoutDistinct(list, newVolid);
    RankedIsRanking(collate, Without(list, newVolid));
  }

  lemma PlannedIsRanked(collate: Collation, list: seq<Archive>, cap: int, v: string) returns (a: Archive)
    requires v in PlanArchiveEviction(collate, list, cap, 1)
    ensures a in Ranked(collate, list) && a.volid == v
  {
    hide Ranked;
    var sorted, plan, allowed := Ranked(collate, list), PlanArchiveEviction(collate, list, cap, 1), Max(0, cap - 1);
    var i :| 0 <= i < |plan| && plan[i] == v;
    a := sorted[allowed + i];
  }

  /** Planned volids name server-made archives of the node. */
  lemma PlanIsMcp(collate: Collation, list: seq<Archive>, archives: Archives, cap: int)
    requires TotalPreorder(collate) && IsListing(list, archives) && WellNamed(archives)
    ensures forall v | v in PlanArchiveEviction(collate, list, cap, 1) && v in archives :: IsMcp(archives[v])
  {
    hide Ranked, IsMcp, DistinctVolids, TotalPreorder, PlanArchiveEviction, SortedBy;
    RankedIsRanking(collate, list);
    forall v | v in PlanArchiveEviction(collate, list, cap, 1) && v in archives ensures IsMcp(archives[v]) {
      var a := PlannedIsRanked(collate, list, cap, v);
      assert a in list;
    }
  }

  /** Resolving the volid and, once it is resolved, retention. */
  method ConfirmAndEvict(collate: Collation, node: Node, req: Request)
    returns (result: Result, ghost list: seq<Archive>, ghost m: Manner)
    requires TotalPreorder(collate) && node.Valid() && IsServerNote(req.note)
    modifies node`archives, node`past
    ensures node.Valid() && old(node.past) <= node.past
    ensures result.Completed? && m == Careful(result.volid)
    ensures Trail(old(node.archives), node.past[|old(node.past)|..], node.archives, m)
    ensures result.volid == None ==> node.archives == old(node.archives) && result.evicted == []
    ensures result.volid.Some? ==> result.volid.value in node.archives && IsMcp(node.archives[result.volid.value])
    ensures result.volid.Some? && result.evictionErrors == [] ==>
      IsListing(list, old(node.archives)) && IsRetained(collate, list, node.archives, result.volid.value, req.cap)
  {
    hide Trail, IsListing, IsRetained, TotalPreorder, IsMcp, IsServerNote, PlanPostCreateEviction, ResolveVolid, Trim, WellNamed;
    assert node.past[|old(node.past)|..] == [];
    TrailOfNothing(node.archives, Careful(None));
    list := [];
    var after := node.ListBackupArchives();
    if after == None { return Completed(None, [], []), list, Careful(None); }
    list := after.value;
    var volid := ResolveVolid(after.value, req.note);
    ResolvedIsMcp(after.value, req.note);
    if volid == None { return Completed(None, [], []), list, Careful(None); }
    m := Careful(volid);
    var plan := PlanPostCreateEviction(collate, after.value, volid.value, req.cap);
    PlanSpares(collate, list, node.archives, volid.value, req.cap);
    var evicted, errors := Evict(node, plan, m);
    TrailSpares(old(node.archives), node.past[|old(node.past)|..], node.archives, m, volid.value);
    if errors == [] { RetentionEnds(collate, list, old(node.archives), node.archives, volid.value, req.cap); }
    result := Completed(volid, evicted, errors);
  }

  /** What the handler needs to know before it deletes. */
  lemma PlanSpares(collate: Collation, list: seq<Archive>, archives: Archives, newVolid: string, cap: int)
    requires TotalPreorder(collate) && IsListing(list, archives) && WellNamed(archives)
    requires exists a: Archive :: a in list && a.volid == newVolid && IsMcp(a)
    ensures newVolid in archives && IsMcp(archives[newVolid])
    ensures
      var plan := PlanPostCreateEviction(collate, list, newVolid, cap);
      newVolid !in plan && forall v | v in plan && v in archives :: IsMcp(archives[v])
  {
    hide Ranked, Without, PlanPostCreateEviction, IsMcp, Volids, DistinctVolids, NewestFirst, TotalPreorder;
    hide HasMark;
    PostCreateKeepsNewest(collate, list, newVolid, cap);
    forall a { IsMcpIff(a); }
  }

  /** Every archive whose note lacks the mark is there, unchanged, in each state and in the end. */
  ghost predicate SparesUnmarked(first: Archives, states: seq<Archives>, last: Archives) {
    forall v | v in first && !HasMark(first[v].notes) ::
      && (forall s | s in states :: v in s && s[v] == first[v])
      && v in last && last[v] == first[v]
  }

  lemma TrailSparesUnmarked(first: Archives, states: seq<Archives>, last: Archives, m: Manner)
    requires Trail(first, states, last, m)
    ensures SparesUnmarked(first, states, last)
  {
    hide Trail, HasMark;
    forall v | v in first && !HasMark(first[v].notes)
      ensures (forall s | s in states :: v in s && s[v] == first[v]) && v in last && last[v] == first[v]
    {
      TrailKeeps(first, states, last, m, v);
    }
  }

  lemma TrailSpares(first: Archives, states: seq<Archives>, last: Archives, m: Manner, v: string)
    requires m == Careful(Some(v)) && Trail(first, states, last, m) && v in first
    ensures v in last && last[v] == first[v]
  {
    TrailKeeps(first, states, last, m, v);
  }

  /** What the listing before the backup decides: room is asked for only in the default order and only when retention
      will delete something. */
  ghost predicate RefusesForRoom(collate: Collation, req: Request, before: seq<Archive>) {
    && !req.evictBeforeCreate && PlanArchiveEviction(collate, before, req.cap, 1) != []
    && CheckBackupHeadroom(before, req.availBytes) == Insufficient
  }

  /** A call that is not refused starts exactly one backup and ends as its task ended. */
  ghost predicate EndsAsTask(result: Result, req: Request, created: seq<bool>, polls: seq<TaskStatus>) {
    if result.Refused? then created == [] && polls == []
    else exists outcome ::
      && Ran(outcome, req, created, polls)
      && (result.Failed? <==> outcome.TaskFailed?)
      && (result.PendingTask? <==> outcome.TaskPending?)
  }

  /** One call. In the default order it deletes nothing before the new archive is confirmed, and then carefully. */
  method GuestBackup(collate: Collation, node: Node, req: Request)
    returns (result: Result, ghost before: Option<seq<Archive>>, ghost list: seq<Archive>, ghost confirmed: Archives, ghost m: Manner)
    requires TotalPreorder(collate) && node.Valid() && IsServerNote(req.note)
    modifies node
    ensures node.Valid() && old(node.past) <= node.past
    ensures Trail(old(node.archives), node.past[|old(node.past)|..], node.archives, m)
    ensures SparesUnmarked(old(node.archives), node.past[|old(node.past)|..], node.archives)
    ensures !req.evictBeforeCreate ==> m == Careful(if result.Completed? then result.volid else None)
    ensures before.Some? <==> req.confirm && req.argumentsOk && result != Refused(ListingFailed)
    ensures before.Some? ==> IsListing(before.value, old(node.archives))
    ensures result == Refused(NoRoom) <==> before.Some? && RefusesForRoom(collate, req, before.value)
    ensures result.Refused? && result.why != PreEvictionFailed ==> node.past == old(node.past)
    ensures !result.Refused? && !result.Failed? ==>
      before.Some? && (if req.evictBeforeCreate then PlanArchiveEviction(collate, before.value, req.cap, 1) else []) <= result.evicted
    ensures old(node.created) <= node.created && old(node.polls) <= node.polls
    ensures EndsAsTask(result, req, node.created[|old(node.created)|..], node.polls[|old(node.polls)|..])
    ensures result.Completed? && result.volid.Some? ==> result.volid.value in node.archives && IsMcp(node.archives[result.volid.value])
    ensures result.Completed? && result.volid.Some? && result.evictionErrors == [] ==>
      IsListing(list, confirmed) && IsRetained(collate, list, node.archives, result.volid.value, req.cap)
  {
    hide Trail, IsListing, IsRetained, TotalPreorder, IsMcp, IsServerNote, PlanArchiveEviction, CheckBackupHeadroom, Ran, SparesUnmarked;
    before, list, confirmed, m := None, [], node.archives, Careful(None);
    assert node.created[|old(node.created)|..] == [] && node.polls[|old(node.polls)|..] == [];
    assert node.past[|old(node.past)|..] == [];
    TrailOfNothing(node.archives, m);
    TrailSparesUnmarked(node.archives, [], node.archives, m);
    if !req.confirm { return Refused(NotConfirmed), before, list, confirmed, m; }
    if !req.argumentsOk { return Refused(BadArguments), before, list, confirmed, m; }
    var listed := node.ListBackupArchives();
    if listed == None { return Refused(ListingFailed), before, list, confirmed, m; }
    before := listed;
    var plannedIfFull := PlanArchiveEviction(collate, listed.value, req.cap, 1);
    var evicted: seq<string> := [];
    if req.evictBeforeCreate {
      m := AtWill;
      PlanIsMcp(collate, listed.value, node.archives, req.cap);
      var errors;
      evicted, errors := Evict(node, plannedIfFull, AtWill);
      TrailSparesUnmarked(old(node.archives), node.past[|old(node.past)|..], node.archives, m);
      if errors != [] { return Refused(PreEvictionFailed), before, list, confirmed, m; }
    } else if plannedIfFull != [] && CheckBackupHeadroom(listed.value, req.availBytes) == Insufficient {
      return Refused(NoRoom), before, list, confirmed, m;
    }
    ghost var mid, past := node.archives, node.past;
    var outcome := CreateAndWait(node, req);
    TrailWidens(mid, node.past[|past|..], node.archives, m);
    TrailOnward(old(node.archives), old(node.past), mid, past, node.archives, node.past, m);
    TrailSparesUnmarked(old(node.archives), node.past[|old(node.past)|..], node.archives, m);
    if outcome.TaskFailed? { return Failed, before, list, confirmed, m; }
    if outcome.TaskPending? { return PendingTask(evicted), before, list, confirmed, m; }
    confirmed := node.archives;
    past := node.past;
    ghost var how;
    result, list, how := ConfirmAndEvict(collate, node, req);
    if req.evictBeforeCreate {
      TrailLoosens(confirmed, node.past[|past|..], node.archives, how);
    } else {
      m := how;
      TrailWidens(old(node.archives), past[|old(node.past)|..], confirmed, m);
    }
    TrailOnward(old(node.archives), old(node.past), confirmed, past, node.archives, node.past, m);
    TrailSparesUnmarked(old(node.archives), node.past[|old(node.past)|..], node.archives, m);
    result := result.(evicted := evicted + result.evicted);
  }

  /** What starting and waiting came to: a failed start, a backend that blocks until done, or what the polls say. */
  ghost predicate Ran(outcome: TaskOutcome, req: Request, created: seq<bool>, polls: seq<TaskStatus>) {
    && |created| == 1
    && if !created[0] then outcome.TaskFailed? && polls == []
       else if !req.isApi then outcome == TaskOk && polls == []
       else Tells(outcome, polls, req.timeoutMs, req.pollIntervalMs)
  }

  /** Starts the backup and, where the backend hands out tasks, waits for it: archives are only added. */
  method CreateAndWait(node: Node, req: Request) returns (outcome: TaskOutcome)
    requires node.Valid()
    modifies node
    ensures node.Valid() && old(node.past) <= node.past
    ensures Trail(old(node.archives), node.past[|old(node.past)|..], node.archives, Careful(None))
    ensures old(node.created) <= node.created && old(node.polls) <= node.polls
    ensures Ran(outcome, req, node.created[|old(node.created)|..], node.polls[|old(node.polls)|..])
  {
    hide Trail, Tells;
    var ok := node.CreateBackup();
    assert node.past[|old(node.past)|..] == [] + [node.archives];
    assert node.created[|old(node.created)|..] == [ok] && node.polls[|old(node.polls)|..] == [];
    TrailOfNothing(old(node.archives), Careful(None));
    TrailPush(old(node.archives), [], old(node.archives), node.archives, Careful(None));
    if !ok { return TaskFailed("not created"); }
    if !req.isApi { return TaskOk; }
    ghost var mid, past := node.archives, node.past;
    outcome := WaitForBackupTask(node, req.timeoutMs, req.pollIntervalMs);
    TrailOnward(old(node.archives), old(node.past), mid, past, node.archives, node.past, Careful(None));
  }

  /** Two stretches in a row, told by the pasts they leave. */
  lemma TrailOnward(first: Archives, past0: seq<Archives>, mid: Archives, past1: seq<Archives>, last: Archives, past2: seq<Archives>, m: Manner)
    requires past0 <= past1 <= past2
    requires Trail(first, past1[|past0|..], mid, m) && Trail(mid, past2[|past1|..], last, m)
    ensures Trail(first, past2[|past0|..], last, m)
  {
    hide Trail;
    TrailJoin(first, past1[|past0|..], mid, past2[|past1|..], last, m);
    assert past2[|past0|..] == past1[|past0|..] + past2[|past1|..];
  }

  lemma {:induction false} TrailLoosens(first: Archives, states: seq<Archives>, last: Archives, m: Manner)
    requires Trail(first, states, last, m)
    ensures Trail(first, states, last, AtWill)
    decreases |states|
  {
    if states != [] { TrailLoosens(states[0], states[1..], last, m); }
  }
}
