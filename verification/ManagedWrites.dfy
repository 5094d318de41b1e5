/** The managed write pipeline (src/tools/writeFile.ts) over the backup store, interleaved with outside edits. */
module ManagedWrites {
  import opened Options
  import opened Folding
  import opened Utf8
  import opened MerkleTrees
  import opened Eviction
  import opened BackupPolicy
  import opened BackupStores

  /** The contents a file went through, oldest first, and the stamp of the backup taken at each step. A step without
      a backup of the content before it starts the chain anew. */
  datatype Chain = Chain(texts: seq<string>, stamps: seq<int>)

  /** Every backup of the chain that is still stored leads from the content after it to the content before it. */
  ghost predicate IsChain(sha: Sha, files: Files, key: string, c: Chain) {
    && |c.texts| == |c.stamps| + 1
    && forall i | 0 <= i < |c.stamps| :: Leads(sha, files, FileName(key, c.stamps[i], Gz), c.texts[i + 1], c.texts[i])
  }

  ghost predicate Leads(sha: Sha, files: Files, path: FileName, after: string, before: string) {
    path in files ==> RestoreOf(sha, files, path, Some(after)) == Content(before)
  }

  /** Restores the named backups one after the other, each against what the previous one gave. */
  function WalkBack(sha: Sha, files: Files, key: string, stamps: seq<int>, current: string): Restored
    decreases |stamps|
  {
    if stamps == [] then Content(current) else
      var last := |stamps| - 1;
      match RestoreOf(sha, files, FileName(key, stamps[last], Gz), Some(current))
      case Content(text) => WalkBack(sha, files, key, stamps[..last], text)
      case other => other
  }

  /** Walking back from the newest content reaches every earlier one, as far as the backups are still stored. */
  lemma {:induction false} ChainWalksBack(sha: Sha, files: Files, key: string, c: Chain, i: nat, j: nat)
    requires IsChain(sha, files, key, c) && i <= j <= |c.stamps|
    requires forall k | i <= k < j :: FileName(key, c.stamps[k], Gz) in files
    ensures WalkBack(sha, files, key, c.stamps[i..j], c.texts[j]) == Content(c.texts[i])
    decreases j - i
  {
    hide RestoreOf;
    if i < j {
      var stamps := c.stamps[i..j];
      assert stamps[|stamps| - 1] == c.stamps[j - 1] && stamps[..|stamps| - 1] == c.stamps[i..j - 1];
      assert Leads(sha, files, FileName(key, c.stamps[j - 1], Gz), c.texts[j], c.texts[j - 1]);
      ChainWalksBack(sha, files, key, c, i, j - 1);
    }
  }

  lemma FewerFilesStillLead(sha: Sha, before: Files, after: Files, key: string, c: Chain)
    requires IsChain(sha, before, key, c)
    requires forall p | p in after && p.key == key && p.stamp in c.stamps :: p in before && after[p] == before[p]
    ensures IsChain(sha, after, key, c)
  {
    hide Restores;
    forall i | 0 <= i < |c.stamps| ensures Leads(sha, after, FileName(key, c.stamps[i], Gz), c.texts[i + 1], c.texts[i]) {
      assert Leads(sha, before, FileName(key, c.stamps[i], Gz), c.texts[i + 1], c.texts[i]);
    }
  }

  function Extended(c: Chain, text: string, stamp: int): Chain { Chain(c.texts + [text], c.stamps + [stamp]) }

  lemma ExtendedIsChain(sha: Sha, files: Files, key: string, c: Chain, text: string, stamp: int)
    requires IsChain(sha, files, key, c)
    requires Leads(sha, files, FileName(key, stamp, Gz), text, c.texts[|c.texts| - 1])
    ensures IsChain(sha, files, key, Extended(c, text, stamp))
  {
    hide Leads;
    var d := Extended(c, text, stamp);
    forall i | 0 <= i < |d.stamps| ensures Leads(sha, files, FileName(key, d.stamps[i], Gz), d.texts[i + 1], d.texts[i]) {
      if i < |c.stamps| {
        assert Leads(sha, files, FileName(key, c.stamps[i], Gz), c.texts[i + 1], c.texts[i]);
      }
    }
  }

  /** The write has a backup of the content it replaced. */
  predicate IsStepKept(kind: BackupKind, before: Option<string>, text: string) {
    (kind.GzipDiff? || kind.GzipFull?) && before.Some? && IsTextContent(text)
  }

  /** What is chosen for a write is sound for that write. */
  lemma StorableIsSound(sha: Sha, input: Input, kind: BackupKind)
    requires (kind.GzipDiff? || kind.GzipFull?) ==> IsStorable(sha, input, kind)
    ensures IsSoundKind(sha, kind, ContentHash(sha, input.newContent), Write(input.newContent, input.prevContent))
    ensures IsStepKept(kind, input.prevContent, input.newContent) && input.isText && input.prevHash.Some? ==>
      Restores(sha, kind.blob, Some(input.newContent)) == Content(input.prevContent.value)
  {
    hide Restores, Fits, Requires, ContentHash, IsLarge;
  }

  function Newest(c: Chain): Option<string> {
    if c.texts == [] then None else Some(c.texts[|c.texts| - 1])
  }

  function LiveText(live: map<string, string>, key: string): Option<string> {
    if key in live then Some(live[key]) else None
  }

  /** Every file has a chain that ends in its live content; all stamps lie before `clock`. */
  ghost predicate ChainsHold(sha: Sha, files: Files, live: map<string, string>, chains: map<string, Chain>, clock: int) {
    && (forall p | p in files :: p.stamp < clock)
    && (forall k | k in chains :: IsChain(sha, files, k, chains[k]) && forall s | s in chains[k].stamps :: s < clock)
    && forall k | k in live :: k in chains && Newest(chains[k]) == Some(live[k])
  }

  function NextChain(chains: map<string, Chain>, key: string, kept: bool, text: string, now: int): Chain {
    if kept && key in chains then Extended(chains[key], text, now) else Chain([text], [])
  }

  ghost predicate OnlyNewAt(after: Files, before: Files, now: int) {
    forall p | p in after && p.stamp != now :: p in before && after[p] == before[p]
  }

  lemma OldChainHolds(sha: Sha, before: Files, after: Files, now: int, k: string, c: Chain)
    requires OnlyNewAt(after, before, now) && IsChain(sha, before, k, c) && now !in c.stamps
    ensures IsChain(sha, after, k, c)
  {
    hide IsChain;
    FewerFilesStillLead(sha, before, after, k, c);
  }

  /** Eviction and one new version carry every chain over, extended by a write whose replaced content was kept. */
  lemma WriteKeepsChains(sha: Sha, before: Files, after: Files, live: map<string, string>, chains: map<string, Chain>, clock: int,
                         key: string, text: string, now: int, kept: bool)
    requires ChainsHold(sha, before, live, chains, clock) && clock <= now && OnlyNewAt(after, before, now)
    requires kept ==> key in live && Leads(sha, after, FileName(key, now, Gz), text, live[key])
    ensures ChainsHold(sha, after, live[key := text], chains[key := NextChain(chains, key, kept, text, now)], now + 1)
  {
    hide Leads, IsChain;
    forall k | k in chains ensures IsChain(sha, after, k, chains[k]) { OldChainHolds(sha, before, after, now, k, chains[k]); }
    if kept {
      ChainLength(sha, before, key, chains[key]);
      ExtendedIsChain(sha, after, key, chains[key], text, now);
    } else {
      FreshChain(sha, after, key, text);
    }
  }

  lemma ChainLength(sha: Sha, files: Files, key: string, c: Chain)
    requires IsChain(sha, files, key, c)
    ensures |c.texts| == |c.stamps| + 1
  {}

  lemma FreshChain(sha: Sha, files: Files, key: string, text: string)
    ensures IsChain(sha, files, key, Chain([text], []))
  {}

  /** A stamp at or after the clock names no file yet, and the live content ends its chain. */
  lemma StampIsNew(sha: Sha, files: Files, live: map<string, string>, chains: map<string, Chain>, clock: int, now: int)
    requires ChainsHold(sha, files, live, chains, clock) && clock <= now
    ensures forall p | p in files :: p.stamp < now
  {}

  lemma NewVersion(sha: Sha, before: Files, evicted: Files, key: string, now: int, kind: BackupKind, text: string)
    requires exists kept :: OnlyListed(evicted, before, kept)
    ensures
      var after := WithVersion(evicted, key, now, kind, ContentHash(sha, text));
      && OnlyNewAt(after, before, now)
      && ((kind.GzipDiff? || kind.GzipFull?) ==>
        var p := FileName(key, now, Gz);
        p in after && RestoreOf(sha, after, p, Some(text)) == Restores(sha, kind.blob, Some(text)))
  {
    hide Restores, ContentHash;
  }

  /** The bytes whose hashes a deduplicated write compares: its own, and those written when the blob was taken. */
  function BytesToCompare(text: string, writes: map<FileName, Write>, blob: FileName): set<seq<byte>> {
    {Encode(text)} + if blob in writes then {Encode(writes[blob].text)} else {}
  }

  /** The blob was taken for the same content, and restores what that earlier write replaced or the content itself. */
  ghost predicate DedupGives(sha: Sha, files: Files, writes: map<FileName, Write>, blob: FileName, text: string) {
    && blob in writes && writes[blob].text == text
    && var r := RestoreOf(sha, files, blob, Some(text));
       r.Content? && (r == Content(text) || Some(r.text) == writes[blob].before)
  }

  lemma DedupRestoresAfter(sha: Sha, before: Files, after: Files, writes: map<FileName, Write>, meta: FileName, blob: FileName, text: string)
    requires Honest(sha, before, writes) && Offers(before, meta, ContentHash(sha, text), blob)
    requires blob in after && after[blob] == before[blob]
    requires NoCollision(sha, BytesToCompare(text, writes, blob))
    ensures DedupGives(sha, after, writes, blob, text)
  {
    hide Restores, Offers, Honest, ContentHash;
    if blob in writes { TextsDoNotCollide(sha, {text, writes[blob].text}, BytesToCompare(text, writes, blob)); }
    DedupRestores(sha, before, writes, meta, blob, text);
  }

  /** A deduplicated write adds no file, and its blob gives what `DedupGives` says if the eviction spared it. */
  lemma DedupStep(sha: Sha, before: Files, evicted: Files, writes: map<FileName, Write>, known: map<Digest, FileName>, text: string,
                  key: string, now: int, w: Write, kind: BackupKind)
    requires Honest(sha, before, writes) && IsHashMap(known, before) && ContentHash(sha, text) in known
    requires (exists kept :: OnlyListed(evicted, before, kept)) && forall p | p in before :: p.stamp != now
    requires kind == Dedup(known[ContentHash(sha, text)])
    ensures kind.existingPath in before && WithVersion(evicted, key, now, kind, ContentHash(sha, text)) == evicted
    ensures kind.existingPath in evicted && NoCollision(sha, BytesToCompare(text, writes, kind.existingPath)) ==>
              DedupGives(sha, evicted, writes[FileName(key, now, Gz) := w], kind.existingPath, text)
  {
    hide Honest, ContentHash, DedupGives, Lists, BytesToCompare, NoCollision;
    var blob := kind.existingPath;
    var p :| Offers(before, p, ContentHash(sha, text), blob);
    if blob in evicted && NoCollision(sha, BytesToCompare(text, writes, blob)) {
      DedupRestoresAfter(sha, before, evicted, writes, p, blob, text);
      MoreWrites(sha, evicted, writes, blob, text, FileName(key, now, Gz), w);
    }
  }

  lemma MoreWrites(sha: Sha, files: Files, writes: map<FileName, Write>, blob: FileName, text: string, path: FileName, w: Write)
    requires DedupGives(sha, files, writes, blob, text) && blob != path
    ensures DedupGives(sha, files, writes[path := w], blob, text)
  {
    hide RestoreOf;
  }

  /** How a text over a text is kept: whole where the file no longer is what the last recorded write of the key left, as
      a reverse delta otherwise. */
  ghost predicate IsAnchored(sha: Sha, files: Files, key: string, before: string, newContent: string, kind: BackupKind) {
    if exists h :: LastRecorded(files, key, h) && h != ContentHash(sha, before)
    then kind == GzipFull(Raw(before), true)
    else kind.GzipDiff? && IsReverseDiff(sha, newContent, before, kind.blob, kind.requiresBaseHash)
  }

  lemma KindIsAnchored(sha: Sha, files: Files, key: string, input: Input, kind: BackupKind)
    requires (kind.GzipDiff? || kind.GzipFull?) && IsStorable(sha, input, kind)
    requires IsLatestHash(files, key, input.chainBaseHash) && input.prevHash == HashOf(sha, input.prevContent)
    ensures input.isText && input.prevContent.Some? ==> IsAnchored(sha, files, key, input.prevContent.value, input.newContent, kind)
    ensures !input.isText || input.prevContent.None? ==> kind == GzipFull(Raw(input.newContent), false)
  {
    hide IsLatestHash, LastRecorded, IsReverseDiff, ContentHash, Restores, Fits;
    LatestIsLast(files, key, input.chainBaseHash);
  }

  /** A kept version, and what it restores against any later live content. */
  lemma ReanchoredRestores(sha: Sha, evicted: Files, key: string, now: int, before: string, newHash: Digest, current: Option<string>)
    ensures RestoreOf(sha, WithVersion(evicted, key, now, GzipFull(Raw(before), true), newHash), FileName(key, now, Gz), current)
         == Content(before)
  {}

  /** The new sidecar is the newest, so its hash is the one on record. */
  lemma NewHashIsLast(before: Files, evicted: Files, key: string, now: int, kind: BackupKind, newHash: Digest)
    requires !kind.Dedup? && (exists kept :: OnlyListed(evicted, before, kept)) && forall p | p in before :: p.stamp < now
    ensures LastRecorded(WithVersion(evicted, key, now, kind, newHash), key, newHash)
  {
    hide Lists;
    var after := WithVersion(evicted, key, now, kind, newHash);
    assert Records(after, FileName(key, now, Meta), newHash);
    forall q: FileName, g | q.key == key && Records(after, q, g) ensures q.stamp <= now {
      if q != FileName(key, now, Meta) { assert q in evicted; }
    }
  }

  /** What a stored write leaves: a text over a text is anchored, anything else is kept as written; a whole copy of the
      replaced text gives it back whatever becomes of the file; and the hash on record is that of the new content. */
  ghost predicate IsVersionOf(
    sha: Sha, before: Files, after: Files, key: string, now: int, replaced: Option<string>, newContent: string, kind: BackupKind)
    requires !kind.Dedup?
  {
    && LastRecorded(after, key, ContentHash(sha, newContent))
    && ((kind.GzipDiff? || kind.GzipFull?) ==>
          if replaced.Some? && IsTextContent(newContent)
          then IsAnchored(sha, before, key, replaced.value, newContent, kind)
          else kind == GzipFull(Raw(newContent), false))
    && (kind.GzipFull? && kind.reanchored ==>
          replaced.Some? && forall current :: RestoreOf(sha, after, FileName(key, now, Gz), current) == Content(replaced.value))
  }

  lemma StoredVersion(sha: Sha, before: Files, evicted: Files, key: string, now: int, input: Input, kind: BackupKind)
    requires !kind.Dedup? && (exists kept :: OnlyListed(evicted, before, kept)) && forall p | p in before :: p.stamp < now
    requires kind.GzipDiff? || kind.GzipFull? ==> IsStorable(sha, input, kind)
    requires IsLatestHash(before, key, input.chainBaseHash) && input.prevHash == HashOf(sha, input.prevContent)
    requires input.isText == IsTextContent(input.newContent)
    ensures IsVersionOf(sha, before, WithVersion(evicted, key, now, kind, ContentHash(sha, input.newContent)), key, now,
                        input.prevContent, input.newContent, kind)
  {
    hide *;
    NewHashIsLast(before, evicted, key, now, kind, ContentHash(sha, input.newContent));
    if kind.GzipDiff? || kind.GzipFull? { KindIsAnchored(sha, before, key, input, kind); }
    if kind.GzipFull? && kind.reanchored { AnchoredIsWhole(sha, before, key, input, kind); }
    forall current, text {
      ReanchoredRestores(sha, evicted, key, now, text, ContentHash(sha, input.newContent), current);
    }
    VersionIs(sha, before, WithVersion(evicted, key, now, kind, ContentHash(sha, input.newContent)), key, now, input.prevContent,
      input.newContent, kind);
  }

  lemma AnchoredIsWhole(sha: Sha, files: Files, key: string, input: Input, kind: BackupKind)
    requires kind.GzipFull? && kind.reanchored && IsStorable(sha, input, kind)
    ensures input.prevContent.Some? && kind == GzipFull(Raw(input.prevContent.value), true)
  {
    hide ContentHash, Restores, Fits, IsReverseDiff;
  }

  lemma VersionIs(sha: Sha, before: Files, after: Files, key: string, now: int, replaced: Option<string>, newContent: string, kind: BackupKind)
    requires !kind.Dedup? && LastRecorded(after, key, ContentHash(sha, newContent))
    requires (kind.GzipDiff? || kind.GzipFull?) && replaced.Some? && IsTextContent(newContent) ==>
      IsAnchored(sha, before, key, replaced.value, newContent, kind)
    requires (kind.GzipDiff? || kind.GzipFull?) && !(replaced.Some? && IsTextContent(newContent)) ==> kind == GzipFull(Raw(newContent), false)
    requires kind.GzipFull? && kind.reanchored ==>
      replaced.Some? && forall current :: RestoreOf(sha, after, FileName(key, now, Gz), current) == Content(replaced.value)
    ensures IsVersionOf(sha, before, after, key, now, replaced, newContent, kind)
  {
    hide LastRecorded, IsAnchored, ContentHash, RestoreOf, IsTextContent;
  }

  class ManagedFiles {
    const store: BackupStore
    const largeFileBytesThreshold: nat
    const largeFilePolicy: LargeFilePolicy
    var live: map<string, string>
    /** Stamps handed out so far are below this one. */
    ghost var clock: int
    ghost var chains: map<string, Chain>

    constructor (store: BackupStore, live: map<string, string>, threshold: nat, policy: LargeFilePolicy)
      requires store.Valid() && store.files == map[]
      ensures Valid() && this.store == store && this.live == live
    {
      this.store, this.live, largeFileBytesThreshold, largeFilePolicy := store, live, threshold, policy;
      clock := 0;
      chains := map k | k in live :: Chain([live[k]], []);
    }

    ghost predicate Valid()
      reads this, store
    {
      store.Valid() && ChainsHold(store.sha, store.files, live, chains, clock)
    }

    function Before(key: string): Option<string>
      reads this
    {
      LiveText(live, key)
    }

    /** Too large to keep the content of. */
    predicate IsOversize(newContent: string) {
      |Encode(newContent)| > largeFileBytesThreshold && (largeFilePolicy == MetadataOnlyForLargeFiles || !IsTextContent(newContent))
    }

    /** Something else replaces or removes the file. */
    method OutsideEdit(key: string, text: Option<string>)
      requires Valid()
      modifies this
      ensures Valid() && Before(key) == text && forall k | k != key :: Before(k) == old(Before(k))
      ensures clock == old(clock)
      ensures forall k | k != key && k in old(chains) :: k in chains && chains[k] == old(chains[k])
    {
      if text.Some? {
        live, chains := live[key := text.value], chains[key := Chain([text.value], [])];
      } else {
        live := live - {key};
      }
    }

    /** A managed write at time `now`. */
    method ManagedWrite(key: string, newContent: string, now: int)
      returns (kind: BackupKind, result: BackupResult, ghost known: map<Digest, FileName>, ghost listing: seq<BackupEntry>)
      requires Valid() && clock <= now
      modifies this, store
      ensures Valid() && live == old(live)[key := newContent] && clock == now + 1
      ensures IsHashMap(known, old(store.files)) && (kind.Dedup? <==> ContentHash(store.sha, newContent) in known)
      ensures kind.Dedup? ==> result == BackupResult(None, Some(known[ContentHash(store.sha, newContent)]), true)
      ensures IsListing(listing, old(store.files), store.timeOf)
      ensures kind.Dedup? ==>
        var blob := known[ContentHash(store.sha, newContent)];
        && (blob in store.files <==> Outlives(listing, store.perFileVersionCap, store.globalSizeCapBytes, blob))
        && (blob in store.files && NoCollision(store.sha, BytesToCompare(newContent, old(store.writes), blob)) ==>
              DedupGives(store.sha, store.files, store.writes, blob, newContent))
      ensures kind.MetadataOnly? <==> !kind.Dedup? && IsOversize(newContent)
      ensures kind.MetadataOnly? ==> result == BackupResult(Some(FileName(key, now, Meta)), None, false)
      ensures kind.GzipDiff? || kind.GzipFull? ==> result == BackupResult(Some(FileName(key, now, Gz)), None, true)
      ensures (kind.GzipDiff? || kind.GzipFull?) && old(key in live) && IsTextContent(newContent) ==>
        RestoreOf(store.sha, store.files, FileName(key, now, Gz), Some(newContent)) == Content(old(live[key]))
      ensures !kind.Dedup? ==> IsVersionOf(store.sha, old(store.files), store.files, key, now, old(Before(key)), newContent, kind)
      ensures key in chains && chains[key] ==
        if (kind.GzipDiff? || kind.GzipFull?) && old(key in live && key in chains) && IsTextContent(newContent)
        then Chain(old(chains[key]).texts + [newContent], old(chains[key]).stamps + [now])
        else Chain([newContent], [])
      ensures forall k | k != key && k in old(chains) :: k in chains && chains[k] == old(chains[k])
    {
      hide IsChain, Restores, RestoreOf, ContentHash, WithVersion, IsStorable, IsSoundKind, Honest, IsTextContent, IsHashMap;
      hide IsListing, Eviction.Kept, IsLatestHash, Encode, ChainsHold, OnlyListed, Outlives, DedupGives, BytesToCompare, NoCollision,
        IsVersionOf;
      StampIsNew(store.sha, store.files, live, chains, clock, now);
      var sha := store.sha;
      var prevContent := Before(key);
      var prevHash := HashOf(sha, prevContent);
      var chainBaseHash := store.LatestBaseHash(key);
      var pressure := store.CheckDiskPressure();
      var existing := store.BuildExistingHashMap();
      known := existing;
      var input := Input(
        newContent, prevContent, prevHash, IsTextContent(newContent), largeFileBytesThreshold, largeFilePolicy, existing, chainBaseHash);
      kind := SelectBackupKind(sha, input);
      ghost var w := Write(newContent, prevContent);
      ghost var evicted;
      StorableIsSound(sha, input, kind);
      result, listing, evicted := store.StoreBackup(key, kind, ContentHash(sha, newContent), now, w);
      ghost var kept := IsStepKept(kind, prevContent, newContent);
      if kind.Dedup? {
        DedupStep(sha, old(store.files), evicted, old(store.writes), known, newContent, key, now, w, kind);
      }
      NewVersion(sha, old(store.files), evicted, key, now, kind, newContent);
      if !kind.Dedup? { StoredVersion(sha, old(store.files), evicted, key, now, input, kind); }
      WriteKeepsChains(sha, old(store.files), store.files, live, chains, clock, key, newContent, now, kept);
      chains := chains[key := NextChain(chains, key, kept, newContent, now)];
      live, clock := live[key := newContent], now + 1;
    }
  }
}
