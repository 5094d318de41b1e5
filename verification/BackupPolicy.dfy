/** What a backup stores and what it can give back (src/backup/policy.ts). Compression and the JSON rendering
    of the envelope are left out: a blob is either a delta envelope or raw content. */
module BackupPolicy {
  import opened Options
  import opened MerkleTrees
  import opened Folding
  import opened Utf8
  import opened LineDiff
  import opened Eviction

  const MAX_DIFF_LINES := 2000
  const TEXT_SAMPLE_BYTES := 8192

  datatype Blob = Delta(baseHash: Digest, hunks: seq<Hunk>) | Raw(content: string)

  datatype BackupKind =
    | Dedup(existingPath: FileName)
    | GzipDiff(blob: Blob, requiresBaseHash: Option<Digest>)
    | GzipFull(blob: Blob, reanchored: bool)
    | MetadataOnly

  datatype LargeFilePolicy = DiffLargeFiles | MetadataOnlyForLargeFiles

  datatype Input = Input(
    newContent: string,
    prevContent: Option<string>,
    prevHash: Option<Digest>,
    isText: bool,
    largeFileBytesThreshold: nat,
    largeFilePolicy: LargeFilePolicy,
    existingHashToPaths: map<Digest, FileName>,
    chainBaseHash: Option<Digest>)

  datatype RestoreError = BackupNotFound | NotABlob | NeedsCurrentFile | StaleBase | CorruptDelta
  datatype Restored = Content(text: string) | NothingStored | Threw(error: RestoreError)

  function ContentHash(sha: Sha, text: string): Digest { sha(Encode(text)) }

  /** No NUL among the first 8 KiB. */
  predicate IsTextContent(text: string) {
    var bytes := Encode(text);
    0 !in if |bytes| <= TEXT_SAMPLE_BYTES then bytes else bytes[..TEXT_SAMPLE_BYTES]
  }

  /** Content counts as text exactly when none of its first 8192 bytes is zero. */
  lemma TextIff(text: string, bytes: seq<byte>)
    requires bytes == Encode(text)
    ensures IsTextContent(text) <==> forall i | 0 <= i < |bytes| && i < 8192 :: bytes[i] != 0
  {
    var sample := if |bytes| <= TEXT_SAMPLE_BYTES then bytes else bytes[..TEXT_SAMPLE_BYTES];
    assert IsTextContent(text) <==> 0 !in sample;
    assert forall i | 0 <= i < |bytes| && i < 8192 :: i < |sample| && sample[i] == bytes[i] && bytes[i] in sample;
  }

  /** Two texts with the same hash are the same text. */
  ghost predicate NoTextCollision(sha: Sha, texts: set<string>) {
    forall a, b | a in texts && b in texts && ContentHash(sha, a) == ContentHash(sha, b) :: a == b
  }

  /** Collision freedom of the hash itself, on the bytes of those texts, is all this needs. */
  lemma TextsDoNotCollide(sha: Sha, texts: set<string>, inputs: set<seq<byte>>)
    requires NoCollision(sha, inputs) && forall t | t in texts :: Encode(t) in inputs
    ensures NoTextCollision(sha, texts)
  {
    forall a, b | a in texts && b in texts && ContentHash(sha, a) == ContentHash(sha, b) ensures a == b {
      EncodeInjective(a, b);
    }
  }

  // ---- Restoring ----

  /** What a blob gives back when `current` is the live content. */
  function Restores(sha: Sha, blob: Blob, current: Option<string>): Restored {
    match blob
    case Raw(content) => Content(content)
    case Delta(baseHash, hunks) =>
      if current.None? then Threw(NeedsCurrentFile)
      else if ContentHash(sha, current.value) != baseHash then Threw(StaleBase)
      else
        match Applied(hunks, SplitLines(current.value))
        case None => Threw(CorruptDelta)
        case Some(lines) => Content(JoinLines(lines))
  }

  method ApplyReverseDiff(sha: Sha, blob: Blob, current: Option<string>) returns (r: Restored)
    ensures r == Restores(sha, blob, current)
  {
    hide Applied, SplitLines, JoinLines;
    match blob
    case Raw(content) => return Content(content);
    case Delta(baseHash, hunks) =>
      if current.None? { return Threw(NeedsCurrentFile); }
      if ContentHash(sha, current.value) != baseHash { return Threw(StaleBase); }
      var lines := ApplyHunks(hunks, SplitLines(current.value));
      match lines
      case None => return Threw(CorruptDelta);
      case Some(out) => return Content(JoinLines(out));
  }

  // ---- Choosing what to store ----

  /** A write: the content it produced, and the content it replaced when there was any. */
  datatype Write = Write(text: string, before: Option<string>)

  /** The blob is a delta from the written content back to the replaced one, or one of the two as it is. */
  ghost predicate Fits(sha: Sha, blob: Blob, w: Write) {
    match blob
    case Raw(content) => content == w.text || Some(content) == w.before
    case Delta(baseHash, hunks) =>
      && baseHash == ContentHash(sha, w.text)
      && w.before.Some?
      && Restores(sha, blob, Some(w.text)) == Content(w.before.value)
  }

  /** The recorded requirement is the one the blob has. */
  ghost predicate Requires(blob: Blob, requiresBaseHash: Option<Digest>) {
    match blob
    case Raw(_) => requiresBaseHash == None
    case Delta(baseHash, _) => requiresBaseHash == Some(baseHash)
  }

  lemma DeltaRestores(sha: Sha, newContent: string, prevContent: string, hunks: seq<Hunk>)
    requires
      var a, b := SplitLines(newContent), SplitLines(prevContent);
      Expand(hunks) == Backtrack(a, b, |a|, |b|)
    ensures Restores(sha, Delta(ContentHash(sha, newContent), hunks), Some(newContent)) == Content(prevContent)
  {
    hide Expand, Backtrack, SplitLines, Applied, JoinLines, ContentHash;
    BuiltHunksRestore(SplitLines(newContent), SplitLines(prevContent), hunks);
    SplitJoin(prevContent);
  }

  /** A shortest delta taken against the new content, or, when a side has more than 2000 lines, the previous content as
      it is; either gives the previous content back. */
  ghost predicate IsReverseDiff(sha: Sha, newContent: string, prevContent: string, blob: Blob, baseHash: Option<Digest>) {
    && Restores(sha, blob, Some(newContent)) == Content(prevContent)
    && (blob.Raw? <==> |SplitLines(newContent)| > 2000 || |SplitLines(prevContent)| > 2000)
    && (blob.Raw? ==> blob == Raw(prevContent) && baseHash == None)
    && (blob.Delta? ==>
          && IsShortest(blob.hunks, SplitLines(newContent), SplitLines(prevContent))
          && baseHash == Some(blob.baseHash) && blob.baseHash == ContentHash(sha, newContent))
  }

  /** A minimal delta, or the whole previous content when a side is too long; either gives `prevContent` back. */
  method ComputeReverseDiff(sha: Sha, newContent: string, prevContent: string) returns (blob: Blob, baseHash: Option<Digest>)
    ensures IsReverseDiff(sha, newContent, prevContent, blob, baseHash)
    ensures Fits(sha, blob, Write(newContent, Some(prevContent))) && Requires(blob, baseHash)
  {
    hide Expand, Backtrack, SplitLines, Applied, JoinLines, ContentHash, IsShortest, Compressed;
    var newLines, prevLines := SplitLines(newContent), SplitLines(prevContent);
    if |newLines| > MAX_DIFF_LINES || |prevLines| > MAX_DIFF_LINES {
      return Raw(prevContent), None;
    }
    var hunks := BuildHunks(newLines, prevLines);
    DeltaRestores(sha, newContent, prevContent, hunks);
    BuiltIsShortest(newLines, prevLines, hunks);
    return Delta(ContentHash(sha, newContent), hunks), Some(ContentHash(sha, newContent));
  }

  /** No line script between the two contents inserts and deletes fewer lines. */
  ghost predicate IsShortest(hunks: seq<Hunk>, a: seq<Line>, b: seq<Line>) {
    forall script | Turns(script, a, |a|, b, |b|) :: Cost(Expand(hunks)) <= Cost(script)
  }

  lemma BuiltIsShortest(a: seq<Line>, b: seq<Line>, hunks: seq<Hunk>)
    requires Expand(hunks) == Backtrack(a, b, |a|, |b|)
    ensures IsShortest(hunks, a, b)
  {
    hide Expand, Backtrack, Turns, Cost, Lcs;
    forall script | Turns(script, a, |a|, b, |b|) ensures Cost(Expand(hunks)) <= Cost(script) {
      BacktrackIsMinimal(a, b, script);
    }
  }

  /** The file changed since the last managed write. */
  predicate DriftedSinceLastWrite(prevHash: Option<Digest>, chainBaseHash: Option<Digest>) {
    chainBaseHash.Some? && prevHash.Some? && prevHash != chainBaseHash
  }

  predicate IsLarge(input: Input) { |Encode(input.newContent)| > input.largeFileBytesThreshold }

  /** The content replaced is what gets stored, as opposed to the new content or nothing. */
  predicate KeepsPrevious(input: Input) {
    input.isText && input.prevContent.Some? && (IsLarge(input) || input.prevHash.Some?)
  }

  method SelectBackupKind(sha: Sha, input: Input) returns (kind: BackupKind)
    ensures kind.Dedup? <==> ContentHash(sha, input.newContent) in input.existingHashToPaths
    ensures kind.Dedup? ==> kind.existingPath == input.existingHashToPaths[ContentHash(sha, input.newContent)]
    ensures kind.MetadataOnly? <==>
      !kind.Dedup? && IsLarge(input) && (input.largeFilePolicy == MetadataOnlyForLargeFiles || !input.isText)
    ensures (kind.GzipDiff? || kind.GzipFull?) ==> IsStorable(sha, input, kind)
  {
    hide ContentHash, Encode, Restores, Fits, IsShortest, SplitLines;
    var newHash := ContentHash(sha, input.newContent);
    if newHash in input.existingHashToPaths { return Dedup(input.existingHashToPaths[newHash]); }
    var drifted := DriftedSinceLastWrite(input.prevHash, input.chainBaseHash);
    RawFits(sha, input.newContent, input.prevContent);
    if IsLarge(input) {
      if input.largeFilePolicy == MetadataOnlyForLargeFiles || !input.isText { return MetadataOnly; }
      if input.prevContent.Some? {
        if drifted { return GzipFull(Raw(input.prevContent.value), true); }
        var blob, baseHash := ComputeReverseDiff(sha, input.newContent, input.prevContent.value);
        return GzipDiff(blob, baseHash);
      }
      return GzipFull(Raw(input.newContent), false);
    }
    if input.isText && input.prevContent.Some? && input.prevHash.Some? {
      if drifted { return GzipFull(Raw(input.prevContent.value), true); }
      var blob, baseHash := ComputeReverseDiff(sha, input.newContent, input.prevContent.value);
      return GzipDiff(blob, baseHash);
    }
    return GzipFull(Raw(input.newContent), false);
  }

  /** What a stored kind promises: its blob restores the replaced content right after the write when that content
      is what gets stored, and the new content otherwise; a delta is taken only against an undrifted file. */
  ghost predicate IsStorable(sha: Sha, input: Input, kind: BackupKind)
    requires kind.GzipDiff? || kind.GzipFull?
  {
    && Fits(sha, kind.blob, Write(input.newContent, input.prevContent))
    && Requires(kind.blob, BaseRequirement(kind))
    && (if KeepsPrevious(input)
        then
          && Restores(sha, kind.blob, Some(input.newContent)) == Content(input.prevContent.value)
          && (kind.GzipFull? <==> DriftedSinceLastWrite(input.prevHash, input.chainBaseHash))
          && (kind.GzipFull? ==> kind.reanchored && kind.blob == Raw(input.prevContent.value))
          && (kind.GzipDiff? ==> IsReverseDiff(sha, input.newContent, input.prevContent.value, kind.blob, kind.requiresBaseHash))
        else kind == GzipFull(Raw(input.newContent), false))
  }

  function BaseRequirement(kind: BackupKind): Option<Digest> {
    if kind.GzipDiff? then kind.requiresBaseHash else None
  }

  lemma RawFits(sha: Sha, newContent: string, prevContent: Option<string>)
    ensures Fits(sha, Raw(newContent), Write(newContent, prevContent))
    ensures Restores(sha, Raw(newContent), Some(newContent)) == Content(newContent)
    ensures prevContent.Some? ==> Fits(sha, Raw(prevContent.value), Write(newContent, prevContent))
    ensures prevContent.Some? ==> Restores(sha, Raw(prevContent.value), Some(newContent)) == Content(prevContent.value)
  {}

  /** Exactly when a stored blob gives the replaced content back right after the write: whenever that content is
      what gets stored, and otherwise only when the write changed nothing. */
  lemma RestoresPreviousIff(sha: Sha, input: Input, kind: BackupKind)
    requires input.prevContent.Some? && (kind.GzipDiff? || kind.GzipFull?) && IsStorable(sha, input, kind)
    ensures Restores(sha, kind.blob, Some(input.newContent)) == Content(input.prevContent.value)
      <==> KeepsPrevious(input) || input.newContent == input.prevContent.value
  {
    hide Encode, SplitLines, Applied, JoinLines;
    if !KeepsPrevious(input) { assert kind.blob == Raw(input.newContent); }
  }

  /** A NUL written over a text: what gets stored is the NUL, and the text is gone. */
  lemma BinaryWriteExample(sha: Sha, kind: BackupKind)
    requires kind.GzipDiff? || kind.GzipFull?
    requires IsStorable(sha, Input("\0", Some("a"), Some(ContentHash(sha, "a")), IsTextContent("\0"), 1000, DiffLargeFiles, map[], None), kind)
    ensures Restores(sha, kind.blob, Some("\0")) == Content("\0")
  {
    hide ContentHash, Restores, Fits;
    assert Encode("\0") == [0] by { assert "\0"[1..] == ""; }
    assert !IsTextContent("\0");
    RawFits(sha, "\0", Some("a"));
  }

  // ---- Saying beforehand whether a version can be restored ----

  datatype KindName = MetadataOnlyKind | GzipDiffKind | GzipFullKind | UnknownKind

  /** `requiresBaseHash` is absent (None) for metas written before the field existed. */
  datatype RevertibilityView = View(kind: KindName, requiresBaseHash: Option<Option<Digest>>, hash: Option<Digest>)

  datatype Revertibility = Revertible | NoContentStored | CurrentUnknown | BaseMoved

  function ClassifyRevertibility(view: RevertibilityView, currentHash: Option<Digest>): Revertibility {
    if view.kind == MetadataOnlyKind then NoContentStored else
      var baseReq :=
        if view.requiresBaseHash.Some? then view.requiresBaseHash.value
        else if view.kind == GzipDiffKind then view.hash
        else None;
      if baseReq == None then Revertible
      else if currentHash == None then CurrentUnknown
      else if currentHash == baseReq then Revertible
      else BaseMoved
  }

  function HashOf(sha: Sha, current: Option<string>): Option<Digest> {
    if current.None? then None else Some(ContentHash(sha, current.value))
  }

  ghost predicate DoNotCollide(sha: Sha, current: Option<string>, text: string) {
    current.Some? ==> NoTextCollision(sha, {current.value, text})
  }

  /** The verdict is exact for every version whose requirement is recorded: revertible exactly when restoring yields
      content, for a live file with any content or none. */
  lemma VerdictIsExact(sha: Sha, blob: Blob, w: Write, view: RevertibilityView, current: Option<string>)
    requires Fits(sha, blob, w) && view.kind != MetadataOnlyKind
    requires view.requiresBaseHash.Some? && Requires(blob, view.requiresBaseHash.value)
    requires DoNotCollide(sha, current, w.text)
    ensures ClassifyRevertibility(view, HashOf(sha, current)) == Revertible <==> Restores(sha, blob, current).Content?
  {
    hide ContentHash, SplitLines, Applied, JoinLines;
    if blob.Delta? && current.Some? && ContentHash(sha, current.value) == blob.baseHash {
      assert current.value == w.text;
    }
  }

  /** And the reason it gives is the error restoring fails with. */
  lemma VerdictReason(sha: Sha, blob: Blob, w: Write, view: RevertibilityView, current: Option<string>)
    requires Fits(sha, blob, w) && view.kind != MetadataOnlyKind
    requires view.requiresBaseHash.Some? && Requires(blob, view.requiresBaseHash.value)
    ensures ClassifyRevertibility(view, HashOf(sha, current)) == BaseMoved <==> Restores(sha, blob, current) == Threw(StaleBase)
    ensures ClassifyRevertibility(view, HashOf(sha, current)) == CurrentUnknown <==> Restores(sha, blob, current) == Threw(NeedsCurrentFile)
  {
    hide ContentHash, SplitLines, Applied, JoinLines;
  }

  /** For a delta kind with only its hash on record the verdict never overstates; it understates exactly for a
      self-contained blob whose file has moved on. */
  lemma LegacyVerdict(sha: Sha, blob: Blob, w: Write, view: RevertibilityView, current: Option<string>)
    requires Fits(sha, blob, w) && DoNotCollide(sha, current, w.text)
    requires view == View(GzipDiffKind, None, Some(ContentHash(sha, w.text)))
    ensures ClassifyRevertibility(view, HashOf(sha, current)) == Revertible ==> Restores(sha, blob, current).Content?
    ensures ClassifyRevertibility(view, HashOf(sha, current)) != Revertible && Restores(sha, blob, current).Content?
      <==> blob.Raw? && current != Some(w.text)
  {
    hide ContentHash, SplitLines, Applied, JoinLines;
    if current.Some? && ContentHash(sha, current.value) == ContentHash(sha, w.text) {
      assert current.value == w.text;
    }
  }
}
