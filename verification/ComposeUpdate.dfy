/** `compose_update` (src/tools/composeUpdate.ts): pull, hold the old image, recreate, health gate, roll back.
    Docker is an environment of local tags and one service container whose commands may succeed, fail or be lost. */
module ComposeUpdates {
  import opened Options
  import opened RollbackBreakers

  type ImageId = string
  type Ref = string

  /** What is on the node between two commands. */
  datatype Snapshot = Snapshot(tags: map<Ref, ImageId>, running: Option<ImageId>)

  /** An exit code, or None when the transport threw. */
  type Exit = Option<int>

  const OK: Exit := Some(0)

  // ---- Health polling ----

  datatype Health = NoHealthcheck | Starting | Healthy | Unhealthy
  datatype Status = Running | Exited | Dead | OtherStatus
  datatype HealthSample = HealthSample(t: int, status: Status, health: Health, restartCount: int, restarting: bool)
  datatype PollState = Pending | Pass | Fail

  predicate HasHealthcheck(samples: seq<HealthSample>) { exists s | s in samples :: s.health != NoHealthcheck }

  predicate IsUp(s: HealthSample) { s.status == Running && !s.restarting }

  /** Where the unbroken run of up samples that ends the list starts. */
  function UpStart(samples: seq<HealthSample>): (i: nat)
    ensures i <= |samples| && (forall j | i <= j < |samples| :: IsUp(samples[j])) && (i > 0 ==> !IsUp(samples[i - 1]))
  {
    if samples == [] then 0 else
      var last := |samples| - 1;
      if IsUp(samples[last]) then UpStart(samples[..last]) else |samples|
  }

  function EvaluateHealthPoll(samples: seq<HealthSample>, stableMs: int): PollState {
    if samples == [] then Pending else
      var last := samples[|samples| - 1];
      if exists s | s in samples :: s.status == Exited || s.status == Dead then Fail
      else if last.restartCount > samples[0].restartCount then Fail
      else if HasHealthcheck(samples) then
        (if last.health == Healthy then Pass else if last.health == Unhealthy then Fail else Pending)
      else if UpStart(samples) < |samples| && last.t - samples[UpStart(samples)].t >= stableMs then Pass
      else Pending
  }

  ghost predicate TimesMoveOn(samples: seq<HealthSample>) { forall i, j | 0 <= i < j < |samples| :: samples[i].t <= samples[j].t }

  /** All samples from `i` on are up and they span at least `stableMs`. */
  ghost predicate StableFrom(samples: seq<HealthSample>, i: nat, stableMs: int) {
    && i < |samples| && samples[|samples| - 1].t - samples[i].t >= stableMs
    && forall j | i <= j < |samples| :: samples[j].status == Running && !samples[j].restarting
  }

  /** A container that stopped or restarted while it was watched. */
  ghost predicate Broke(samples: seq<HealthSample>) {
    && samples != []
    && ((exists s | s in samples :: s.status == Exited || s.status == Dead)
        || samples[|samples| - 1].restartCount > samples[0].restartCount)
  }

  /** Some sample knows of a health check. */
  ghost predicate IsChecked(samples: seq<HealthSample>) {
    exists s | s in samples :: s.health.Starting? || s.health.Healthy? || s.health.Unhealthy?
  }

  /** The container counts as healthy: it never broke, and its health check says healthy in the end, or without a health
      check it has been up without a break for `stableMs`. */
  ghost predicate IsHealthyRun(samples: seq<HealthSample>, stableMs: int) {
    && samples != [] && !Broke(samples)
    && if IsChecked(samples) then samples[|samples| - 1].health == Healthy else exists i: nat :: StableFrom(samples, i, stableMs)
  }

  /** It counts as failed: it broke, or its health check says unhealthy in the end. */
  ghost predicate IsFailedRun(samples: seq<HealthSample>) {
    samples != [] && (Broke(samples) || samples[|samples| - 1].health == Unhealthy)
  }

  lemma HealthKnown(samples: seq<HealthSample>)
    ensures HasHealthcheck(samples) <==> IsChecked(samples)
  {}

  /** Without a health check, passing means exactly: nothing exited, no restarts, and up without a break for `stableMs`. */
  lemma StabilityPass(samples: seq<HealthSample>, stableMs: int)
    requires TimesMoveOn(samples) && !HasHealthcheck(samples) && samples != []
    ensures EvaluateHealthPoll(samples, stableMs) == Pass <==> !Broke(samples) && exists i: nat :: StableFrom(samples, i, stableMs)
  {
    var u := UpStart(samples);
    if u < |samples| && samples[|samples| - 1].t - samples[u].t >= stableMs {
      assert StableFrom(samples, u, stableMs);
    }
    if exists i: nat :: StableFrom(samples, i, stableMs) {
      var i: nat :| StableFrom(samples, i, stableMs);
      assert u <= i;
      assert samples[u].t <= samples[i].t;
    }
  }

  /** The verdict says exactly whether the samples are those of a healthy container, a failed one, or neither yet. */
  lemma PollTells(samples: seq<HealthSample>, stableMs: int)
    requires TimesMoveOn(samples)
    ensures EvaluateHealthPoll(samples, stableMs) == Pass <==> IsHealthyRun(samples, stableMs)
    ensures EvaluateHealthPoll(samples, stableMs) == Fail <==> IsFailedRun(samples)
  {
    hide StableFrom, TimesMoveOn, UpStart;
    HealthKnown(samples);
    if samples != [] {
      assert samples[|samples| - 1] in samples;
      if !HasHealthcheck(samples) { StabilityPass(samples, stableMs); }
    }
  }

  // ---- The node ----

  class Host {
    var tags: map<Ref, ImageId>
    var running: Option<ImageId>
    var time: int
    /** Every state so far, the current one last. */
    ghost var past: seq<Snapshot>
    /** Every health sample taken, and whether each probe succeeded. */
    ghost var sampled: seq<HealthSample>
    ghost var probed: seq<bool>
    /** How many replies to samples and probes were lost. */
    ghost var lost: nat

    constructor (tags: map<Ref, ImageId>, running: Option<ImageId>)
      ensures this.tags == tags && this.running == running && past == [Now()]
    {
      this.tags, this.running, time := tags, running, 0;
      past, sampled, probed, lost := [Snapshot(tags, running)], [], [], 0;
    }

    ghost function Now(): Snapshot
      reads this
    {
      Snapshot(tags, running)
    }

    method Clock() returns (t: int)
      modifies this`time
      ensures t == time >= old(time)
    {
      var d: int :| d >= 0;
      time := time + d;
      t := time;
    }

    method Sleep(ms: nat)
      modifies this`time
      ensures time >= old(time) + ms
    {
      var d: int :| d >= 0;
      time := time + ms + d;
    }

    /** Pulling can move the pulled ref, whatever the exit. */
    method Pull(ref: Ref) returns (exit: Exit)
      modifies this`tags, this`running, this`past
      ensures running == old(running) && MovesOnly(old(tags), tags, ref)
      ensures past == old(past) + [Now()]
    {
      exit := *;
      var image: ImageId, moved: bool := *, *;
      if moved { tags := tags[ref := image]; }
      past := past + [Now()];
    }

    /** `docker image inspect`: the image a ref names, when it names one. */
    method Inspect(ref: Ref) returns (exit: Exit, id: Option<ImageId>)
      ensures exit == OK && id.Some? ==> ref in tags && tags[ref] == id.value
    {
      exit := *;
      if exit == OK && ref !in tags { exit := Some(1); }
      id := if exit == OK then Some(tags[ref]) else None;
    }

    /** A read that decides nothing but whether the call goes on: the new image's labels, what the hold tag names. */
    method Read() returns (exit: Exit) {
      exit := *;
    }

    /** `docker tag <image> <tag>`; when the reply is lost, it may or may not have happened. */
    method TagImage(image: ImageId, tag: Ref) returns (exit: Exit)
      modifies this`tags, this`running, this`past
      ensures running == old(running) && MovesOnly(old(tags), tags, tag)
      ensures tags == old(tags) || tags == old(tags)[tag := image]
      ensures exit == OK ==> tags == old(tags)[tag := image]
      ensures exit.Some? && exit != OK ==> tags == old(tags)
      ensures past == old(past) + [Now()]
    {
      exit := *;
      var done: bool := *;
      if exit == OK || (exit == None && done) { tags := tags[tag := image]; }
      past := past + [Now()];
    }

    /** `docker tag <source> <tag>` where the source is itself a tag. */
    method Retag(source: Ref, tag: Ref) returns (exit: Exit)
      modifies this`tags, this`running, this`past
      ensures running == old(running) && MovesOnly(old(tags), tags, tag)
      ensures exit == OK ==> source in old(tags) && tags == old(tags)[tag := old(tags)[source]]
      ensures past == old(past) + [Now()]
    {
      exit := *;
      if source !in tags {
        if exit == OK { exit := Some(1); }
      } else {
        var done: bool := *;
        if exit == OK || (exit == None && done) { tags := tags[tag := tags[source]]; }
      }
      past := past + [Now()];
    }

    /** `compose up -d`: on success the container runs what the ref names; otherwise the old container, the new one
        or none is left. Without `--pull never` compose may pull the ref again first. */
    method Up(ref: Ref, pullNever: bool) returns (exit: Exit)
      modifies this`tags, this`running, this`past
      ensures MovesOnly(old(tags), tags, ref) && (pullNever ==> tags == old(tags))
      ensures exit == OK ==> ref in tags && running == Some(tags[ref])
      ensures past == old(past) + [Now()]
    {
      exit := *;
      var image: ImageId, moved: bool := *, *;
      if moved && !pullNever { tags := tags[ref := image]; }
      var left: int := *;
      if ref !in tags {
        if exit == OK { exit := Some(1); }
      }
      if exit == OK || (ref in tags && left == 0) { running := Some(tags[ref]); } else if left == 1 { running := None; }
      past := past + [Now()];
    }

    /** One health sample, when the container could be inspected. */
    method Sample(start: int) returns (exit: Exit, sample: HealthSample)
      modifies this`time, this`sampled, this`lost
      ensures time >= old(time) && sample.t == time - start
      ensures sampled == old(sampled) + if exit == OK then [sample] else []
      ensures lost == old(lost) + if exit == None then 1 else 0
    {
      var t := Clock();
      var status: Status, health: Health, restarts: int, restarting: bool := *, *, *, *;
      exit := *;
      sample := HealthSample(t - start, status, health, restarts, restarting);
      if exit == OK { sampled := sampled + [sample]; }
      if exit == None { lost := lost + 1; }
    }

    /** The caller's HTTP probe. */
    method Probe() returns (exit: Exit, ok: bool)
      modifies this`probed, this`lost
      ensures probed == old(probed) + [exit == OK && ok]
      ensures lost == old(lost) + if exit == None then 1 else 0
    {
      exit := *;
      ok := *;
      probed := probed + [exit == OK && ok];
      if exit == None { lost := lost + 1; }
    }
  }

  ghost predicate MovesOnly(before: map<Ref, ImageId>, after: map<Ref, ImageId>, ref: Ref) {
    forall t: Ref | t != ref :: (t in after <==> t in before) && (t in after ==> after[t] == before[t])
  }

  // ---- The health gate ----

  datatype Gate = Gate(healthTimeoutMs: int, stableMs: int, pollMs: int, probe: bool)

  datatype HealthReport = HealthReport(pass: bool, probeOnly: bool)

  /** What a report says of the samples taken and the probe asked for it. */
  ghost predicate IsReport(report: HealthReport, gate: Gate, samples: seq<HealthSample>, probes: seq<bool>) {
    var healthy := IsHealthyRun(samples, gate.stableMs);
    && (report.pass <==> healthy && probes == if gate.probe then [true] else [])
    && (report.probeOnly <==> healthy && gate.probe && probes == [false])
    && (healthy || probes == [])
  }

  /** The gate was passed on the samples from `n` on and the probes from `m` on. */
  ghost predicate PassedOn(gate: Gate, sampled: seq<HealthSample>, probed: seq<bool>, n: nat, m: nat) {
    && n <= |sampled| && m <= |probed|
    && IsHealthyRun(sampled[n..], gate.stableMs) && probed[m..] == if gate.probe then [true] else []
  }

  /** The last gate was passed. */
  ghost predicate PassedLast(gate: Gate, sampled: seq<HealthSample>, probed: seq<bool>) {
    exists n: nat, m: nat :: PassedOn(gate, sampled, probed, n, m)
  }

  ghost predicate Undecided(samples: seq<HealthSample>, stableMs: int) { !IsHealthyRun(samples, stableMs) && !IsFailedRun(samples) }

  /** No sample was taken after the ones that decide. */
  ghost predicate StopsAtDecision(samples: seq<HealthSample>, stableMs: int) {
    forall k | 0 <= k < |samples| :: Undecided(samples[..k], stableMs)
  }

  lemma PrefixMovesOn(samples: seq<HealthSample>, k: nat)
    requires TimesMoveOn(samples) && k <= |samples|
    ensures TimesMoveOn(samples[..k])
  {}

  /** One more sample after an undecided list, and what the verdict says of the longer one. */
  lemma PollStep(polled: seq<HealthSample>, sample: HealthSample, stableMs: int)
    requires TimesMoveOn(polled + [sample]) && StopsAtDecision(polled, stableMs) && EvaluateHealthPoll(polled, stableMs) == Pending
    ensures StopsAtDecision(polled + [sample], stableMs)
  {
    hide EvaluateHealthPoll, TimesMoveOn, IsHealthyRun, IsFailedRun;
    var more := polled + [sample];
    assert more[..|polled|] == polled;
    PrefixMovesOn(more, |polled|);
    PollTells(polled, stableMs);
    forall k | 0 <= k < |more| ensures Undecided(more[..k], stableMs) {
      if k < |polled| { assert more[..k] == polled[..k]; }
    }
  }

  lemma NothingPolled(stableMs: int)
    ensures EvaluateHealthPoll([], stableMs) == Pending && StopsAtDecision([], stableMs) && TimesMoveOn([])
  {}

  /** Polls until the samples decide or time is up, then asks the probe; None when the transport threw. */
  method HealthGate(host: Host, gate: Gate) returns (report: Option<HealthReport>, ghost samples: seq<HealthSample>)
    requires gate.pollMs > 0
    modifies host`time, host`sampled, host`probed, host`lost
    ensures host.lost >= old(host.lost) && (report == None <==> host.lost > old(host.lost))
    ensures forall k | 0 <= k < |samples| - 1 :: samples[k].t < gate.healthTimeoutMs
    ensures host.time >= old(host.time) && TimesMoveOn(samples) && host.sampled == old(host.sampled) + samples
    ensures old(host.probed) <= host.probed && StopsAtDecision(samples, gate.stableMs)
    ensures report.Some? ==> IsReport(report.value, gate, samples, host.probed[|old(host.probed)|..])
    ensures report.Some? && Undecided(samples, gate.stableMs) ==> host.time - old(host.time) >= gate.healthTimeoutMs
  {
    hide EvaluateHealthPoll, IsHealthyRun, IsFailedRun, StopsAtDecision;
    var start := host.Clock();
    var polled: seq<HealthSample> := [];
    NothingPolled(gate.stableMs);
    var verdict := EvaluateHealthPoll(polled, gate.stableMs);
    while true
      invariant host.time >= start >= old(host.time)
      invariant host.sampled == old(host.sampled) + polled && host.probed == old(host.probed) && host.lost == old(host.lost)
      invariant polled != [] ==> forall s | s in polled :: s.t < gate.healthTimeoutMs
      invariant TimesMoveOn(polled) && forall s | s in polled :: s.t <= host.time - start
      invariant verdict == EvaluateHealthPoll(polled, gate.stableMs) == Pending && StopsAtDecision(polled, gate.stableMs)
      decreases gate.healthTimeoutMs - (host.time - start)
    {
      var exit, sample := host.Sample(start);
      if exit == None { return None, polled; }
      if exit == OK {
        ghost var before := polled;
        polled := polled + [sample];
        PollStep(before, sample, gate.stableMs);
        verdict := EvaluateHealthPoll(polled, gate.stableMs);
      }
      PollTells(polled, gate.stableMs);
      if verdict != Pending { break; }
      var now := host.Clock();
      if now - start >= gate.healthTimeoutMs { return Some(HealthReport(false, false)), polled; }
      host.Sleep(gate.pollMs);
    }
    samples := polled;
    if verdict == Pass && gate.probe {
      var exit, ok := host.Probe();
      if exit == None { return None, samples; }
      if exit != OK || !ok { return Some(HealthReport(false, true)), samples; }
      return Some(HealthReport(true, false)), samples;
    }
    report := Some(HealthReport(verdict == Pass, false));
  }

  // ---- Requests and outcomes ----

  /** The request, with what the preflight reads of the service: whether nothing there refuses the update, the ref the
      compose file names, the hold tag, and whether the container was created from a different ref. */
  datatype Request = Request(
    key: string, confirm: bool, argumentsValid: bool, overrideCircuitBreaker: bool,
    preflightOk: bool, fileRef: Ref, holdTag: Ref, refMismatch: bool)

  datatype Refusal = NotConfirmed | InvalidArguments | BreakerTripped | PreflightFailed

  datatype Outcome =
    AlreadyCurrent | Updated | RolledBack | RollbackOkProbeFailed | RollbackFailed | FailedNeedsFileRevert | PullFailed

  datatype Result = Refused(why: Refusal) | TransportLost | HoldFailed(refRestored: bool) | Done(outcome: Outcome)

  datatype Command = PullCmd | ResolveCmd | InfoCmd | ReadHoldCmd | HoldCmd | RestoreRefCmd | RecreateCmd | RetagCmd | RollbackRecreateCmd

  /** The image is what the container runs or what the hold tag names. */
  predicate Referenced(s: Snapshot, image: ImageId, holdTag: Ref) {
    s.running == Some(image) || (holdTag in s.tags && s.tags[holdTag] == image)
  }

  ghost predicate AlwaysReferenced(states: seq<Snapshot>, image: ImageId, holdTag: Ref) {
    forall s | s in states :: Referenced(s, image, holdTag)
  }

  predicate SameHold(a: Snapshot, b: Snapshot, holdTag: Ref) {
    (holdTag in a.tags <==> holdTag in b.tags) && (holdTag in a.tags ==> a.tags[holdTag] == b.tags[holdTag])
  }

  /** Outcomes that count as one rollback of the service. */
  predicate IsCounted(r: Result) {
    r.Done? && (r.outcome == RolledBack || r.outcome == RollbackFailed || r.outcome == FailedNeedsFileRevert)
  }

  /** What the node looks like at the end, by result, when `image` ran at the start. */
  ghost predicate EndsAs(r: Result, image: ImageId, end: Snapshot, req: Request) {
    var unmoved := end.running == Some(image);
    var refIs := if req.fileRef in end.tags then Some(end.tags[req.fileRef]) else None;
    match r
    case Refused(_) => unmoved
    case TransportLost => true
    case HoldFailed(refRestored) => unmoved && (refRestored ==> refIs == Some(image))
    case Done(PullFailed) => unmoved
    case Done(AlreadyCurrent) => unmoved && !req.refMismatch && refIs == Some(image)
    case Done(Updated) => refIs.Some? && end.running == refIs
    case Done(FailedNeedsFileRevert) => req.refMismatch
    case Done(RollbackFailed) => !req.refMismatch
    case Done(_) => unmoved && !req.refMismatch && refIs == Some(image)
  }

  /** The outcome of a failed gate followed by a rollback. */
  function JudgeRollback(health: HealthReport, rollbackHealth: Option<HealthReport>): Result {
    if rollbackHealth == None then TransportLost
    else if rollbackHealth.value.pass then Done(RolledBack)
    else if health.probeOnly && rollbackHealth.value.probeOnly then Done(RollbackOkProbeFailed)
    else Done(RollbackFailed)
  }

  // ---- Which way a run goes, by the replies to its commands ----

  /** Pull, resolve and read the new image's labels; where nothing changed, read the hold tag. None goes on. */
  predicate PullGoes(cmds: seq<Command>, exits: seq<Exit>, early: Option<Result>) {
    && |cmds| == |exits| && (forall i | 0 <= i < |exits| - 1 && i < 2 :: exits[i] == OK)
    && if cmds == [PullCmd] then exits[0] != OK && early == Some(if exits[0] == None then TransportLost else Done(PullFailed))
       else if cmds == [PullCmd, ResolveCmd] then early == Some(if exits[1] == None then TransportLost else Done(PullFailed))
       else if cmds == [PullCmd, ResolveCmd, InfoCmd] then early == if exits[2] == None then Some(TransportLost) else None
       else
         && cmds == [PullCmd, ResolveCmd, InfoCmd, ReadHoldCmd] && exits[2].Some?
         && early == Some(if exits[3] == None then TransportLost else Done(AlreadyCurrent))
  }

  lemma PullStops(pull: Exit, resolved: Exit)
    ensures pull == None ==> PullGoes([PullCmd], [pull], Some(TransportLost))
    ensures pull.Some? && pull != OK ==> PullGoes([PullCmd], [pull], Some(Done(PullFailed)))
    ensures pull == OK && resolved == None ==> PullGoes([PullCmd, ResolveCmd], [pull, resolved], Some(TransportLost))
    ensures pull == OK && resolved.Some? ==> PullGoes([PullCmd, ResolveCmd], [pull, resolved], Some(Done(PullFailed)))
  {}

  lemma PullReads(info: Exit, held: Exit)
    ensures PullGoes([PullCmd, ResolveCmd, InfoCmd], [OK, OK, info], if info == None then Some(TransportLost) else None)
    ensures info.Some? ==> PullGoes([PullCmd, ResolveCmd, InfoCmd, ReadHoldCmd], [OK, OK, info, held],
                                    Some(if held == None then TransportLost else Done(AlreadyCurrent)))
  {}

  /** Hold, and restore the ref when that fails; None goes on. */
  predicate HoldGoes(cmds: seq<Command>, exits: seq<Exit>, early: Option<Result>) {
    if cmds == [HoldCmd] then
      (exits == [None] && early == Some(TransportLost)) || (exits == [OK] && early == None)
    else
      && cmds == [HoldCmd, RestoreRefCmd] && |exits| == 2 && exits[0].Some? && exits[0] != OK
      && early == Some(if exits[1] == None then TransportLost else HoldFailed(exits[1] == OK))
  }

  predicate StartGoes(cmds: seq<Command>, exits: seq<Exit>, early: Option<Result>) {
    if |cmds| <= 3 || cmds[3] == ReadHoldCmd then early.Some? && PullGoes(cmds, exits, early)
    else |exits| == |cmds| && PullGoes(cmds[..3], exits[..3], None) && HoldGoes(cmds[3..], exits[3..], early)
  }

  /** A recreate and its verdict; no verdict when a reply was lost on the way. */
  predicate JudgeGoes(exit: Exit, health: Option<HealthReport>) {
    if health == None then exit == None || exit == OK
    else exit.Some? && (exit != OK ==> health == Some(HealthReport(false, false)))
  }

  /** What the resolved image decides: none stops the call, the running one under an unchanged ref needs no update, any
      other goes on to the hold. */
  ghost predicate ResolveDecides(req: Request, image: ImageId, cmds: seq<Command>, exits: seq<Exit>, named: Option<ImageId>) {
    && (|cmds| == 2 && |exits| == 2 && exits[1] == OK ==> named == None)
    && (|cmds| >= 3 ==> named.Some?)
    && (|cmds| >= 4 && cmds[3] == ReadHoldCmd ==> named == Some(image) && !req.refMismatch)
    && (|cmds| >= 4 && cmds[3] == HoldCmd ==> named != Some(image) || req.refMismatch)
  }

  lemma StillDecides(
    req: Request, image: ImageId, cmds: seq<Command>, exits: seq<Exit>, named: Option<ImageId>, more: seq<Command>, replies: seq<Exit>
  )
    requires ResolveDecides(req, image, cmds, exits, named) && cmds <= more && |cmds| >= 4
    ensures ResolveDecides(req, image, more, replies, named)
  {}

  lemma HoldDecides(req: Request, image: ImageId, cmds: seq<Command>, exits: seq<Exit>, named: Option<ImageId>)
    requires |cmds| >= 4 && cmds[3] == HoldCmd && named.Some? && (named != Some(image) || req.refMismatch)
    ensures ResolveDecides(req, image, cmds, exits, named)
  {}

  function Verdicts(health: Option<HealthReport>): seq<HealthReport> { if health.Some? then [health.value] else [] }

  /** Re-tag the held image and recreate from it. */
  predicate RollBackGoes(cmds: seq<Command>, exits: seq<Exit>, judged: seq<HealthReport>, health: Option<HealthReport>) {
    if cmds == [RetagCmd] then
      |exits| == 1 && exits[0] != OK && judged == [] && health == if exits[0] == None then None else Some(HealthReport(false, false))
    else
      cmds == [RetagCmd, RollbackRecreateCmd] && |exits| == 2 && exits[0] == OK && JudgeGoes(exits[1], health) && judged == Verdicts(health)
  }

  /** From the recreate on: updated exactly on a passing gate, and a rollback exactly on a failing one whose ref matches. */
  ghost predicate SettleGoes(req: Request, cmds: seq<Command>, exits: seq<Exit>, judged: seq<HealthReport>, result: Result) {
    && |cmds| == |exits| && cmds != [] && cmds[0] == RecreateCmd
    && if |cmds| == 1 then
         (judged == [] && JudgeGoes(exits[0], None) && result == TransportLost)
         || (|judged| == 1 && JudgeGoes(exits[0], Some(judged[0]))
             && if judged[0].pass then result == Done(Updated) else req.refMismatch && result == Done(FailedNeedsFileRevert))
       else
         && !req.refMismatch && judged != [] && !judged[0].pass && JudgeGoes(exits[0], Some(judged[0]))
         && ((RollBackGoes(cmds[1..], exits[1..], judged[1..], None) && result == TransportLost)
             || (exists health :: RollBackGoes(cmds[1..], exits[1..], judged[1..], Some(health)) && result == JudgeRollback(judged[0], Some(health))))
  }

  /** The whole run after the preflight. */
  ghost predicate RunGoes(req: Request, cmds: seq<Command>, exits: seq<Exit>, judged: seq<HealthReport>, result: Result) {
    if |cmds| <= 4 || cmds[4] != RecreateCmd then judged == [] && StartGoes(cmds, exits, Some(result))
    else |exits| == |cmds| && StartGoes(cmds[..4], exits[..4], None) && SettleGoes(req, cmds[4..], exits[4..], judged, result)
  }

  // ---- The runs the node allows ----

  /** One call past the preflight: the image the container runs when it starts, and the node at that moment. */
  datatype Run = Run(req: Request, image: ImageId, start: Snapshot) {
    ghost predicate StartsRunning() { start.running == Some(image) }
  }

  /** The other commands only read. */
  predicate Moves(c: Command) { c.PullCmd? || c.HoldCmd? || c.RestoreRefCmd? || c.RecreateCmd? || c.RetagCmd? || c.RollbackRecreateCmd? }

  /** `tag` is set to `image`, or left alone: by its exit one or the other, and either when the reply is lost. */
  ghost predicate Tags(s: Snapshot, t: Snapshot, tag: Ref, image: ImageId, exit: Exit) {
    && t.running == s.running && (t.tags == s.tags || t.tags == s.tags[tag := image])
    && (exit == OK ==> t.tags == s.tags[tag := image]) && (exit.Some? && exit != OK ==> t.tags == s.tags)
  }

  ghost predicate RunsRef(s: Snapshot, ref: Ref) { ref in s.tags && s.running == Some(s.tags[ref]) }

  /** What the node allows of one command that moves something. */
  ghost predicate Step(run: Run, c: Command, exit: Exit, s: Snapshot, t: Snapshot) {
    var fileRef, holdTag := run.req.fileRef, run.req.holdTag;
    match c
    case PullCmd => t.running == s.running && MovesOnly(s.tags, t.tags, fileRef)
    case HoldCmd => Tags(s, t, holdTag, run.image, exit)
    case RestoreRefCmd => Tags(s, t, fileRef, run.image, exit)
    case RecreateCmd => MovesOnly(s.tags, t.tags, fileRef) && (exit == OK ==> RunsRef(t, fileRef))
    case RetagCmd =>
      && t.running == s.running && MovesOnly(s.tags, t.tags, fileRef)
      && (exit == OK ==> holdTag in s.tags && t.tags == s.tags[fileRef := s.tags[holdTag]])
    case RollbackRecreateCmd => t.tags == s.tags && (exit == OK ==> RunsRef(t, fileRef))
    case _ => t == s
  }

  function Last(start: Snapshot, states: seq<Snapshot>): Snapshot { if states == [] then start else states[|states| - 1] }

  /** `states` are what the node goes through from `run.start`, one for every command that moves something. */
  ghost predicate Allowed(run: Run, cmds: seq<Command>, exits: seq<Exit>, states: seq<Snapshot>)
    decreases |cmds|
  {
    && |cmds| == |exits|
    && if cmds == [] then states == [] else
         var k, n := |cmds| - 1, |states| - 1;
         if !Moves(cmds[k]) then Allowed(run, cmds[..k], exits[..k], states)
         else
           && states != [] && Allowed(run, cmds[..k], exits[..k], states[..n])
           && Step(run, cmds[k], exits[k], Last(run.start, states[..n]), states[n])
  }

  lemma NothingYet(run: Run)
    ensures Allowed(run, [], [], [])
  {}

  lemma MovedOn(run: Run, cmds: seq<Command>, exits: seq<Exit>, states: seq<Snapshot>, c: Command, exit: Exit, next: Snapshot)
    requires Allowed(run, cmds, exits, states) && Moves(c) && Step(run, c, exit, Last(run.start, states), next)
    ensures Allowed(run, cmds + [c], exits + [exit], states + [next]) && Last(run.start, states + [next]) == next
  {
    assert (cmds + [c])[..|cmds|] == cmds && (exits + [exit])[..|cmds|] == exits && (states + [next])[..|states|] == states;
  }

  lemma ReadOn(run: Run, cmds: seq<Command>, exits: seq<Exit>, states: seq<Snapshot>, c: Command, exit: Exit)
    requires Allowed(run, cmds, exits, states) && !Moves(c)
    ensures Allowed(run, cmds + [c], exits + [exit], states)
  {
    assert (cmds + [c])[..|cmds|] == cmds && (exits + [exit])[..|cmds|] == exits;
  }

  // ---- What every such run keeps ----

  ghost predicate HoldUntouched(states: seq<Snapshot>, start: Snapshot, holdTag: Ref) {
    forall s | s in states :: SameHold(s, start, holdTag)
  }

  predicate Recreates(c: Command) { c.RecreateCmd? || c.RollbackRecreateCmd? }

  predicate NoRecreate(cmds: seq<Command>) { forall c | c in cmds :: !Recreates(c) }

  /** The hold command went through. */
  predicate HoldWorked(cmds: seq<Command>, exits: seq<Exit>) {
    exists i :: 0 <= i < |cmds| && i < |exits| && cmds[i] == HoldCmd && exits[i] == OK
  }

  /** Nothing is recreated before the hold command went through. */
  predicate HoldsFirst(cmds: seq<Command>, exits: seq<Exit>) {
    forall k | 0 <= k < |cmds| && k <= |exits| && Recreates(cmds[k]) :: HoldWorked(cmds[..k], exits[..k])
  }

  predicate IsAt(s: Snapshot, tag: Ref, image: ImageId) { tag in s.tags && s.tags[tag] == image }

  lemma HeldBefore(cmds: seq<Command>, exits: seq<Exit>, k: nat)
    requires |cmds| == |exits| && k <= |cmds| && HoldWorked(cmds[..k], exits[..k])
    ensures HoldWorked(cmds, exits)
  {}

  lemma Prefix(cmds: seq<Command>, exits: seq<Exit>, k: nat)
    requires |cmds| == |exits| == k + 1
    ensures HoldsFirst(cmds, exits) ==> HoldsFirst(cmds[..k], exits[..k]) && (Recreates(cmds[k]) ==> HoldWorked(cmds[..k], exits[..k]))
    ensures NoRecreate(cmds) <==> NoRecreate(cmds[..k]) && !Recreates(cmds[k])
    ensures HoldWorked(cmds, exits) <==> HoldWorked(cmds[..k], exits[..k]) || (cmds[k] == HoldCmd && exits[k] == OK)
  {
    hide Recreates;
    assert cmds == cmds[..k] + [cmds[k]];
    if HoldsFirst(cmds, exits) {
      forall i | 0 <= i < k && Recreates(cmds[..k][i]) ensures HoldWorked(cmds[..k][..i], exits[..k][..i]) {
        assert cmds[i] == cmds[..k][i] && cmds[..k][..i] == cmds[..i] && exits[..k][..i] == exits[..i];
      }
    }
    if HoldWorked(cmds, exits) && !(cmds[k] == HoldCmd && exits[k] == OK) {
      var i :| 0 <= i < |cmds| && cmds[i] == HoldCmd && exits[i] == OK;
      assert cmds[..k][i] == HoldCmd && exits[..k][i] == OK;
    }
    if HoldWorked(cmds[..k], exits[..k]) { HeldBefore(cmds, exits, k); }
  }

  /** Only a recreate moves the container, and a hold tag that names the image keeps naming it. */
  lemma StepKeeps(run: Run, c: Command, exit: Exit, s: Snapshot, t: Snapshot)
    requires Step(run, c, exit, s, t) && run.req.fileRef != run.req.holdTag
    ensures !Recreates(c) ==> t.running == s.running
    ensures IsAt(s, run.req.holdTag, run.image) || (c == HoldCmd && exit == OK) ==> IsAt(t, run.req.holdTag, run.image)
    ensures c != HoldCmd || (exit.Some? && exit != OK) ==> SameHold(t, s, run.req.holdTag)
  {}

  /** Until something is recreated the container runs what it ran; from the hold on the tag names the image. */
  lemma {:induction false} RunKeeps(run: Run, cmds: seq<Command>, exits: seq<Exit>, states: seq<Snapshot>)
    requires Allowed(run, cmds, exits, states) && run.StartsRunning() && run.req.fileRef != run.req.holdTag
    ensures NoRecreate(cmds) ==> Last(run.start, states).running == Some(run.image)
    ensures HoldWorked(cmds, exits) ==> IsAt(Last(run.start, states), run.req.holdTag, run.image)
    ensures HoldsFirst(cmds, exits) ==> AlwaysReferenced(states, run.image, run.req.holdTag)
    decreases |cmds|
  {
    hide Step, HoldWorked, HoldsFirst, NoRecreate, IsAt, Recreates;
    if cmds == [] {
      NothingHeld();
    } else {
      var k, n := |cmds| - 1, |states| - 1;
      Prefix(cmds, exits, k);
      if !Moves(cmds[k]) {
        RunKeeps(run, cmds[..k], exits[..k], states);
        ReadsAreNoSteps(cmds[k]);
      } else {
        RunKeeps(run, cmds[..k], exits[..k], states[..n]);
        StepKeeps(run, cmds[k], exits[k], Last(run.start, states[..n]), states[n]);
        assert states == states[..n] + [states[n]];
        if HoldsFirst(cmds, exits) { NextReferenced(run, cmds, exits, states, k, n); }
      }
    }
  }

  lemma NothingHeld()
    ensures !HoldWorked([], []) && NoRecreate([]) && HoldsFirst([], [])
  {}

  lemma ReadsAreNoSteps(c: Command)
    requires !Moves(c)
    ensures !Recreates(c) && c != HoldCmd
  {}

  lemma NextReferenced(run: Run, cmds: seq<Command>, exits: seq<Exit>, states: seq<Snapshot>, k: nat, n: nat)
    requires |cmds| == |exits| == k + 1 && |states| == n + 1 && HoldsFirst(cmds, exits)
    requires AlwaysReferenced(states[..n], run.image, run.req.holdTag)
    requires NoRecreate(cmds[..k]) && !Recreates(cmds[k]) ==> states[n].running == Some(run.image)
    requires HoldWorked(cmds[..k], exits[..k]) ==> IsAt(states[n], run.req.holdTag, run.image)
    ensures AlwaysReferenced(states, run.image, run.req.holdTag)
  {
    hide HoldWorked, Recreates;
    if !(NoRecreate(cmds[..k]) && !Recreates(cmds[k])) {
      Prefix(cmds, exits, k);
      if !Recreates(cmds[k]) {
        var i :| 0 <= i < k && Recreates(cmds[..k][i]);
        HeldBefore(cmds[..k], exits[..k], i);
      }
    }
    assert states == states[..n] + [states[n]];
  }

  /** No hold command, or only one that is known to have failed. */
  predicate NeverHolds(cmds: seq<Command>, exits: seq<Exit>) {
    forall i | 0 <= i < |cmds| && i < |exits| && cmds[i] == HoldCmd :: exits[i].Some? && exits[i] != OK
  }

  /** Then the hold tag does not move. */
  lemma {:induction false} HoldStays(run: Run, cmds: seq<Command>, exits: seq<Exit>, states: seq<Snapshot>)
    requires Allowed(run, cmds, exits, states) && NeverHolds(cmds, exits) && run.req.fileRef != run.req.holdTag
    ensures HoldUntouched(states, run.start, run.req.holdTag) && SameHold(Last(run.start, states), run.start, run.req.holdTag)
    decreases |cmds|
  {
    hide Step;
    if cmds != [] {
      var k, n := |cmds| - 1, |states| - 1;
      assert forall i | 0 <= i < k :: cmds[..k][i] == cmds[i] && exits[..k][i] == exits[i];
      if !Moves(cmds[k]) {
        HoldStays(run, cmds[..k], exits[..k], states);
      } else {
        HoldStays(run, cmds[..k], exits[..k], states[..n]);
        StepKeeps(run, cmds[k], exits[k], Last(run.start, states[..n]), states[n]);
        assert states == states[..n] + [states[n]];
      }
    }
  }

  // ---- The shapes of the handler's runs ----

  /** A run that stops early recreates nothing; one that goes on has held the image by its fourth command. */
  lemma StartShape(cmds: seq<Command>, exits: seq<Exit>, early: Option<Result>)
    requires StartGoes(cmds, exits, early)
    ensures |cmds| == |exits| && NoRecreate(cmds) && cmds != [] && cmds[0] == PullCmd
    ensures early == None ==> |cmds| == 4 && cmds[3] == HoldCmd && exits[3] == OK
    ensures early.Some? ==> |cmds| <= 4 || cmds[4] != RecreateCmd
    ensures early.Some? ==> !early.value.Refused? && !IsCounted(early.value)
  {}

  lemma PullLost(cmds: seq<Command>, exits: seq<Exit>, early: Option<Result>)
    requires PullGoes(cmds, exits, early)
    ensures early == Some(TransportLost) <==> None in exits
  {
    assert exits != [] && exits[|exits| - 1] in exits;
    if |exits| == 4 { assert exits == [exits[0], exits[1], exits[2], exits[3]]; }
  }

  /** An early run ends as lost exactly when a reply was. */
  lemma StartLost(cmds: seq<Command>, exits: seq<Exit>, early: Option<Result>)
    requires StartGoes(cmds, exits, early)
    ensures early == Some(TransportLost) <==> None in exits
  {
    hide PullGoes;
    if |cmds| <= 3 || cmds[3] == ReadHoldCmd {
      PullLost(cmds, exits, early);
    } else {
      PullLost(cmds[..3], exits[..3], None);
      assert exits == exits[..3] + exits[3..];
      if exits[3..] == [None] || exits[3..] == [OK] { assert exits[3] in exits[3..]; } else { assert exits[3..] == [exits[3], exits[4]]; }
    }
  }

  lemma StartHolds(cmds: seq<Command>, exits: seq<Exit>, early: Option<Result>)
    requires StartGoes(cmds, exits, early) && early.Some? && !(early == Some(TransportLost) && cmds[|cmds| - 1] == HoldCmd)
    ensures NeverHolds(cmds, exits)
  {}

  lemma SettleShape(req: Request, cmds: seq<Command>, exits: seq<Exit>, judged: seq<HealthReport>, result: Result)
    requires SettleGoes(req, cmds, exits, judged, result)
    ensures 1 <= |cmds| == |exits| <= 3 && cmds[0] == RecreateCmd && !result.Refused?
  {
    hide JudgeGoes;
  }

  lemma NoRecreateHoldsFirst(cmds: seq<Command>, exits: seq<Exit>)
    requires NoRecreate(cmds)
    ensures HoldsFirst(cmds, exits)
  {
    hide Recreates, HoldWorked;
  }

  lemma FourthHolds(cmds: seq<Command>, exits: seq<Exit>)
    requires |cmds| == |exits| >= 4 && NoRecreate(cmds[..4]) && cmds[3] == HoldCmd && exits[3] == OK
    ensures HoldsFirst(cmds, exits) && HoldWorked(cmds, exits)
  {
    hide Recreates;
    assert forall i | 0 <= i < 4 :: cmds[..4][i] == cmds[i] && cmds[i] in cmds[..4];
    forall k | 0 <= k < |cmds| && Recreates(cmds[k]) ensures HoldWorked(cmds[..k], exits[..k]) {
      assert cmds[..k][3] == HoldCmd && exits[..k][3] == OK;
    }
  }

  lemma RunShape(req: Request, cmds: seq<Command>, exits: seq<Exit>, judged: seq<HealthReport>, result: Result)
    requires RunGoes(req, cmds, exits, judged, result)
    ensures |cmds| == |exits| && cmds != [] && !result.Refused? && HoldsFirst(cmds, exits)
    ensures RecreateCmd in cmds || (result == TransportLost && cmds[|cmds| - 1] == HoldCmd) || NeverHolds(cmds, exits)
  {
    hide StartGoes, SettleGoes, HoldsFirst, HoldWorked, NoRecreate, NeverHolds;
    if |cmds| <= 4 || cmds[4] != RecreateCmd {
      StartShape(cmds, exits, Some(result));
      NoRecreateHoldsFirst(cmds, exits);
      if !(result == TransportLost && cmds[|cmds| - 1] == HoldCmd) { StartHolds(cmds, exits, Some(result)); }
    } else {
      StartShape(cmds[..4], exits[..4], None);
      SettleShape(req, cmds[4..], exits[4..], judged, result);
      FourthHolds(cmds, exits);
    }
  }

  /** The outcome from the verdicts of the gates, past the hold: the first one on the new image, the second on the old. */
  lemma VerdictsDecide(req: Request, cmds: seq<Command>, exits: seq<Exit>, judged: seq<HealthReport>, outcome: Outcome)
    requires SettleGoes(req, cmds, exits, judged, Done(outcome))
    ensures judged != [] && |judged| <= 2
    ensures outcome == Updated <==> judged[0].pass
    ensures outcome == FailedNeedsFileRevert <==> !judged[0].pass && req.refMismatch
    ensures outcome == RolledBack <==> !judged[0].pass && |judged| == 2 && judged[1].pass
    ensures outcome == RollbackOkProbeFailed ==> |judged| == 2 && judged[0].probeOnly && judged[1].probeOnly
    ensures outcome == RollbackFailed ==>
      !judged[0].pass && !req.refMismatch && (|judged| == 2 ==> !judged[1].pass && !(judged[0].probeOnly && judged[1].probeOnly))
    ensures outcome != AlreadyCurrent && outcome != PullFailed
  {
    hide JudgeGoes;
    if |cmds| > 1 {
      var health :| RollBackGoes(cmds[1..], exits[1..], judged[1..], Some(health)) && Done(outcome) == JudgeRollback(judged[0], Some(health));
      assert judged[1..] == [] || judged[1..] == [health];
    }
  }

  // ---- What it comes to ----

  /** In every run of the handler that the node allows, the image stays referenced. */
  ghost predicate HoldIsSafe(req: Request) {
    forall run: Run, cmds, exits, states, judged, result |
      run.req == req && run.StartsRunning() && Allowed(run, cmds, exits, states) && RunGoes(req, cmds, exits, judged, result) ::
      AlwaysReferenced(states, run.image, req.holdTag)
  }

  lemma SafeRun(run: Run, cmds: seq<Command>, exits: seq<Exit>, states: seq<Snapshot>, judged: seq<HealthReport>, result: Result)
    requires run.StartsRunning() && Allowed(run, cmds, exits, states) && RunGoes(run.req, cmds, exits, judged, result)
    requires run.req.fileRef != run.req.holdTag
    ensures AlwaysReferenced(states, run.image, run.req.holdTag)
    ensures !HoldUntouched(states, run.start, run.req.holdTag) ==>
      RecreateCmd in cmds || (result == TransportLost && |cmds| > 0 && cmds[|cmds| - 1] == HoldCmd)
  {
    hide RunGoes, Allowed, HoldWorked, HoldsFirst, NoRecreate, NeverHolds, HoldUntouched, AlwaysReferenced;
    RunShape(run.req, cmds, exits, judged, result);
    RunKeeps(run, cmds, exits, states);
    if NeverHolds(cmds, exits) { HoldStays(run, cmds, exits, states); }
  }

  /** The node before and during a call whose compose file names the hold tag and pulls again on `up`: the pull moves
      the tag to the new image, the hold moves it back, the recreate pulls it again and runs the new image. */
  function RepullStates(tag: Ref, was: ImageId, next: ImageId): (s: seq<Snapshot>)
    ensures |s| == 4
  {
    [Snapshot(map[tag := was], Some(was)), Snapshot(map[tag := next], Some(was)), Snapshot(map[tag := was], Some(was)),
     Snapshot(map[tag := next], Some(next))]
  }

  lemma RepullSteps(req: Request, was: ImageId, next: ImageId)
    requires req.fileRef == req.holdTag
    ensures
      var run, s := Run(req, was, RepullStates(req.holdTag, was, next)[0]), RepullStates(req.holdTag, was, next);
      Step(run, PullCmd, OK, s[0], s[1]) && Step(run, HoldCmd, OK, s[1], s[2]) && Step(run, RecreateCmd, OK, s[2], s[3])
  {
    var r := req.holdTag;
    assert map[r := next][r := was] == map[r := was];
  }

  lemma RepullAllowed(run: Run, s: seq<Snapshot>)
    requires |s| == 4 && run.start == s[0]
    requires Step(run, PullCmd, OK, s[0], s[1]) && Step(run, HoldCmd, OK, s[1], s[2]) && Step(run, RecreateCmd, OK, s[2], s[3])
    ensures Allowed(run, [PullCmd, ResolveCmd, InfoCmd, HoldCmd, RecreateCmd], [OK, OK, OK, OK, OK], s[1..])
  {
    hide Allowed, Step;
    var c: seq<Command>, e: seq<Exit>, t: seq<Snapshot> := [], [], [];
    NothingYet(run);
    MovedOn(run, c, e, t, PullCmd, OK, s[1]);
    c, e, t := c + [PullCmd], e + [OK], t + [s[1]];
    ReadOn(run, c, e, t, ResolveCmd, OK);
    c, e := c + [ResolveCmd], e + [OK];
    ReadOn(run, c, e, t, InfoCmd, OK);
    c, e := c + [InfoCmd], e + [OK];
    MovedOn(run, c, e, t, HoldCmd, OK, s[2]);
    c, e, t := c + [HoldCmd], e + [OK], t + [s[2]];
    MovedOn(run, c, e, t, RecreateCmd, OK, s[3]);
    c, e, t := c + [RecreateCmd], e + [OK], t + [s[3]];
    assert c == [PullCmd, ResolveCmd, InfoCmd, HoldCmd, RecreateCmd] && e == [OK, OK, OK, OK, OK] && t == s[1..];
  }

  /** It passes, is reported as updated, and leaves the old image without a reference. */
  lemma HoldTagExample(req: Request, was: ImageId, next: ImageId)
    requires req.fileRef == req.holdTag && was != next
    ensures
      var s := RepullStates(req.holdTag, was, next);
      && Run(req, was, s[0]).StartsRunning()
      && Allowed(Run(req, was, s[0]), [PullCmd, ResolveCmd, InfoCmd, HoldCmd, RecreateCmd], [OK, OK, OK, OK, OK], s[1..])
      && RunGoes(req, [PullCmd, ResolveCmd, InfoCmd, HoldCmd, RecreateCmd], [OK, OK, OK, OK, OK], [HealthReport(true, false)], Done(Updated))
      && !Referenced(s[3], was, req.holdTag)
  {
    hide Allowed, RunGoes, Step;
    var s := RepullStates(req.holdTag, was, next);
    RepullSteps(req, was, next);
    RepullAllowed(Run(req, was, s[0]), s);
    UpdatedRun(req);
  }

  lemma UpdatedRun(req: Request)
    ensures RunGoes(req, [PullCmd, ResolveCmd, InfoCmd, HoldCmd, RecreateCmd], [OK, OK, OK, OK, OK], [HealthReport(true, false)], Done(Updated))
  {
    var cmds, exits := [PullCmd, ResolveCmd, InfoCmd, HoldCmd, RecreateCmd], [OK, OK, OK, OK, OK];
    assert cmds[..4] == [PullCmd, ResolveCmd, InfoCmd, HoldCmd] && exits[..4] == [OK, OK, OK, OK];
    assert cmds[..4][..3] == [PullCmd, ResolveCmd, InfoCmd] && exits[..4][..3] == [OK, OK, OK];
    assert cmds[4..] == [RecreateCmd] && exits[4..] == [OK];
  }

  /** Main result: the image stays referenced in every run exactly when the compose file does not name the hold tag. */
  lemma HoldIsSafeIff(req: Request)
    ensures HoldIsSafe(req) <==> req.fileRef != req.holdTag
  {
    hide RunGoes, Allowed, Referenced, RepullStates;
    if req.fileRef == req.holdTag {
      HoldTagExample(req, "", "x");
      var s := RepullStates(req.holdTag, "", "x");
      assert s[3] in s[1..] by { assert s[1..][2] == s[3]; }
    } else {
      forall run: Run, cmds, exits, states, judged, result |
        run.req == req && run.StartsRunning() && Allowed(run, cmds, exits, states) && RunGoes(req, cmds, exits, judged, result)
        ensures AlwaysReferenced(states, run.image, req.holdTag)
      {
        SafeRun(run, cmds, exits, states, judged, result);
      }
    }
  }

  // ---- What the node looks like at the end ----

  lemma LastStep(run: Run, cmds: seq<Command>, exits: seq<Exit>, states: seq<Snapshot>)
    requires Allowed(run, cmds, exits, states) && cmds != [] && Moves(cmds[|cmds| - 1])
    ensures |cmds| == |exits| && states != [] && Allowed(run, cmds[..|cmds| - 1], exits[..|cmds| - 1], states[..|states| - 1])
    ensures Step(run, cmds[|cmds| - 1], exits[|cmds| - 1], Last(run.start, states[..|states| - 1]), Last(run.start, states))
  {}

  /** A run that stops early: the hold failed and the ref was put back, when it ended with that. */
  lemma EarlyEndsAs(run: Run, cmds: seq<Command>, exits: seq<Exit>, states: seq<Snapshot>, result: Result)
    requires run.StartsRunning() && Allowed(run, cmds, exits, states) && StartGoes(cmds, exits, Some(result))
    requires run.req.fileRef != run.req.holdTag
    requires result == Done(AlreadyCurrent) ==> !run.req.refMismatch && IsAt(Last(run.start, states), run.req.fileRef, run.image)
    ensures EndsAs(result, run.image, Last(run.start, states), run.req)
  {
    hide Allowed, StartGoes, Step, NoRecreate, HoldWorked, HoldsFirst, AlwaysReferenced, EndsAs;
    StartShape(cmds, exits, Some(result));
    RunKeeps(run, cmds, exits, states);
    EarlyResult(cmds, exits, result);
    if result == HoldFailed(true) {
      LastStep(run, cmds, exits, states);
      RefRestored(run, Last(run.start, states[..|states| - 1]), Last(run.start, states));
    }
    StoppedAs(result, run.image, Last(run.start, states), run.req);
  }

  lemma EarlyResult(cmds: seq<Command>, exits: seq<Exit>, result: Result)
    requires StartGoes(cmds, exits, Some(result))
    ensures result == TransportLost || result == Done(PullFailed) || result == Done(AlreadyCurrent) || result.HoldFailed?
    ensures result == HoldFailed(true) ==> |cmds| == |exits| == 5 && cmds[4] == RestoreRefCmd && exits[4] == OK
  {}

  lemma RefRestored(run: Run, s: Snapshot, t: Snapshot)
    requires Step(run, RestoreRefCmd, OK, s, t)
    ensures IsAt(t, run.req.fileRef, run.image)
  {}

  lemma StoppedAs(r: Result, image: ImageId, end: Snapshot, req: Request)
    requires end.running == Some(image)
    requires r == TransportLost || r == Done(PullFailed) || r == Done(AlreadyCurrent) || r.HoldFailed?
    requires r == Done(AlreadyCurrent) ==> !req.refMismatch && IsAt(end, req.fileRef, image)
    requires r == HoldFailed(true) ==> IsAt(end, req.fileRef, image)
    ensures EndsAs(r, image, end, req)
  {}

  /** A run past its hold, by the number of its commands. */
  lemma SettledResult(req: Request, cmds: seq<Command>, exits: seq<Exit>, judged: seq<HealthReport>, result: Result)
    requires SettleGoes(req, cmds, exits, judged, result)
    ensures result == TransportLost
         || (result == Done(Updated) && |cmds| == |exits| == 1 && cmds[0] == RecreateCmd && exits[0] == OK)
         || (result == Done(FailedNeedsFileRevert) && req.refMismatch) || (result == Done(RollbackFailed) && !req.refMismatch)
         || ((result == Done(RolledBack) || result == Done(RollbackOkProbeFailed)) && !req.refMismatch
             && cmds == [RecreateCmd, RetagCmd, RollbackRecreateCmd] && |exits| == 3 && exits[1] == OK && exits[2] == OK)
  {
    if |cmds| > 1 { assert cmds == [cmds[0]] + cmds[1..]; }
  }

  lemma SettledAs(r: Result, image: ImageId, end: Snapshot, req: Request)
    requires r == TransportLost || (r == Done(FailedNeedsFileRevert) && req.refMismatch) || (r == Done(RollbackFailed) && !req.refMismatch)
          || (r == Done(Updated) && RunsRef(end, req.fileRef))
          || ((r == Done(RolledBack) || r == Done(RollbackOkProbeFailed)) && !req.refMismatch
              && RunsRef(end, req.fileRef) && IsAt(end, req.fileRef, image))
    ensures EndsAs(r, image, end, req)
  {}

  /** The rollback puts the held image back under the ref and runs it. */
  lemma RolledBackTo(run: Run, cmds: seq<Command>, exits: seq<Exit>, states: seq<Snapshot>)
    requires run.StartsRunning() && Allowed(run, cmds, exits, states) && run.req.fileRef != run.req.holdTag
    requires |cmds| == |exits| == 7 && cmds[3..] == [HoldCmd, RecreateCmd, RetagCmd, RollbackRecreateCmd]
    requires exits[3] == OK && exits[5] == OK && exits[6] == OK
    ensures RunsRef(Last(run.start, states), run.req.fileRef) && IsAt(Last(run.start, states), run.req.fileRef, run.image)
  {
    hide Allowed, NoRecreate, HoldWorked, HoldsFirst, AlwaysReferenced, MovesOnly;
    assert cmds[3] == HoldCmd && cmds[5] == RetagCmd && cmds[6] == RollbackRecreateCmd;
    LastStep(run, cmds, exits, states);
    var c, e, s := cmds[..6], exits[..6], states[..|states| - 1];
    LastStep(run, c, e, s);
    assert c[..5] == cmds[..5] && e[..5] == exits[..5];
    HeldByFive(cmds[..5], exits[..5]);
    RunKeeps(run, cmds[..5], exits[..5], s[..|s| - 1]);
  }

  lemma HeldByFive(cmds: seq<Command>, exits: seq<Exit>)
    requires |cmds| == |exits| == 5 && cmds[3] == HoldCmd && exits[3] == OK
    ensures HoldWorked(cmds, exits)
  {}

  /** How the node ends, by result. */
  lemma RunEndsAs(run: Run, cmds: seq<Command>, exits: seq<Exit>, states: seq<Snapshot>, judged: seq<HealthReport>, result: Result)
    requires run.StartsRunning() && Allowed(run, cmds, exits, states) && RunGoes(run.req, cmds, exits, judged, result)
    requires run.req.fileRef != run.req.holdTag
    requires result == Done(AlreadyCurrent) ==> !run.req.refMismatch && IsAt(Last(run.start, states), run.req.fileRef, run.image)
    ensures EndsAs(result, run.image, Last(run.start, states), run.req)
  {
    hide Allowed, StartGoes, SettleGoes, Step, EndsAs, IsAt, RunsRef;
    if |cmds| <= 4 || cmds[4] != RecreateCmd {
      EarlyEndsAs(run, cmds, exits, states, result);
    } else {
      StartShape(cmds[..4], exits[..4], None);
      SettledResult(run.req, cmds[4..], exits[4..], judged, result);
      if result == Done(Updated) {
        LastStep(run, cmds, exits, states);
        RefRuns(run, Last(run.start, states[..|states| - 1]), Last(run.start, states));
      }
      if result == Done(RolledBack) || result == Done(RollbackOkProbeFailed) {
        assert cmds[3..] == [cmds[3]] + cmds[4..];
        RolledBackTo(run, cmds, exits, states);
      }
      SettledAs(result, run.image, Last(run.start, states), run.req);
    }
  }

  lemma RefRuns(run: Run, s: Snapshot, t: Snapshot)
    requires Step(run, RecreateCmd, OK, s, t)
    ensures RunsRef(t, run.req.fileRef)
  {}

  // ---- The handler ----

  class Handler {
    const host: Host
    const breaker: RollbackBreaker?
    const gate: Gate
    /** The commands sent to the node by the current call, the replies to them, and what each recreate was judged. */
    ghost var sent: seq<Command>
    ghost var exits: seq<Exit>
    ghost var judged: seq<HealthReport>
    /** The image the pulled ref was found to name, if any. */
    ghost var named: Option<ImageId>
    /** The states the current call has taken the node through, and those before it. */
    ghost var states: seq<Snapshot>
    ghost var before: seq<Snapshot>

    constructor (host: Host, breaker: RollbackBreaker?, gate: Gate)
      ensures this.host == host && this.breaker == breaker && this.gate == gate
    {
      this.host, this.breaker, this.gate := host, breaker, gate;
      sent, exits, states, judged, before, named := [], [], [], [], [], None;
    }

    ghost predicate Ready()
      reads this, host, breaker
    {
      gate.pollMs > 0 && (breaker != null ==> breaker.Valid() && breaker.NotBefore(host.time))
    }

    /** The call so far is a run the node allows. */
    ghost predicate Follows(run: Run)
      reads this, host
    {
      Allowed(run, sent, exits, states) && Last(run.start, states) == host.Now() && host.past == before + states
    }

    /** The gate on earlier automatic rollbacks: only asks, and only when the call does not override. */
    method AskBreaker(req: Request) returns (tripped: bool)
      requires Ready()
      modifies host`time, breaker
      ensures Ready()
      ensures breaker != null ==>
        if req.overrideCircuitBreaker then breaker.trace == old(breaker.trace) && !tripped
        else
          && breaker.trace == old(breaker.trace) + [Peek(req.key, host.time)]
          && tripped == Judge(breaker.cfg, breaker.trace).tripped
      ensures breaker == null ==> !tripped
    {
      hide Judge, Held, ClockMovesOn;
      if breaker == null || req.overrideCircuitBreaker { return false; }
      var now := host.Clock();
      var verdict := breaker.PeekAttempt(req.key, now);
      tripped := verdict.tripped;
    }

    method RecordRollback(req: Request)
      requires Ready()
      modifies host`time, breaker
      ensures Ready()
      ensures breaker != null ==> breaker.trace == old(breaker.trace) + [Check(req.key, host.time)]
    {
      hide Judge, Held, ClockMovesOn;
      if breaker != null {
        var now := host.Clock();
        var verdict := breaker.CheckAttempt(req.key, now);
      }
    }

    // ---- One command each ----

    method SendPull(ghost run: Run, ref: Ref) returns (exit: Exit)
      requires Follows(run) && ref == run.req.fileRef
      modifies this`sent, this`exits, this`states, host`tags, host`running, host`past
      ensures Follows(run) && sent == old(sent) + [PullCmd] && exits == old(exits) + [exit]
    {
      hide Allowed, MovesOnly;
      exit := host.Pull(ref);
      MovedOn(run, sent, exits, states, PullCmd, exit, host.Now());
      sent, exits, states := sent + [PullCmd], exits + [exit], states + [host.Now()];
    }

    method SendInspect(ghost run: Run, ref: Ref) returns (exit: Exit, id: Option<ImageId>)
      requires Follows(run)
      modifies this`sent, this`exits, this`named
      ensures Follows(run) && sent == old(sent) + [ResolveCmd] && exits == old(exits) + [exit]
      ensures exit == OK && id.Some? ==> IsAt(host.Now(), ref, id.value)
      ensures named == if exit == OK then id else None
    {
      hide Allowed;
      exit, id := host.Inspect(ref);
      named := if exit == OK then id else None;
      ReadOn(run, sent, exits, states, ResolveCmd, exit);
      sent, exits := sent + [ResolveCmd], exits + [exit];
    }

    method SendRead(ghost run: Run, ghost c: Command) returns (exit: Exit)
      requires Follows(run) && !Moves(c)
      modifies this`sent, this`exits
      ensures Follows(run) && sent == old(sent) + [c] && exits == old(exits) + [exit]
    {
      hide Allowed;
      exit := host.Read();
      ReadOn(run, sent, exits, states, c, exit);
      sent, exits := sent + [c], exits + [exit];
    }

    /** Tags the running image as held, or puts the ref back on it. */
    method SendTag(ghost run: Run, image: ImageId, tag: Ref, ghost c: Command) returns (exit: Exit)
      requires Follows(run) && image == run.image
      requires (c == HoldCmd && tag == run.req.holdTag) || (c == RestoreRefCmd && tag == run.req.fileRef)
      modifies this`sent, this`exits, this`states, host`tags, host`running, host`past
      ensures Follows(run) && sent == old(sent) + [c] && exits == old(exits) + [exit]
    {
      hide Allowed, MovesOnly;
      exit := host.TagImage(image, tag);
      MovedOn(run, sent, exits, states, c, exit, host.Now());
      sent, exits, states := sent + [c], exits + [exit], states + [host.Now()];
    }

    method SendRetag(ghost run: Run, req: Request) returns (exit: Exit)
      requires Follows(run) && req == run.req
      modifies this`sent, this`exits, this`states, host`tags, host`running, host`past
      ensures Follows(run) && sent == old(sent) + [RetagCmd] && exits == old(exits) + [exit]
    {
      hide Allowed, MovesOnly;
      exit := host.Retag(req.holdTag, req.fileRef);
      MovedOn(run, sent, exits, states, RetagCmd, exit, host.Now());
      sent, exits, states := sent + [RetagCmd], exits + [exit], states + [host.Now()];
    }

    method SendUp(ghost run: Run, req: Request, rollback: bool) returns (exit: Exit)
      requires Follows(run) && req == run.req
      modifies this`sent, this`exits, this`states, host`tags, host`running, host`past
      ensures Follows(run) && sent == old(sent) + [RecreateOf(rollback)] && exits == old(exits) + [exit]
      ensures exit == OK ==> RunsRef(host.Now(), req.fileRef)
    {
      hide Allowed, MovesOnly;
      exit := host.Up(req.fileRef, rollback);
      MovedOn(run, sent, exits, states, RecreateOf(rollback), exit, host.Now());
      sent, exits, states := sent + [RecreateOf(rollback)], exits + [exit], states + [host.Now()];
    }

    // ---- The steps of a call ----

    /** Pulls the ref and resolves it; None means that something is to change. */
    method Pull(ghost run: Run, req: Request, oldImageId: ImageId) returns (early: Option<Result>)
      requires Follows(run) && req == run.req && sent == [] && exits == [] && named == None
      modifies this`sent, this`exits, this`states, this`named, host`tags, host`running, host`past
      ensures Follows(run) && PullGoes(sent, exits, early) && ResolveDecides(req, oldImageId, sent, exits, named)
      ensures early == None ==> named.Some? && (named != Some(oldImageId) || req.refMismatch)
      ensures named.Some? ==> IsAt(host.Now(), req.fileRef, named.value)
      ensures early == Some(Done(AlreadyCurrent)) ==> !req.refMismatch && IsAt(host.Now(), req.fileRef, oldImageId)
    {
      hide PullGoes, Follows, IsAt;
      var pull := SendPull(run, req.fileRef);
      PullStops(pull, None);
      assert sent == [PullCmd] && exits == [pull];
      if pull == None { return Some(TransportLost); }
      if pull != OK { return Some(Done(PullFailed)); }
      var resolved, id := SendInspect(run, req.fileRef);
      PullStops(pull, resolved);
      assert sent == [PullCmd, ResolveCmd] && exits == [OK, resolved];
      if resolved == None { return Some(TransportLost); }
      if resolved != OK || id == None { return Some(Done(PullFailed)); }
      early := ReadPulled(run, id == Some(oldImageId) && !req.refMismatch);
    }

    /** The reads between the resolve and the hold. */
    method ReadPulled(ghost run: Run, current: bool) returns (early: Option<Result>)
      requires Follows(run) && sent == [PullCmd, ResolveCmd] && exits == [OK, OK]
      modifies this`sent, this`exits
      ensures Follows(run) && PullGoes(sent, exits, early) && |sent| >= 3
      ensures early == None ==> !current
      ensures |sent| >= 4 ==> sent[3] == ReadHoldCmd && current
      ensures early == Some(Done(AlreadyCurrent)) ==> current
    {
      hide PullGoes, Follows;
      var info := SendRead(run, InfoCmd);
      PullReads(info, None);
      assert sent == [PullCmd, ResolveCmd, InfoCmd] && exits == [OK, OK, info];
      if info == None { return Some(TransportLost); }
      if !current { return None; }
      var held := SendRead(run, ReadHoldCmd);
      PullReads(info, held);
      assert sent == [PullCmd, ResolveCmd, InfoCmd, ReadHoldCmd] && exits == [OK, OK, info, held];
      return Some(if held == None then TransportLost else Done(AlreadyCurrent));
    }

    /** Tags the running image, and puts the ref back on it when that fails. */
    method Hold(ghost run: Run, req: Request, oldImageId: ImageId) returns (early: Option<Result>)
      requires Follows(run) && req == run.req && oldImageId == run.image && PullGoes(sent, exits, None)
      modifies this`sent, this`exits, this`states, host`tags, host`running, host`past
      ensures Follows(run) && StartGoes(sent, exits, early)
      ensures |sent| >= 4 && sent[3] == HoldCmd
      ensures early != Some(Done(AlreadyCurrent))
    {
      hide PullGoes, HoldGoes, StartGoes, Follows;
      ghost var cmds, replies := sent, exits;
      PullLength(sent, exits);
      var held := SendTag(run, oldImageId, req.holdTag, HoldCmd);
      HoldStops(cmds, replies, held, None);
      if held == None { return Some(TransportLost); }
      if held == OK { return None; }
      var restored := SendTag(run, oldImageId, req.fileRef, RestoreRefCmd);
      HoldStops(cmds, replies, held, restored);
      assert sent == cmds + [HoldCmd, RestoreRefCmd] && exits == replies + [held, restored];
      return Some(if restored == None then TransportLost else HoldFailed(restored == OK));
    }

    /** Everything up to the recreate. */
    method PullAndHold(ghost run: Run, req: Request, oldImageId: ImageId) returns (early: Option<Result>)
      requires Follows(run) && req == run.req && oldImageId == run.image && sent == [] && exits == [] && named == None
      modifies this`sent, this`exits, this`states, this`named, host`tags, host`running, host`past
      ensures Follows(run) && StartGoes(sent, exits, early) && ResolveDecides(req, oldImageId, sent, exits, named)
      ensures early == Some(Done(AlreadyCurrent)) ==> !req.refMismatch && IsAt(host.Now(), req.fileRef, oldImageId)
    {
      hide PullGoes, StartGoes, Follows, IsAt;
      early := Pull(run, req, oldImageId);
      if early.Some? {
        PulledStops(sent, exits, early);
      } else {
        early := Hold(run, req, oldImageId);
        HoldDecides(req, oldImageId, sent, exits, named);
      }
    }

    /** Recreates the container and judges it; None when the transport threw. */
    method RecreateAndJudge(ghost run: Run, req: Request, rollback: bool) returns (health: Option<HealthReport>, ghost exit: Exit)
      requires Ready() && Follows(run) && req == run.req
      modifies this`sent, this`exits, this`states, this`judged, host
      ensures Ready() && Follows(run)
      ensures sent == old(sent) + [RecreateOf(rollback)] && exits == old(exits) + [exit] && JudgeGoes(exit, health)
      ensures judged == old(judged) + Verdicts(health)
      ensures old(host.sampled) <= host.sampled && old(host.probed) <= host.probed && old(host.lost) <= host.lost
      ensures health == None <==> exit == None || host.lost > old(host.lost)
      ensures health.Some? && exit == OK ==>
        IsReport(health.value, gate, host.sampled[|old(host.sampled)|..], host.probed[|old(host.probed)|..])
      ensures health.Some? && health.value.pass ==> PassedOn(gate, host.sampled, host.probed, |old(host.sampled)|, |old(host.probed)|)
      ensures health.Some? && (health.value.pass || health.value.probeOnly) ==> RunsRef(host.Now(), req.fileRef)
    {
      hide EvaluateHealthPoll, Allowed, IsHealthyRun, StopsAtDecision, TimesMoveOn, Undecided;
      var up := SendUp(run, req, rollback);
      exit := up;
      if up == None { return None, up; }
      if up != OK {
        judged := judged + [HealthReport(false, false)];
        return Some(HealthReport(false, false)), up;
      }
      ghost var samples;
      health, samples := HealthGate(host, gate);
      assert host.sampled[|old(host.sampled)|..] == samples;
      judged := judged + Verdicts(health);
    }

    /** Puts the held image back under the ref and recreates from it. */
    method RollBack(ghost run: Run, req: Request)
      returns (health: Option<HealthReport>, ghost cmds: seq<Command>, ghost replies: seq<Exit>, ghost verdicts: seq<HealthReport>)
      requires Ready() && Follows(run) && req == run.req
      modifies this`sent, this`exits, this`states, this`judged, host
      ensures Ready() && Follows(run)
      ensures sent == old(sent) + cmds && exits == old(exits) + replies && judged == old(judged) + verdicts
      ensures RollBackGoes(cmds, replies, verdicts, health) && old(host.lost) <= host.lost
      ensures health == None <==> None in replies || host.lost > old(host.lost)
      ensures health.Some? && health.value.pass ==> PassedOn(gate, host.sampled, host.probed, |old(host.sampled)|, |old(host.probed)|)
    {
      hide IsReport, EvaluateHealthPoll, PassedOn, JudgeGoes, Verdicts, Follows, RunsRef;
      var retag := SendRetag(run, req);
      cmds, replies, verdicts := [RetagCmd], [retag], [];
      if retag == None { return None, cmds, replies, verdicts; }
      if retag != OK { return Some(HealthReport(false, false)), cmds, replies, verdicts; }
      ghost var up;
      health, up := RecreateAndJudge(run, req, true);
      cmds, replies, verdicts := [RetagCmd, RollbackRecreateCmd], [retag, up], Verdicts(health);
    }

    /** After the hold: recreate, judge, and on failure roll back where the ref still matches. */
    method Settle(ghost run: Run, req: Request) returns (result: Result)
      requires Ready() && Follows(run) && req == run.req && StartGoes(sent, exits, None) && judged == []
      modifies this`sent, this`exits, this`states, this`judged, host, breaker
      ensures Ready() && Follows(run) && RunGoes(req, sent, exits, judged, result) && result != Done(AlreadyCurrent)
      ensures old(sent) <= sent && old(exits) <= exits && (result == TransportLost <==> None in exits || host.lost > old(host.lost))
      ensures result == Done(Updated) ==> PassedOn(gate, host.sampled, host.probed, |old(host.sampled)|, |old(host.probed)|)
      ensures result == Done(RolledBack) ==> PassedLast(gate, host.sampled, host.probed)
      ensures breaker != null ==> breaker.trace == old(breaker.trace) + if IsCounted(result) then [Check(req.key, host.time)] else []
    {
      hide Follows, Ready, IsReport, RollBackGoes, StartGoes, JudgeGoes, RunGoes, RunsRef, PassedOn;
      ghost var cmds, replies, up := sent, exits, OK;
      var health: Option<HealthReport>;
      StartShape(sent, exits, None);
      StartLost(sent, exits, None);
      health, up := RecreateAndJudge(run, req, false);
      SettleEarly(req, cmds, replies, up, health);
      assert judged == Verdicts(health);
      if health == None { return TransportLost; }
      if health.value.pass { return Done(Updated); }
      if req.refMismatch {
        Record(run, req);
        return Done(FailedNeedsFileRevert);
      }
      result := RollBackAndJudge(run, req, health.value, cmds, replies, up);
    }

    /** A failed gate under a ref that still matches: roll back, judge that, and tell the breaker unless only the probe
        failed on both images. */
    method RollBackAndJudge(ghost run: Run, req: Request, health: HealthReport, ghost cmds: seq<Command>, ghost replies: seq<Exit>, ghost up: Exit)
      returns (result: Result)
      requires Ready() && Follows(run) && req == run.req && StartGoes(cmds, replies, None) && JudgeGoes(up, Some(health))
      requires sent == cmds + [RecreateCmd] && exits == replies + [up] && judged == [health] && !health.pass && !req.refMismatch
      modifies this`sent, this`exits, this`states, this`judged, host, breaker
      ensures Ready() && Follows(run) && RunGoes(req, sent, exits, judged, result)
      ensures result == TransportLost || result == Done(RolledBack) || result == Done(RollbackOkProbeFailed) || result == Done(RollbackFailed)
      ensures old(sent) <= sent && old(exits) <= exits
      ensures result == TransportLost <==> None in exits[|old(exits)|..] || host.lost > old(host.lost)
      ensures old(host.lost) <= host.lost
      ensures result == Done(RolledBack) ==> PassedLast(gate, host.sampled, host.probed)
      ensures breaker != null ==> breaker.trace == old(breaker.trace) + if IsCounted(result) then [Check(req.key, host.time)] else []
    {
      hide Follows, Ready, IsReport, RollBackGoes, StartGoes, JudgeGoes, RunGoes, RunsRef, PassedOn;
      ghost var c, e, v;
      var rollbackHealth;
      rollbackHealth, c, e, v := RollBack(run, req);
      SettleRollback(req, cmds, replies, up, health, c, e, v, rollbackHealth);
      assert sent == cmds + ([RecreateCmd] + c) && exits == replies + ([up] + e) && judged == [health] + v;
      assert exits[|old(exits)|..] == e;
      result := JudgeRollback(health, rollbackHealth);
      if IsCounted(result) { Record(run, req); }
    }

    /** Tells the breaker of a rollback, which leaves the node as it is. */
    method Record(ghost run: Run, req: Request)
      requires Ready() && Follows(run)
      modifies host`time, breaker
      ensures Ready() && Follows(run)
      ensures breaker != null ==> breaker.trace == old(breaker.trace) + [Check(req.key, host.time)]
    {
      hide Allowed, Judge, Held, ClockMovesOn;
      RecordRollback(req);
    }

    /** Everything past the preflight. */
    method Change(ghost run: Run, req: Request, oldImageId: ImageId) returns (result: Result)
      requires Ready() && Follows(run) && run == Run(req, oldImageId, host.Now()) && host.running == Some(oldImageId)
      requires sent == [] && exits == [] && judged == [] && named == None
      modifies this`sent, this`exits, this`states, this`judged, this`named, host, breaker
      ensures Ready() && Follows(run) && RunGoes(req, sent, exits, judged, result) && ResolveDecides(req, oldImageId, sent, exits, named)
      ensures result == TransportLost <==> None in exits || host.lost > old(host.lost)
      ensures req.fileRef != req.holdTag ==> EndsAs(result, oldImageId, host.Now(), req)
      ensures result == Done(Updated) ==> PassedOn(gate, host.sampled, host.probed, |old(host.sampled)|, |old(host.probed)|)
      ensures result == Done(RolledBack) ==> PassedLast(gate, host.sampled, host.probed)
      ensures breaker != null ==> breaker.trace == old(breaker.trace) + if IsCounted(result) then [Check(req.key, host.time)] else []
    {
      hide EndsAs, Allowed, StartGoes, RunGoes, IsAt, Held, ClockMovesOn, PassedOn, PassedLast, ResolveDecides;
      var early := PullAndHold(run, req, oldImageId);
      if early.Some? {
        result := early.value;
        StartShape(sent, exits, early);
        EarlyResult(sent, exits, result);
        StartLost(sent, exits, early);
        EarlyRun(req, sent, exits, result);
      } else {
        ghost var cmds, replies := sent, exits;
        StartShape(sent, exits, None);
        result := Settle(run, req);
        StillDecides(req, oldImageId, cmds, replies, named, sent, exits);
      }
      if req.fileRef != req.holdTag { RunEndsAs(run, sent, exits, states, judged, result); }
    }

    /** What is asked before anything changes, in this order: a confirmation, valid arguments, the breaker unless it is
        overridden, and the preflight. */
    method Admit(req: Request) returns (refused: Option<Refusal>, ghost gateTime: int)
      requires Ready()
      modifies host`time, breaker
      ensures Ready()
      ensures refused == Some(NotConfirmed) <==> !req.confirm
      ensures refused == Some(InvalidArguments) <==> req.confirm && !req.argumentsValid
      ensures refused == Some(BreakerTripped) ==> req.confirm && req.argumentsValid && !req.overrideCircuitBreaker && breaker != null
      ensures breaker != null && req.confirm && req.argumentsValid && !req.overrideCircuitBreaker ==>
        (refused == Some(BreakerTripped) <==> Judge(breaker.cfg, old(breaker.trace) + [Peek(req.key, gateTime)]).tripped)
      ensures refused == None || refused == Some(PreflightFailed) ==>
        (refused == None <==> host.running.Some? && req.preflightOk)
      ensures breaker != null ==> breaker.trace == old(breaker.trace) + Peeks(req, gateTime)
    {
      hide Judge, ClockMovesOn, Held;
      gateTime := host.time;
      if !req.confirm { return Some(NotConfirmed), gateTime; }
      if !req.argumentsValid { return Some(InvalidArguments), gateTime; }
      var tripped := AskBreaker(req);
      gateTime := host.time;
      if tripped { return Some(BreakerTripped), gateTime; }
      if host.running == None || !req.preflightOk { return Some(PreflightFailed), gateTime; }
      refused := None;
    }

    /** One call. Whatever step fails or is lost, the run is one the node allows, in which the image that ran at the
        start stays referenced and the hold tag moves only when it goes on to recreate (or loses the reply to that very
        command); the breaker counts the call once exactly for the outcomes that rolled the service back or could
        not. */
    method Update(req: Request) returns (result: Result, ghost gateTime: int)
      requires Ready() && sent == [] && exits == [] && judged == [] && states == [] && named == None
      modifies this, host, breaker
      ensures Ready() && host.past == old(host.past) + states
      ensures !result.Refused? ==>
        && RunGoes(req, sent, exits, judged, result)
        && old(host.running).Some? && ResolveDecides(req, old(host.running).value, sent, exits, named)
        && (result == TransportLost <==> None in exits || host.lost > old(host.lost))
        && Allowed(Run(req, old(host.running).value, old(host.Now())), sent, exits, states)
      ensures req.fileRef != req.holdTag && old(host.running).Some? ==> AlwaysReferenced(states, old(host.running).value, req.holdTag)
      ensures req.fileRef != req.holdTag && !HoldUntouched(states, old(host.Now()), req.holdTag) ==>
        RecreateCmd in sent || (result == TransportLost && |sent| > 0 && sent[|sent| - 1] == HoldCmd)
      ensures req.fileRef != req.holdTag && old(host.running).Some? ==> EndsAs(result, old(host.running).value, host.Now(), req)
      ensures result == Done(Updated) ==> PassedOn(gate, host.sampled, host.probed, |old(host.sampled)|, |old(host.probed)|)
      ensures result == Done(RolledBack) ==> PassedLast(gate, host.sampled, host.probed)
      ensures result == Refused(NotConfirmed) <==> !req.confirm
      ensures result == Refused(InvalidArguments) <==> req.confirm && !req.argumentsValid
      ensures result == Refused(PreflightFailed) || !result.Refused? ==>
        (result.Refused? <==> old(host.running) == None || !req.preflightOk)
      ensures old(host.running) == None ==> result.Refused?
      ensures result.Refused? <==> sent == []
      ensures result.Refused? ==> states == [] && host.Now() == old(host.Now())
      ensures breaker != null ==> TraceGrows(old(breaker.trace), breaker.trace, req, result, gateTime, host.time)
      ensures breaker != null && req.confirm && req.argumentsValid && !req.overrideCircuitBreaker ==>
        (result == Refused(BreakerTripped) <==> Judge(breaker.cfg, old(breaker.trace) + [Peek(req.key, gateTime)]).tripped)
    {
      hide EndsAs, AlwaysReferenced, HoldUntouched, RunGoes, Allowed, Judge, ClockMovesOn, Held, PassedOn, PassedLast, MovesOnly;
      hide TraceGrows, ResolveDecides, Peeks;
      RefusedAs(host.Now(), req);
      var refused;
      refused, gateTime := Admit(req);
      ghost var mid := if breaker != null then breaker.trace else [];
      if refused.Some? {
        if breaker != null { TraceIs(old(breaker.trace), mid, breaker.trace, req, Refused(refused.value), gateTime, host.time); }
        return Refused(refused.value), gateTime;
      }
      ghost var run := Run(req, host.running.value, host.Now());
      before := host.past;
      NothingYet(run);
      ghost var n, m := |host.sampled|, |host.probed|;
      result := Change(run, req, host.running.value);
      assert result == Done(Updated) ==> PassedOn(gate, host.sampled, host.probed, n, m);
      if breaker != null { TraceIs(old(breaker.trace), mid, breaker.trace, req, result, gateTime, host.time); }
      RunShape(req, sent, exits, judged, result);
      if req.fileRef != req.holdTag { SafeRun(run, sent, exits, states, judged, result); }
    }
  }

  function RecreateOf(rollback: bool): Command { if rollback then RollbackRecreateCmd else RecreateCmd }

  /** The calls one update makes of the breaker: a peek unless it is refused earlier or overrides, and a check for a
      counted result. */
  ghost predicate TraceGrows(before: seq<Op>, after: seq<Op>, req: Request, r: Result, gateTime: int, endTime: int) {
    after == before + Peeks(req, gateTime)
      + (if r == Done(RolledBack) || r == Done(RollbackFailed) || r == Done(FailedNeedsFileRevert) then [Check(req.key, endTime)] else [])
  }

  lemma TraceIs(before: seq<Op>, mid: seq<Op>, after: seq<Op>, req: Request, r: Result, gateTime: int, endTime: int)
    requires mid == before + Peeks(req, gateTime) && after == mid + if IsCounted(r) then [Check(req.key, endTime)] else []
    ensures TraceGrows(before, after, req, r, gateTime, endTime)
  {
    hide Peeks;
  }

  function Peeks(req: Request, gateTime: int): seq<Op> {
    if req.confirm && req.argumentsValid && !req.overrideCircuitBreaker then [Peek(req.key, gateTime)] else []
  }

  lemma PulledStops(cmds: seq<Command>, exits: seq<Exit>, early: Option<Result>)
    requires PullGoes(cmds, exits, early) && early.Some?
    ensures StartGoes(cmds, exits, early)
  {}

  lemma PullLength(cmds: seq<Command>, exits: seq<Exit>)
    requires PullGoes(cmds, exits, None)
    ensures |cmds| == |exits| == 3
  {}

  lemma HoldStops(cmds: seq<Command>, exits: seq<Exit>, held: Exit, restored: Exit)
    requires PullGoes(cmds, exits, None)
    ensures held == None ==> StartGoes(cmds + [HoldCmd], exits + [held], Some(TransportLost))
    ensures held == OK ==> StartGoes(cmds + [HoldCmd], exits + [held], None)
    ensures held.Some? && held != OK ==>
      StartGoes(cmds + [HoldCmd, RestoreRefCmd], exits + [held, restored],
                Some(if restored == None then TransportLost else HoldFailed(restored == OK)))
  {
    assert cmds == [PullCmd, ResolveCmd, InfoCmd] && |exits| == 3;
    assert (cmds + [HoldCmd])[..3] == cmds && (exits + [held])[..3] == exits;
    assert (cmds + [HoldCmd])[3..] == [HoldCmd] && (exits + [held])[3..] == [held];
    assert (cmds + [HoldCmd, RestoreRefCmd])[..3] == cmds && (exits + [held, restored])[..3] == exits;
    assert (cmds + [HoldCmd, RestoreRefCmd])[3..] == [HoldCmd, RestoreRefCmd] && (exits + [held, restored])[3..] == [held, restored];
  }

  lemma EarlyRun(req: Request, cmds: seq<Command>, exits: seq<Exit>, result: Result)
    requires StartGoes(cmds, exits, Some(result))
    ensures RunGoes(req, cmds, exits, [], result)
  {
    hide StartGoes;
    StartShape(cmds, exits, Some(result));
  }

  lemma SettledRun(req: Request, cmds: seq<Command>, exits: seq<Exit>, c: seq<Command>, e: seq<Exit>, judged: seq<HealthReport>, result: Result)
    requires StartGoes(cmds, exits, None) && SettleGoes(req, c, e, judged, result)
    ensures RunGoes(req, cmds + c, exits + e, judged, result)
  {
    hide StartGoes, SettleGoes;
    StartShape(cmds, exits, None);
    SettleShape(req, c, e, judged, result);
    assert (cmds + c)[..4] == cmds && (exits + e)[..4] == exits && (cmds + c)[4..] == c && (exits + e)[4..] == e;
  }

  /** A run that ends with the first verdict, or without one. */
  lemma SettleEarly(req: Request, cmds: seq<Command>, exits: seq<Exit>, exit: Exit, health: Option<HealthReport>)
    requires StartGoes(cmds, exits, None) && JudgeGoes(exit, health)
    ensures health == None ==> RunGoes(req, cmds + [RecreateCmd], exits + [exit], Verdicts(health), TransportLost)
    ensures health.Some? && health.value.pass ==> RunGoes(req, cmds + [RecreateCmd], exits + [exit], Verdicts(health), Done(Updated))
    ensures health.Some? && !health.value.pass && req.refMismatch ==>
      RunGoes(req, cmds + [RecreateCmd], exits + [exit], Verdicts(health), Done(FailedNeedsFileRevert))
  {
    hide StartGoes, RunGoes;
    if health == None || health.value.pass || req.refMismatch {
      SettledRun(req, cmds, exits, [RecreateCmd], [exit], Verdicts(health),
        if health == None then TransportLost else if health.value.pass then Done(Updated) else Done(FailedNeedsFileRevert));
    }
  }

  lemma SettleRollback(req: Request, cmds: seq<Command>, exits: seq<Exit>, exit: Exit, health: HealthReport,
                       c: seq<Command>, e: seq<Exit>, judged: seq<HealthReport>, rollbackHealth: Option<HealthReport>)
    requires StartGoes(cmds, exits, None) && JudgeGoes(exit, Some(health)) && !health.pass && !req.refMismatch
    requires RollBackGoes(c, e, judged, rollbackHealth)
    ensures RunGoes(req, cmds + ([RecreateCmd] + c), exits + ([exit] + e), [health] + judged, JudgeRollback(health, rollbackHealth))
  {
    hide StartGoes, RunGoes, JudgeGoes;
    assert ([RecreateCmd] + c)[1..] == c && ([exit] + e)[1..] == e && ([health] + judged)[1..] == judged;
    SettledRun(req, cmds, exits, [RecreateCmd] + c, [exit] + e, [health] + judged, JudgeRollback(health, rollbackHealth));
  }

  /** A refused call leaves everything as it was. */
  lemma RefusedAs(now: Snapshot, req: Request)
    ensures forall image :: AlwaysReferenced([], image, req.holdTag)
    ensures HoldUntouched([], now, req.holdTag)
    ensures now.running.Some? ==> forall why :: EndsAs(Refused(why), now.running.value, now, req)
  {}
}
