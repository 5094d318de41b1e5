/** Which drifted leaves a batch may fold (src/integrity/acceptPolicy.ts). */
module AcceptPolicy {
  import opened Options
  import opened Globs

  datatype AcceptPolicyConfig = AcceptPolicyConfig(
    maxUnexplainedL3: int,
    allowL2AutoAccept: bool,
    sensitiveGlobs: seq<string>
  )

  datatype LeafDrift = LeafDrift(
    path: string,
    nodePath: string,
    explained: bool,
    explainedBy: Option<string>,
    l1: bool,
    l2: bool,
    l3: bool
  )

  datatype Decision = Fold | Flag

  datatype Reason = Explained | Sensitive | L2Config | L3Tail | L3OverThreshold | L1Only | NoDrift

  datatype PolicyOutcome = PolicyOutcome(path: string, decision: Decision, reason: Reason, explainedBy: Option<string>)

  /** `g.replace(/\/+$/, "")`. */
  function TrimSlashes(g: string): string {
    if g != "" && g[|g| - 1] == '/' then TrimSlashes(g[..|g| - 1]) else g
  }

  /** One entry catches a path: a wildcard entry by its expression, a plain one as a subtree. */
  predicate CaughtBy(g: string, nodePath: string) {
    if '*' in g || '?' in g then Test(g, nodePath)
    else nodePath == TrimSlashes(g) || TrimSlashes(g) + "/" <= nodePath
  }

  predicate IsSensitive(nodePath: string, globs: seq<string>) { exists g | g in globs :: CaughtBy(g, nodePath) }

  method IsSensitivePath(nodePath: string, globs: seq<string>) returns (r: bool)
    ensures r == IsSensitive(nodePath, globs)
  {
    for i := 0 to |globs|
      invariant forall j | 0 <= j < i :: !CaughtBy(globs[j], nodePath)
    {
      if CaughtBy(globs[i], nodePath) { return true; }
    }
    r := false;
  }

  /** `decide`: the outcome, and whether a unit of the L3 budget was taken. */
  method Decide(d: LeafDrift, cfg: AcceptPolicyConfig, budgetLeft: bool) returns (o: PolicyOutcome, taken: bool)
    ensures o == Verdict(d, cfg, budgetLeft)
    ensures taken == (CountsAgainstBudget(d, cfg) && budgetLeft)
  {
    taken := false;
    if !d.l1 && !d.l2 && !d.l3 { o := PolicyOutcome(d.path, Flag, NoDrift, None); return; }
    if d.explained { o := PolicyOutcome(d.path, Fold, Explained, d.explainedBy); return; }
    var sensitive := IsSensitivePath(d.nodePath, cfg.sensitiveGlobs);
    if sensitive { o := PolicyOutcome(d.path, Flag, Sensitive, None); return; }
    if d.l2 { o := PolicyOutcome(d.path, if cfg.allowL2AutoAccept then Fold else Flag, L2Config, None); return; }
    if d.l3 {
      taken := budgetLeft;
      o := if budgetLeft then PolicyOutcome(d.path, Fold, L3Tail, None) else PolicyOutcome(d.path, Flag, L3OverThreshold, None);
      return;
    }
    o := PolicyOutcome(d.path, Fold, L1Only, None);
  }

  method ApplyAcceptPolicy(drifts: seq<LeafDrift>, cfg: AcceptPolicyConfig) returns (out: seq<PolicyOutcome>)
    ensures |out| == |drifts|
    ensures forall i | 0 <= i < |drifts| ::
      out[i] == Verdict(drifts[i], cfg, BudgetDemand(drifts[..i], cfg) < cfg.maxUnexplainedL3)
  {
    hide Verdict, CountsAgainstBudget, IsSensitive, BudgetDemand;
    var l3Budget := cfg.maxUnexplainedL3;
    out := [];
    NoDemand(cfg);
    assert drifts[..0] == [];
    for i := 0 to |drifts|
      invariant |out| == i
      invariant l3Budget == if cfg.maxUnexplainedL3 <= 0 then cfg.maxUnexplainedL3
                            else Max(0, cfg.maxUnexplainedL3 - BudgetDemand(drifts[..i], cfg))
      invariant forall j | 0 <= j < i ::
        out[j] == Verdict(drifts[j], cfg, BudgetDemand(drifts[..j], cfg) < cfg.maxUnexplainedL3)
    {
      BudgetStep(drifts, i, cfg);
      var o, taken := Decide(drifts[i], cfg, l3Budget > 0);
      if taken { l3Budget := l3Budget - 1; }
      out := out + [o];
    }
  }

  function Max(x: int, y: int): int { if x > y then x else y }

  // ---- What the policy promises ----

  /** Unexplained content drift outside the config files and the protected paths. */
  predicate CountsAgainstBudget(d: LeafDrift, cfg: AcceptPolicyConfig) {
    d.l3 && !d.l2 && !d.explained && !IsSensitive(d.nodePath, cfg.sensitiveGlobs)
  }

  /** How many leaves of a batch ask for budget. */
  function BudgetDemand(drifts: seq<LeafDrift>, cfg: AcceptPolicyConfig): nat {
    if drifts == [] then 0
    else BudgetDemand(drifts[..|drifts| - 1], cfg) + if CountsAgainstBudget(drifts[|drifts| - 1], cfg) then 1 else 0
  }

  /** The outcome for one leaf, given whether budget is left when its turn comes. */
  function Verdict(d: LeafDrift, cfg: AcceptPolicyConfig, budgetLeft: bool): PolicyOutcome {
    var reason :=
      if !d.l1 && !d.l2 && !d.l3 then NoDrift
      else if d.explained then Explained
      else if IsSensitive(d.nodePath, cfg.sensitiveGlobs) then Sensitive
      else if d.l2 then L2Config
      else if d.l3 then (if budgetLeft then L3Tail else L3OverThreshold)
      else L1Only;
    PolicyOutcome(d.path,
      if reason == Explained || reason == L3Tail || reason == L1Only || (reason == L2Config && cfg.allowL2AutoAccept) then Fold else Flag,
      reason, if reason == Explained then d.explainedBy else None)
  }

  /** The outcomes of a whole batch. */
  ghost predicate IsPolicyFor(drifts: seq<LeafDrift>, cfg: AcceptPolicyConfig, out: seq<PolicyOutcome>) {
    |out| == |drifts| && forall i | 0 <= i < |drifts| ::
      out[i] == Verdict(drifts[i], cfg, BudgetDemand(drifts[..i], cfg) < cfg.maxUnexplainedL3)
  }

  /** How many leaves that ask for budget are folded. */
  function BudgetFolds(drifts: seq<LeafDrift>, cfg: AcceptPolicyConfig, out: seq<PolicyOutcome>): nat
    requires |out| == |drifts|
  {
    if out == [] then 0 else
      var n := |out| - 1;
      BudgetFolds(drifts[..n], cfg, out[..n]) + if CountsAgainstBudget(drifts[n], cfg) && out[n].decision == Fold then 1 else 0
  }

  lemma BudgetFoldsStep(drifts: seq<LeafDrift>, cfg: AcceptPolicyConfig, out: seq<PolicyOutcome>, i: nat)
    requires |out| == |drifts| && i < |out|
    ensures BudgetFolds(drifts[..i + 1], cfg, out[..i + 1])
         == BudgetFolds(drifts[..i], cfg, out[..i]) + if CountsAgainstBudget(drifts[i], cfg) && out[i].decision == Fold then 1 else 0
  {
    assert out[..i + 1][..i] == out[..i] && drifts[..i + 1][..i] == drifts[..i];
  }

  /** A demand cut down to a budget; a negative budget is none. */
  function Capped(demand: nat, budget: int): nat { if budget <= 0 then 0 else if demand < budget then demand else budget }

  lemma {:induction false} TailOfPrefix(drifts: seq<LeafDrift>, cfg: AcceptPolicyConfig, out: seq<PolicyOutcome>, n: nat)
    requires IsPolicyFor(drifts, cfg, out) && n <= |out|
    ensures BudgetFolds(drifts[..n], cfg, out[..n]) == Capped(BudgetDemand(drifts[..n], cfg), cfg.maxUnexplainedL3)
  {
    hide IsSensitive, Verdict, BudgetDemand, BudgetFolds;
    if n == 0 {
      NoDemand(cfg);
      NoTail(cfg);
      assert drifts[..0] == [] && out[..0] == [];
    } else {
      TailOfPrefix(drifts, cfg, out, n - 1);
      BudgetFoldsStep(drifts, cfg, out, n - 1);
      BudgetStep(drifts, n - 1, cfg);
      if CountsAgainstBudget(drifts[n - 1], cfg) { PolicyByCase(drifts, cfg, out, n - 1); }
    }
  }

  lemma NoTail(cfg: AcceptPolicyConfig)
    ensures BudgetFolds([], cfg, []) == 0
  {}

  /** The batch folds as many unexplained content leaves as the budget allows and no more. */
  lemma TailIsCappedDemand(drifts: seq<LeafDrift>, cfg: AcceptPolicyConfig, out: seq<PolicyOutcome>)
    requires IsPolicyFor(drifts, cfg, out)
    ensures BudgetFolds(drifts, cfg, out) == Capped(BudgetDemand(drifts, cfg), cfg.maxUnexplainedL3)
  {
    hide Verdict, BudgetDemand, BudgetFolds;
    TailOfPrefix(drifts, cfg, out, |out|);
    assert out[..|out|] == out && drifts[..|out|] == drifts;
  }

  lemma NoDemand(cfg: AcceptPolicyConfig)
    ensures BudgetDemand([], cfg) == 0
  {}

  lemma BudgetStep(drifts: seq<LeafDrift>, i: nat, cfg: AcceptPolicyConfig)
    requires i < |drifts|
    ensures BudgetDemand(drifts[..i + 1], cfg)
         == BudgetDemand(drifts[..i], cfg) + if CountsAgainstBudget(drifts[i], cfg) then 1 else 0
  {
    assert drifts[..i + 1][..i] == drifts[..i];
  }

  /** An unexplained leaf on a protected path is never folded, at any level or budget; an explained one
      that drifted always is. */
  lemma PolicyFence(drifts: seq<LeafDrift>, cfg: AcceptPolicyConfig, out: seq<PolicyOutcome>, i: nat)
    requires IsPolicyFor(drifts, cfg, out) && i < |drifts|
    ensures out[i].decision == Fold ==> drifts[i].explained || !IsSensitive(drifts[i].nodePath, cfg.sensitiveGlobs)
    ensures out[i].decision == Fold && drifts[i].l2 && !drifts[i].explained ==> cfg.allowL2AutoAccept
    ensures drifts[i].explained && (drifts[i].l1 || drifts[i].l2 || drifts[i].l3) ==> out[i].decision == Fold
  {}

  /** The unexplained leaves outside the protected paths, by level: content folds first come first served, config files
      only when allowed, moved times always; what did not drift never. */
  lemma PolicyByCase(drifts: seq<LeafDrift>, cfg: AcceptPolicyConfig, out: seq<PolicyOutcome>, i: nat)
    requires IsPolicyFor(drifts, cfg, out) && i < |drifts|
    ensures out[i].path == drifts[i].path && out[i].explainedBy == if out[i].reason == Explained then drifts[i].explainedBy else None
    ensures !drifts[i].l1 && !drifts[i].l2 && !drifts[i].l3 ==> out[i].decision == Flag
    ensures !drifts[i].explained && !IsSensitive(drifts[i].nodePath, cfg.sensitiveGlobs) ==>
      && (drifts[i].l2 ==> (out[i].decision == Fold <==> cfg.allowL2AutoAccept))
      && (drifts[i].l3 && !drifts[i].l2 ==> (out[i].decision == Fold <==> BudgetDemand(drifts[..i], cfg) < cfg.maxUnexplainedL3))
      && (drifts[i].l1 && !drifts[i].l2 && !drifts[i].l3 ==> out[i].decision == Fold)
  {
    hide IsSensitive, BudgetDemand;
  }

  /** The reason on record tells the cases apart. */
  lemma ReasonTells(drifts: seq<LeafDrift>, cfg: AcceptPolicyConfig, out: seq<PolicyOutcome>, i: nat)
    requires IsPolicyFor(drifts, cfg, out) && i < |drifts|
    ensures out[i].reason == NoDrift <==> !(drifts[i].l1 || drifts[i].l2 || drifts[i].l3)
    ensures out[i].reason == Explained <==> drifts[i].explained && (drifts[i].l1 || drifts[i].l2 || drifts[i].l3)
    ensures out[i].reason == Sensitive ==> !drifts[i].explained && IsSensitive(drifts[i].nodePath, cfg.sensitiveGlobs)
    ensures out[i].reason == L2Config ==> drifts[i].l2
    ensures out[i].reason == L3Tail <==> AsksForBudget(drifts[i], cfg) && out[i].decision == Fold
    ensures out[i].reason == L3OverThreshold <==> AsksForBudget(drifts[i], cfg) && out[i].decision == Flag
    ensures out[i].reason == L1Only ==> drifts[i].l1 && !drifts[i].l2 && !drifts[i].l3
  {
    hide IsSensitive, BudgetDemand, AsksForBudget;
    Asks(drifts[i], cfg);
  }

  /** The demand before a leaf is the number of earlier leaves with unexplained content drift that is neither a config
      file nor protected. */
  lemma {:induction false} DemandCounts(drifts: seq<LeafDrift>, cfg: AcceptPolicyConfig)
    ensures BudgetDemand(drifts, cfg) == |set i | 0 <= i < |drifts| && AsksForBudget(drifts[i], cfg)|
  {
    hide AsksForBudget, CountsAgainstBudget;
    if drifts == [] {
      NoDemand(cfg);
    } else {
      var n := |drifts| - 1;
      DemandCounts(drifts[..n], cfg);
      assert drifts[..n + 1] == drifts;
      BudgetStep(drifts, n, cfg);
      Asks(drifts[n], cfg);
      hide BudgetDemand;
      var before := set i | 0 <= i < |drifts[..n]| && AsksForBudget(drifts[..n][i], cfg);
      var all := set i | 0 <= i < |drifts| && AsksForBudget(drifts[i], cfg);
      assert all == before + if AsksForBudget(drifts[n], cfg) then {n} else {};
    }
  }

  /** Unexplained content drift, neither of a config file nor caught by a protected entry. */
  predicate AsksForBudget(d: LeafDrift, cfg: AcceptPolicyConfig) {
    d.l3 && !(d.l2 || d.explained) && forall g | g in cfg.sensitiveGlobs :: !CaughtBy(g, d.nodePath)
  }

  lemma Asks(d: LeafDrift, cfg: AcceptPolicyConfig)
    ensures AsksForBudget(d, cfg) <==> CountsAgainstBudget(d, cfg)
  {
    hide CaughtBy;
  }

  // ---- What a fold accepts besides its own path ----

  /** `x` is `p` or lies below it: what the hash of an added `p` covers. */
  predicate Under(p: string, x: string) { x == p || (if p == "/" then "/" <= x else p + "/" <= x) }

  lemma PrefixesChain(p: string, q: string, x: string)
    requires p <= x && q <= x && |p| <= |q|
    ensures p <= q
  {}

  /** The length of an entry without the slashes at its end. */
  predicate BaseLength(g: string, n: nat) { n <= |g| && (forall i | n <= i < |g| :: g[i] == '/') && (n > 0 ==> g[n - 1] != '/') }

  lemma {:induction false} TrimmedAt(g: string, n: nat)
    requires BaseLength(g, n)
    ensures TrimSlashes(g) == g[..n]
    decreases |g|
  {
    if |g| == n {
      assert g == g[..n];
    } else {
      assert g[..|g| - 1][..n] == g[..n];
      TrimmedAt(g[..|g| - 1], n);
    }
  }

  /** A plain entry catches its own path and what lies below it, on a slash boundary: `/etc/pve` not `/etc/pvexyz`. */
  lemma PlainEntryIff(g: string, n: nat, x: string)
    requires '*' !in g && '?' !in g && BaseLength(g, n)
    ensures IsSensitive(x, [g]) <==> n <= |x| && x[..n] == g[..n] && (|x| == n || x[n] == '/')
  {
    hide TrimSlashes;
    TrimmedAt(g, n);
    OneEntry(g, x, [g]);
    if n <= |x| && x[..n] == g[..n] && |x| > n && x[n] == '/' { assert x[..n + 1] == g[..n] + "/"; }
    if g[..n] + "/" <= x { assert (g[..n] + "/")[..n] == x[..n] && (g[..n] + "/")[n] == x[n]; }
    if |x| == n { assert x[..n] == x; }
  }

  /** What every path below `p` starts with. */
  function Top(p: string): string { if p == "/" then "/" else p + "/" }

  lemma PlainFenceBelow(g: string, p: string)
    requires '*' !in g && '?' !in g
    ensures (exists x :: Under(p, x) && CaughtBy(g, x)) <==> CaughtBy(g, p) || Under(p, TrimSlashes(g))
  {
    hide TrimSlashes;
    var base := TrimSlashes(g);
    assert CaughtBy(g, base) && Under(p, p);
    if x :| Under(p, x) && CaughtBy(g, x) && x != p && x != base {
      if |Top(p)| <= |base| {
        PrefixesChain(Top(p), base, x);
      } else {
        PrefixesChain(base + "/", Top(p), x);
        if p != "/" && |base| < |p| {
          assert (p + "/")[..|base| + 1] == p[..|base| + 1];
        }
      }
    }
  }

  lemma WildFenceBelow(g: string, p: string)
    requires '*' in g || '?' in g
    ensures (exists x :: Under(p, x) && CaughtBy(g, x)) <==> CaughtBy(g, p) || Starts(g, Top(p))
  {
    hide Test, Starts;
    StartsIff(g, Top(p));
    assert Under(p, p);
    if x :| Under(p, x) && CaughtBy(g, x) && x != p {
      assert x == Top(p) + x[|Top(p)|..];
      assert Test(g, Top(p) + x[|Top(p)|..]);
    }
    if y :| Test(g, Top(p) + y) { assert Under(p, Top(p) + y) && CaughtBy(g, Top(p) + y); }
  }

  /** The entry catches `p`, lies below it, or is a wildcard that can be continued from `p` and a slash. */
  predicate GuardsBelow(g: string, p: string) {
    CaughtBy(g, p) || if '*' in g || '?' in g then Starts(g, Top(p)) else Under(p, TrimSlashes(g))
  }

  /** Something at or below `p` is protected exactly when an entry guards it in one of these ways. The policy asks
      only whether one catches `p`, so an added directory is folded with the protected files in it. */
  lemma FenceBelow(globs: seq<string>, p: string)
    ensures (exists x :: Under(p, x) && IsSensitive(x, globs)) <==> exists g | g in globs :: GuardsBelow(g, p)
  {
    hide Test, Starts, TrimSlashes, Under, CaughtBy;
    forall g | g in globs ensures (exists x :: Under(p, x) && CaughtBy(g, x)) <==> GuardsBelow(g, p) {
      if '*' in g || '?' in g { WildFenceBelow(g, p); } else { PlainFenceBelow(g, p); }
    }
    if x :| Under(p, x) && IsSensitive(x, globs) {
      var g :| g in globs && CaughtBy(g, x);
      assert GuardsBelow(g, p);
    }
    if g :| g in globs && GuardsBelow(g, p) {
      var x :| Under(p, x) && CaughtBy(g, x);
      assert IsSensitive(x, globs);
    }
  }

  lemma FenceBelowExample(cfg: AcceptPolicyConfig)
    requires cfg.sensitiveGlobs == ["/etc/pve"]
    ensures IsSensitive("/etc/pve/user.cfg", cfg.sensitiveGlobs) && Under("/etc", "/etc/pve/user.cfg")
    ensures Verdict(LeafDrift("host/etc", "/etc", false, None, true, false, true), cfg, true).decision == Fold
  {
    hide *;
    PlainEntryCatches("/etc/pve", "user.cfg", "/etc/pve/user.cfg");
    PlainEntrySpares("/etc/pve", "/etc");
    assert "/etc/pve" in cfg.sensitiveGlobs;
    OneEntry("/etc/pve", "/etc/pve/user.cfg", cfg.sensitiveGlobs);
    OneEntry("/etc/pve", "/etc", cfg.sensitiveGlobs);
    BelowIsUnder("/etc", "pve/user.cfg", "/etc/pve/user.cfg");
    TailFolded(LeafDrift("host/etc", "/etc", false, None, true, false, true), cfg);
  }

  lemma PlainEntryCatches(g: string, name: string, x: string)
    requires '*' !in g && '?' !in g && g != "" && g[|g| - 1] != '/' && x == g + "/" + name
    ensures CaughtBy(g, x)
  {}

  lemma PlainEntrySpares(g: string, x: string)
    requires '*' !in g && '?' !in g && g != "" && g[|g| - 1] != '/' && |x| < |g|
    ensures !CaughtBy(g, x)
  {}

  lemma OneEntry(g: string, x: string, globs: seq<string>)
    requires globs == [g]
    ensures IsSensitive(x, globs) <==> CaughtBy(g, x)
  {
    hide CaughtBy;
    assert g in globs;
  }

  lemma BelowIsUnder(p: string, rest: string, x: string)
    requires p != "/" && x == p + "/" + rest
    ensures Under(p, x)
  {}

  lemma TailFolded(d: LeafDrift, cfg: AcceptPolicyConfig)
    requires d.l3 && !d.l2 && !d.explained && !IsSensitive(d.nodePath, cfg.sensitiveGlobs)
    ensures Verdict(d, cfg, true).decision == Fold
  {
    hide IsSensitive;
  }
}
