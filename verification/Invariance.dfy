/** What the gate can and cannot tell apart about the encoding of its evidence. */
module Invariance {
  import opened Common
  import opened Model
  import opened Validation
  import opened Encoding
  import opened Gate
  import opened GateLaws
  import opened AllowConsequences
  import opened Prepare
  import opened Relation
  import opened ChainWalk
  import Endpoint
  import StrictChain

  ghost predicate Delivers(rep: Representation, env: Environment, t: Trace, book: Receiptbook, ms: set<Message>) {
    if rep == PR then DeliversReceipts(env, t, book, ms) else DeliversRecords(rep, env, t, ms)
  }

  lemma DeliveriesAgree(env: Environment, t: Trace, book: Receiptbook,
                        rep: Representation, ms: set<Message>, rep': Representation, ms': set<Message>)
    requires Wellformed(t, env) && Delivers(rep, env, t, book, ms) && Delivers(rep', env, t, book, ms')
    ensures ViewsOf(rep, env, ms) == ViewsOf(rep', env, ms') && IssuesOf(rep, env, ms) == IssuesOf(rep', env, ms')
  {
    if rep == PR {
      ReceiptsPreserveMeaning(env, t, book, ms);
    } else {
      RecordsPreserveMeaning(rep, env, t, ms);
    }
    if rep' == PR {
      ReceiptsPreserveMeaning(env, t, book, ms');
    } else {
      RecordsPreserveMeaning(rep', env, t, ms');
    }
  }

  /** Two local views of one verifier at one instant, with the same status evidence. */
  ghost predicate SameButForHandoffs(reg: Registries, v: LocalView, v': LocalView) {
    && v' == v.(messages := v'.messages)
    && StatusesIn(reg, Elems(v.messages)) == StatusesIn(reg, Elems(v'.messages))
    && (BadStatus(reg, Elems(v.messages)) <==> BadStatus(reg, Elems(v'.messages)))
  }

  /**
   Whichever of the three encodings carries a trace, the gate reaches the same verdict: the same
   grant, or a pause for the same reasons, whatever the permit stores held when they were read.
   */
  lemma EquivalentEvidence(t: Trace, book: Receiptbook, reg: Registries, snap: Snapshot, snap': Snapshot,
                           rep: Representation, v: LocalView, input: Input,
                           rep': Representation, v': LocalView, input': Input,
                           cfg: Config, a: Action, tool: Id)
    requires var env := reg.EnvironmentAt(v.decisionTime);
      Wellformed(t, env) && Delivers(rep, env, t, book, Elems(v.messages)) && Delivers(rep', env, t, book, Elems(v'.messages))
    requires SameButForHandoffs(reg, v, v')
    requires IsPrepared(v, rep, reg, snap, input) && IsPrepared(v', rep', reg, snap', input')
    ensures Verdict(cfg, input, a, tool) == Verdict(cfg, input', a, tool)
  {
    var env := reg.EnvironmentAt(v.decisionTime);
    DeliveriesAgree(env, t, book, rep, Elems(v.messages), rep', Elems(v'.messages));
    SameFactsSameVerdict(cfg, input, input', a, tool);
  }

  // ---------- where the encodings do differ ----------

  /** In SL and CR: a record of the interaction is in view, but none from the endpoint of this role. */
  ghost predicate OneSided(rep: Representation, env: Environment, ms: set<Message>, i: Id, absent: Role) {
    var rs := Endpoint.Records(rep, env, InProfile(rep, ms));
    rep != PR && i in Endpoint.Interactions(rs) && Endpoint.HeldBy(rs, absent, i) == {}
  }

  lemma OneSidedIsReported(rep: Representation, env: Environment, ms: set<Message>, i: Id, absent: Role)
    requires OneSided(rep, env, ms, i, absent)
    ensures exists code :: Issue(code, Some(i)) in IssuesOf(rep, env, ms)
    ensures forall v | v in ViewsOf(rep, env, ms) :: v.handoff.interaction != i
  {
    var ps := InProfile(rep, ms);
    var rs := Endpoint.Records(rep, env, ps);
    var tainted := Endpoint.TaintedIds(rep, env, ps);
    CandidatesKeyed(rep, env, ms);
    Endpoint.RecordsDecided(rep, env, ps);
    if i in tainted {
      assert Issue(ProfileViolation, Some(i)) in IssuesOf(rep, env, ms);
    } else {
      var r := Endpoint.Resolve(rep, rs, i);
      assert r.Err? && r.error.Some?;
      assert Issue(r.error.value, Some(i)) in Endpoint.GroupIssues(rep, rs, tainted);
      assert Issue(r.error.value, Some(i)) in IssuesOf(rep, env, ms);
    }
  }

  /** So a gate that sees one endpoint's record of an interaction, and not the other's, always pauses. */
  lemma OneSidedPauses(v: LocalView, rep: Representation, reg: Registries, snap: Snapshot, input: Input,
                       i: Id, absent: Role, cfg: Config, a: Action, tool: Id)
    requires IsPrepared(v, rep, reg, snap, input)
    requires OneSided(rep, reg.EnvironmentAt(v.decisionTime), Elems(v.messages), i, absent)
    ensures Verdict(cfg, input, a, tool).Pause?
  {
    var env := reg.EnvironmentAt(v.decisionTime);
    OneSidedIsReported(rep, env, Elems(v.messages), i, absent);
    var code :| Issue(code, Some(i)) in IssuesOf(rep, env, Elems(v.messages));
    assert EvidenceIssue(code) in input.reasons;
    if Verdict(cfg, input, a, tool).Allow? {
      var ch, st := AllowAuthorised(cfg, input, a, tool);
      assert false;
    }
  }

  // ---------- honest evidence is enough ----------

  function SignedView(s: Signing): PolicyView {
    PolicyView(s.handoff, true, true, s.decision == Accept, s.decision, s.decidedAt, true, true)
  }

  ghost function SignedViews(t: Trace, path: seq<Id>): (ch: seq<PolicyView>)
    requires forall k | 0 <= k < |path| :: path[k] in t
    ensures |ch| == |path| && forall k | 0 <= k < |path| :: ch[k] == SignedView(t[path[k]])
  {
    seq(|path|, k requires 0 <= k < |path| => SignedView(t[path[k]]))
  }

  /** The trace is one line of accepted delegations, unbroken and in time, down to the intent of this action. */
  ghost predicate HonestLine(t: Trace, skew: nat, a: Action, path: seq<Id>) {
    && |path| >= 2 && (forall k | 0 <= k < |path| :: path[k] in t) && Elems(path) == t.Keys
    && (forall k | 0 <= k < |path| :: t[path[k]].decision == Accept)
    && t[path[0]].handoff.previous == None
    && (forall j, k | 0 <= j < |path| && k == j + 1 < |path| :: Follows(skew, t[path[j]], t[path[k]]))
    && (forall k | 0 <= k < |path| - 1 :: t[path[k]].handoff.event == Delegation)
    && t[path[|path| - 1]].handoff.event == ActionIntent
    && t[path[|path| - 1]].handoff.requestHash == ActionDigest(a)
  }

  predicate Follows(skew: nat, parent: Signing, child: Signing) {
    && child.handoff.previous == Some(parent.handoff.interaction)
    && parent.handoff.receiver == child.handoff.sender
    && parent.decidedAt <= child.handoff.createdAt + skew
  }

  lemma HonestPathIsRooted(t: Trace, env: Environment, a: Action, path: seq<Id>)
    requires Wellformed(t, env) && HonestLine(t, env.skew, a, path)
    ensures RootedPath(CandidatesOfTrace(t), env.skew, path)
  {
    var c := CandidatesOfTrace(t);
    assert t[path[0]].handoff.event == Delegation;
    forall i | 1 <= i < |path|
      ensures c[path[i]].handoff.previous == Some(path[i - 1]) && Hangs(c[path[i - 1]], c[path[i]], env.skew)
    {
      HonestLink(t, env, a, path, i - 1, i);
    }
  }

  lemma HonestLink(t: Trace, env: Environment, a: Action, path: seq<Id>, j: nat, k: nat)
    requires Wellformed(t, env) && HonestLine(t, env.skew, a, path) && k == j + 1 < |path|
    ensures var c := CandidatesOfTrace(t);
      c[path[k]].handoff.previous == Some(path[j]) && Hangs(c[path[j]], c[path[k]], env.skew)
  {
    assert Follows(env.skew, t[path[j]], t[path[k]]);
    assert t[path[j]].handoff.event == Delegation;
  }

  /** Everything on the line is emitted, and the validator has nothing to report. */
  lemma HonestTraceIsEmitted(t: Trace, env: Environment, a: Action, path: seq<Id>)
    requires Wellformed(t, env) && HonestLine(t, env.skew, a, path)
    ensures TraceIssues(t, env.skew) == {}
    ensures TraceViews(t, env.skew) == Elems(SignedViews(t, path))
  {
    var c := CandidatesOfTrace(t);
    HonestPathIsRooted(t, env, a, path);
    forall i | i in t
      ensures i in Emitted(c, {}, env.skew)
    {
      assert i in Elems(path);
      var k :| 0 <= k < |path| && path[k] == i;
      RootedIsEmitted(c, {}, env.skew, path, k);
    }
    assert path[0] in t;
    PathCoversViews(t, env, path);
  }

  lemma PathCoversViews(t: Trace, env: Environment, path: seq<Id>)
    requires Elems(path) == t.Keys && forall i | i in t :: i in Emitted(CandidatesOfTrace(t), {}, env.skew)
    requires forall k | 0 <= k < |path| :: path[k] in t
    ensures TraceViews(t, env.skew) == Elems(SignedViews(t, path))
  {
    var ch := SignedViews(t, path);
    forall i | i in t
      ensures SignedView(t[i]) in ch
    {
      assert i in Elems(path);
      var k :| 0 <= k < |path| && path[k] == i;
      assert ch[k] == SignedView(t[i]);
    }
    forall k | 0 <= k < |ch|
      ensures ch[k] in TraceViews(t, env.skew)
    {
      assert path[k] in t;
    }
  }

  lemma HonestViewsAreLinked(t: Trace, env: Environment, a: Action, path: seq<Id>, j: nat, k: nat)
    requires Wellformed(t, env) && HonestLine(t, env.skew, a, path) && j < k < |path|
    ensures LinkedViews(SignedViews(t, path), j, k)
  {
    HonestPathIsDistinct(t, env, a, path);
    assert path[j] != path[k];
    assert k == j + 1 ==> Follows(env.skew, t[path[j]], t[path[k]]);
  }

  /** The views of an honest line are a strict chain. */
  lemma HonestLineFormsChain(t: Trace, env: Environment, a: Action, path: seq<Id>, views: seq<PolicyView>)
    requires Wellformed(t, env) && HonestLine(t, env.skew, a, path)
    requires OnePerInteraction(views) && Elems(views) == Elems(SignedViews(t, path))
    ensures StrictChain.FormsChain(views, ActionDigest(a), SignedViews(t, path))
  {
    var ch := SignedViews(t, path);
    forall j, k | 0 <= j < k < |ch|
      ensures LinkedViews(ch, j, k)
    {
      HonestViewsAreLinked(t, env, a, path, j, k);
    }
    LinkedViewsFormChain(views, ActionDigest(a), ch);
  }

  ghost predicate LinkedViews(ch: seq<PolicyView>, j: nat, k: nat)
    requires j < k < |ch|
  {
    && ch[j].handoff.interaction != ch[k].handoff.interaction
    && ch[j].handoff.event == Delegation
    && (k == j + 1 ==> ch[k].handoff.previous == Some(ch[j].handoff.interaction))
  }

  lemma LinkedViewsFormChain(views: seq<PolicyView>, expected: Digest, ch: seq<PolicyView>)
    requires OnePerInteraction(views) && Elems(views) == Elems(ch) && |ch| >= 2
    requires ch[0].handoff.previous == None && Intends(ch[|ch| - 1], expected)
    requires forall j, k | 0 <= j < k < |ch| :: LinkedViews(ch, j, k)
    ensures StrictChain.FormsChain(views, expected, ch)
  {
    forall j, k | 0 <= j < k < |ch|
      ensures ch[j].handoff.interaction != ch[k].handoff.interaction
      ensures k == j + 1 ==> ch[k].handoff.previous == Some(ch[j].handoff.interaction)
    {
      assert LinkedViews(ch, j, k);
    }
    forall k | 0 <= k < |ch| - 1
      ensures ch[k].handoff.event == Delegation
    {
      assert LinkedViews(ch, k, k + 1);
    }
  }

  lemma HonestPathIsDistinct(t: Trace, env: Environment, a: Action, path: seq<Id>)
    requires Wellformed(t, env) && HonestLine(t, env.skew, a, path)
    ensures Distinct(path)
  {
    var c := CandidatesOfTrace(t);
    HonestPathIsRooted(t, env, a, path);
    forall i, j | 0 <= i < j < |path|
      ensures path[i] != path[j]
    {
      RootedPathsDoNotRepeat(c, env.skew, path, i, j);
    }
  }

  /** A place on a rooted path is as far from the root as its index says. */
  lemma {:induction false} RootedPathsDoNotRepeat(c: Candidates, skew: nat, path: seq<Id>, i: nat, j: nat)
    requires RootedPath(c, skew, path) && i < j < |path|
    ensures path[i] != path[j]
    decreases i
  {
    assert c[path[j]].handoff.previous == Some(path[j - 1]);
    if i > 0 {
      assert c[path[i]].handoff.previous == Some(path[i - 1]);
      RootedPathsDoNotRepeat(c, skew, path, i - 1, j - 1);
    }
  }

  /** The gate's own demands on a chain of views, beyond their being one unbroken line. */
  ghost predicate InOrder(cfg: Config, input: Input, a: Action, ch: seq<PolicyView>, st: Status)
    requires ch != []
  {
    && OneAuthority(ch)
    && TimelyChain(cfg.skew, input.decisionTime, ch)
    && AttenuatedThroughout(ch) && CoveredThroughout(ch, a)
    && Governs(Elems(input.statuses), ch, input.decisionTime, st)
  }

  /** The verifier, its stores and its tool are registered, and there is no status message it cannot authenticate. */
  ghost predicate Registered(cfg: Config, reg: Registries, v: LocalView, a: Action, tool: Id) {
    && reg.Bound(v) && !v.legacyPermits && !BadStatus(reg, Elems(v.messages))
    && a.amount <= MAX_SAFE_INTEGER
    && cfg.permitStore == v.permitStore
    && cfg.Bound(v.verifier, v.evidenceStore, v.permitStore)
    && tool in cfg.verifiers[v.verifier].tools
  }

  /**
   Honest evidence is never refused: if an unbroken line of accepted delegations ends in the
   intent of the action, is delivered in any of the three encodings, and meets the gate's demands,
   then the gate allows the action.
   */
  lemma HonestEvidenceIsAllowed(t: Trace, book: Receiptbook, path: seq<Id>, reg: Registries, snap: Snapshot,
                                rep: Representation, v: LocalView, input: Input, cfg: Config, a: Action, tool: Id, st: Status)
    requires cfg.Valid() && Registered(cfg, reg, v, a, tool)
    requires Wellformed(t, reg.EnvironmentAt(v.decisionTime)) && HonestLine(t, reg.skew, a, path)
    requires Delivers(rep, reg.EnvironmentAt(v.decisionTime), t, book, Elems(v.messages))
    requires IsPrepared(v, rep, reg, snap, input)
    requires InOrder(cfg, input, a, SignedViews(t, path), st)
    ensures Verdict(cfg, input, a, tool).Allow?
  {
    var env, ch := reg.EnvironmentAt(v.decisionTime), SignedViews(t, path);
    HonestInputIsClean(t, book, path, reg, snap, rep, v, input, cfg, a, tool);
    HonestLineFormsChain(t, env, a, path, input.views);
    HonestViewsAgree(t, reg.skew, a, path);
    HonestChainIsAllowed(cfg, input, a, tool, ch, st);
  }

  lemma HonestViewsAgree(t: Trace, skew: nat, a: Action, path: seq<Id>)
    requires HonestLine(t, skew, a, path)
    ensures forall k | 0 <= k < |path| :: FullyAgreed(SignedViews(t, path)[k])
  {
  }

  lemma HonestInputIsClean(t: Trace, book: Receiptbook, path: seq<Id>, reg: Registries, snap: Snapshot,
                           rep: Representation, v: LocalView, input: Input, cfg: Config, a: Action, tool: Id)
    requires Registered(cfg, reg, v, a, tool)
    requires Wellformed(t, reg.EnvironmentAt(v.decisionTime)) && HonestLine(t, reg.skew, a, path)
    requires Delivers(rep, reg.EnvironmentAt(v.decisionTime), t, book, Elems(v.messages))
    requires IsPrepared(v, rep, reg, snap, input)
    ensures Admissible(cfg, input, a, tool)
    ensures OnePerInteraction(input.views) && Elems(input.views) == Elems(SignedViews(t, path))
  {
    var env := reg.EnvironmentAt(v.decisionTime);
    HonestTraceIsEmitted(t, env, a, path);
    if rep == PR {
      ReceiptsPreserveMeaning(env, t, book, Elems(v.messages));
    } else {
      RecordsPreserveMeaning(rep, env, t, Elems(v.messages));
    }
  }

  lemma HonestChainIsAllowed(cfg: Config, input: Input, a: Action, tool: Id, ch: seq<PolicyView>, st: Status)
    requires cfg.Valid() && Admissible(cfg, input, a, tool) && StrictChain.FormsChain(input.views, ActionDigest(a), ch)
    requires forall k | 0 <= k < |ch| :: FullyAgreed(ch[k])
    requires InOrder(cfg, input, a, ch, st)
    ensures Verdict(cfg, input, a, tool).Allow?
  {
    StrictChain.FormedChainIsLinear(input.views, ActionDigest(a), ch);
    StrictChain.GateWalksTheSameChain(input.views, a, ch);
    DelegatedMeaning(input.views, a, ch);
    assert Authorised(cfg, input, a, tool, ch, st);
    AuthorisedAllows(cfg, input, a, tool, ch, st);
  }
}
