/** Why the gate pauses: every reason it gives, said in the fields of what it was shown. */
module PauseLaws {
  import opened Common
  import opened Model
  import opened ChainWalk
  import opened Gate
  import opened GateLaws

  // ---------- before any evidence ----------

  /** The verifier is registered with exactly these two stores. */
  predicate Registered(cfg: Config, input: Input) {
    && cfg.permitStore == input.permitStore
    && input.verifier in cfg.verifiers
    && cfg.verifiers[input.verifier].evidenceStore == input.evidenceStore
    && cfg.verifiers[input.verifier].permitStore == input.permitStore
  }

  predicate EarlyFault(r: Reason, cfg: Config, input: Input, a: Action, tool: Id) {
    match r
    case SchemaInvalid => a.amount > 9_007_199_254_740_991
    case VerifierStoreMismatch => a.amount <= 9_007_199_254_740_991 && !Registered(cfg, input)
    case ToolUnauthorised =>
      a.amount <= 9_007_199_254_740_991 && Registered(cfg, input) && tool !in cfg.verifiers[input.verifier].tools
    case Prepared(p) =>
      && a.amount <= 9_007_199_254_740_991 && Registered(cfg, input) && tool in cfg.verifiers[input.verifier].tools
      && p in input.reasons
    case _ => false
  }

  lemma EarlyFaults(r: Reason, cfg: Config, input: Input, a: Action, tool: Id)
    ensures r in EarlyReasons(cfg, input, a, tool) <==> EarlyFault(r, cfg, input, a, tool)
  {
  }

  // ---------- in a chain, root first ----------

  /** What the source objects to at one place of a chain, each objection as a comparison of fields. */
  ghost predicate FaultAt(r: Reason, skew: nat, t: Time, a: Action, ch: seq<PolicyView>, k: nat)
    requires k < |ch|
  {
    var v, h := ch[k], ch[k].handoff;
    match r
    case SenderUnauthenticated => !v.senderAuthenticated
    case ReceiverUnauthenticated => !v.receiverAuthenticated
    case BilateralAgreementMissing => !v.bilateral
    case ReceiverRejected => v.decision == Reject
    case ParentRelationInvalid => !v.parentValid
    case EquivocationSeen => !v.conflictFree
    case IntermediateNotDelegation => 0 < k < |ch| - 1 && h.event != Delegation
    case AuthorityChainMismatch => h.lineage != ch[0].handoff.lineage || h.version != ch[0].handoff.version
    case NotYetValid => t < h.createdAt || t < h.scope.notBefore
    case Expired => h.scope.notAfter <= t
    case CausalTimeInvalid =>
      v.decidedAt < h.createdAt || t < v.decidedAt || (k > 0 && ch[k - 1].decidedAt > h.createdAt + skew)
    case PartyContinuityBroken => k > 0 && ch[k - 1].handoff.receiver != h.sender
    case ScopeExpansion => k > 0 && Widens(ch[k - 1].handoff.scope, h.scope)
    case ActionOutOfScope => Exceeds(a, h.scope)
    case _ => false
  }

  ghost predicate SomewhereFaulty(r: Reason, skew: nat, t: Time, a: Action, ch: seq<PolicyView>) {
    exists k :: 0 <= k < |ch| && FaultAt(r, skew, t, a, ch, k)
  }

  /** What it objects to at the two ends. */
  ghost predicate FaultAtEnds(r: Reason, a: Action, ch: seq<PolicyView>)
    requires ch != []
  {
    var root, leaf := ch[0].handoff, ch[|ch| - 1].handoff;
    match r
    case RootNotDelegation => root.previous.Some? || root.event != Delegation
    case LeafNotActionIntent => leaf.event != ActionIntent
    case RootAuthorityMismatch =>
      root.lineage.issuer != root.sender.principal || root.lineage.subject != root.receiver.principal
      || root.lineage.subjectKey != root.receiver.key
    case RequestHashMismatch => leaf.requestHash != ActionDigest(a)
    case _ => false
  }

  ghost predicate ChainFault(r: Reason, skew: nat, t: Time, a: Action, ch: seq<PolicyView>)
    requires ch != []
  {
    FaultAtEnds(r, a, ch) || SomewhereFaulty(r, skew, t, a, ch)
  }

  /** The child's scope grants something the parent's does not, or does not spend a redelegation. */
  predicate Widens(parent: Scope, child: Scope) {
    || (exists o :: o in child.operations && o !in parent.operations)
    || (exists o :: o in child.resources && o !in parent.resources)
    || child.currency != parent.currency
    || child.maxAmount > parent.maxAmount
    || child.notBefore < parent.notBefore
    || child.notAfter > parent.notAfter
    || child.redelegations >= parent.redelegations
  }

  predicate Exceeds(a: Action, s: Scope) {
    a.operation !in s.operations || a.resource !in s.resources || a.currency != s.currency || a.amount > s.maxAmount
  }

  lemma AttenuationMeaning(parent: Scope, child: Scope)
    ensures Attenuated(parent, child) <==> !Widens(parent, child)
  {
  }

  predicate OfPolicy(r: Reason) {
    r in {SenderUnauthenticated, ReceiverUnauthenticated, BilateralAgreementMissing, ReceiverRejected,
          ParentRelationInvalid, EquivocationSeen}
  }

  predicate OfPosition(r: Reason) {
    r in {NotYetValid, Expired, CausalTimeInvalid, PartyContinuityBroken, ScopeExpansion}
  }

  lemma PolicyAt(r: Reason, skew: nat, t: Time, a: Action, ch: seq<PolicyView>, k: nat)
    requires k < |ch|
    ensures r in PolicyReasons(ch[k]) <==> OfPolicy(r) && FaultAt(r, skew, t, a, ch, k)
  {
  }

  lemma ScopeExpandsAt(skew: nat, t: Time, a: Action, ch: seq<PolicyView>, k: nat)
    requires k < |ch|
    ensures ScopeExpansion in PositionReasons(skew, t, ch, k) <==> FaultAt(ScopeExpansion, skew, t, a, ch, k)
  {
    if k > 0 {
      AttenuationMeaning(ch[k - 1].handoff.scope, ch[k].handoff.scope);
    }
  }

  lemma TimesAndPartiesAt(r: Reason, skew: nat, t: Time, a: Action, ch: seq<PolicyView>, k: nat)
    requires k < |ch| && r != ScopeExpansion
    ensures r in PositionReasons(skew, t, ch, k) <==> OfPosition(r) && FaultAt(r, skew, t, a, ch, k)
  {
  }

  lemma PositionAt(r: Reason, skew: nat, t: Time, a: Action, ch: seq<PolicyView>, k: nat)
    requires k < |ch|
    ensures r in PositionReasons(skew, t, ch, k) <==> OfPosition(r) && FaultAt(r, skew, t, a, ch, k)
  {
    if r == ScopeExpansion {
      ScopeExpandsAt(skew, t, a, ch, k);
    } else {
      TimesAndPartiesAt(r, skew, t, a, ch, k);
    }
  }

  lemma {:induction false} PolicyFaultFound(r: Reason, ch: seq<PolicyView>, n: nat) returns (k: nat)
    requires n <= |ch| && r in UpToPolicy(ch, n)
    ensures k < n && r in PolicyReasons(ch[k])
    decreases n
  {
    if r in UpToPolicy(ch, n - 1) {
      k := PolicyFaultFound(r, ch, n - 1);
    } else {
      k := n - 1;
    }
  }

  lemma {:induction false} PolicyFaultCounts(r: Reason, ch: seq<PolicyView>, n: nat, k: nat)
    requires k < n <= |ch| && r in PolicyReasons(ch[k])
    ensures r in UpToPolicy(ch, n)
    decreases n
  {
    if k < n - 1 {
      PolicyFaultCounts(r, ch, n - 1, k);
    }
  }

  lemma {:induction false} PositionFaultFound(r: Reason, skew: nat, t: Time, ch: seq<PolicyView>, n: nat) returns (k: nat)
    requires n <= |ch| && r in UpToPosition(skew, t, ch, n)
    ensures k < n && r in PositionReasons(skew, t, ch, k)
    decreases n
  {
    if r in UpToPosition(skew, t, ch, n - 1) {
      k := PositionFaultFound(r, skew, t, ch, n - 1);
    } else {
      k := n - 1;
    }
  }

  lemma {:induction false} PositionFaultCounts(r: Reason, skew: nat, t: Time, ch: seq<PolicyView>, n: nat, k: nat)
    requires k < n <= |ch| && r in PositionReasons(skew, t, ch, k)
    ensures r in UpToPosition(skew, t, ch, n)
    decreases n
  {
    if k < n - 1 {
      PositionFaultCounts(r, skew, t, ch, n - 1, k);
    }
  }

  lemma PolicyFaults(r: Reason, skew: nat, t: Time, a: Action, ch: seq<PolicyView>)
    ensures r in UpToPolicy(ch, |ch|) <==> OfPolicy(r) && SomewhereFaulty(r, skew, t, a, ch)
  {
    if r in UpToPolicy(ch, |ch|) {
      var k := PolicyFaultFound(r, ch, |ch|);
      PolicyAt(r, skew, t, a, ch, k);
    }
    if OfPolicy(r) {
      if k :| 0 <= k < |ch| && FaultAt(r, skew, t, a, ch, k) {
        PolicyAt(r, skew, t, a, ch, k);
        PolicyFaultCounts(r, ch, |ch|, k);
      }
    }
  }

  lemma PositionFaults(r: Reason, skew: nat, t: Time, a: Action, ch: seq<PolicyView>)
    ensures r in UpToPosition(skew, t, ch, |ch|) <==> OfPosition(r) && SomewhereFaulty(r, skew, t, a, ch)
  {
    if r in UpToPosition(skew, t, ch, |ch|) {
      var k := PositionFaultFound(r, skew, t, ch, |ch|);
      PositionAt(r, skew, t, a, ch, k);
    }
    if OfPosition(r) {
      if k :| 0 <= k < |ch| && FaultAt(r, skew, t, a, ch, k) {
        PositionAt(r, skew, t, a, ch, k);
        PositionFaultCounts(r, skew, t, ch, |ch|, k);
      }
    }
  }

  lemma ShapeFaults(r: Reason, skew: nat, t: Time, a: Action, ch: seq<PolicyView>)
    requires ch != []
    ensures r in ShapeReasons(ch) <==>
            r in {RootNotDelegation, LeafNotActionIntent, IntermediateNotDelegation} && ChainFault(r, skew, t, a, ch)
  {
    if r == IntermediateNotDelegation && r in ShapeReasons(ch) {
      var k :| 1 <= k < |ch| - 1 && ch[k].handoff.event != Delegation;
      assert FaultAt(r, skew, t, a, ch, k);
    }
  }

  lemma AuthorityFaults(r: Reason, skew: nat, t: Time, a: Action, ch: seq<PolicyView>)
    requires ch != []
    ensures r in AuthorityReasons(ch) <==> r in {RootAuthorityMismatch, AuthorityChainMismatch} && ChainFault(r, skew, t, a, ch)
  {
    if r == AuthorityChainMismatch && r in AuthorityReasons(ch) {
      var k :| 1 <= k < |ch| && (ch[k].handoff.lineage != ch[0].handoff.lineage || ch[k].handoff.version != ch[0].handoff.version);
      assert FaultAt(r, skew, t, a, ch, k);
    }
  }

  lemma RequestFaults(r: Reason, skew: nat, t: Time, a: Action, ch: seq<PolicyView>)
    requires ch != []
    ensures r in RequestReasons(ch, a) <==> r in {RequestHashMismatch, ActionOutOfScope} && ChainFault(r, skew, t, a, ch)
  {
    if r == ActionOutOfScope && r in RequestReasons(ch, a) {
      var k :| 0 <= k < |ch| && !Within(a, ch[k].handoff.scope);
      assert FaultAt(r, skew, t, a, ch, k);
    }
    if r == ActionOutOfScope && ChainFault(r, skew, t, a, ch) {
      var k :| 0 <= k < |ch| && FaultAt(r, skew, t, a, ch, k);
      assert !Within(a, ch[k].handoff.scope);
    }
  }

  predicate OfChain(r: Reason) {
    r in {RootNotDelegation, LeafNotActionIntent, IntermediateNotDelegation, RootAuthorityMismatch, AuthorityChainMismatch,
          RequestHashMismatch, ActionOutOfScope}
  }

  lemma OtherFaults(r: Reason, skew: nat, t: Time, a: Action, ch: seq<PolicyView>)
    requires ch != []
    ensures (r in ShapeReasons(ch) || r in AuthorityReasons(ch) || r in RequestReasons(ch, a)) <==>
            OfChain(r) && ChainFault(r, skew, t, a, ch)
  {
    ShapeFaults(r, skew, t, a, ch);
    AuthorityFaults(r, skew, t, a, ch);
    RequestFaults(r, skew, t, a, ch);
  }

  lemma ReasonsInParts(r: Reason, skew: nat, t: Time, a: Action, ch: seq<PolicyView>)
    requires ch != []
    ensures r in ChainReasons(skew, t, a, ch) <==>
            || r in UpToPolicy(ch, |ch|) || r in UpToPosition(skew, t, ch, |ch|)
            || (r in ShapeReasons(ch) || r in AuthorityReasons(ch) || r in RequestReasons(ch, a))
  {
  }

  lemma KindsOfFault(r: Reason, skew: nat, t: Time, a: Action, ch: seq<PolicyView>)
    requires ch != []
    ensures ChainFault(r, skew, t, a, ch) <==>
            || (OfPolicy(r) && SomewhereFaulty(r, skew, t, a, ch)) || (OfPosition(r) && SomewhereFaulty(r, skew, t, a, ch))
            || (OfChain(r) && ChainFault(r, skew, t, a, ch))
  {
  }

  /** The gate's loops object to a chain with exactly its faults. */
  lemma ChainFaults(r: Reason, skew: nat, t: Time, a: Action, ch: seq<PolicyView>)
    requires ch != []
    ensures r in ChainReasons(skew, t, a, ch) <==> ChainFault(r, skew, t, a, ch)
  {
    ReasonsInParts(r, skew, t, a, ch);
    KindsOfFault(r, skew, t, a, ch);
    PolicyFaults(r, skew, t, a, ch);
    PositionFaults(r, skew, t, a, ch);
    OtherFaults(r, skew, t, a, ch);
  }

  // ---------- in the statuses of its lineage ----------

  /** What is objected to in the status on top of the lineage. */
  ghost predicate TopFault(r: Reason, st: Status, ch: seq<PolicyView>, t: Time)
    requires ch != []
  {
    match r
    case StatusMissing => st.version < ch[0].handoff.version
    case AuthorityVersionStale => st.version > ch[0].handoff.version
    case RevocationStatusStale => exists k :: 0 <= k < |ch| && ch[k].handoff.statusId != StatusDigest(st)
    case AuthorityRevoked => st.state == Revoked
    case StatusNotYetValid => t < st.issuedAt
    case StatusStale => st.freshUntil <= t
    case StatusCausalTimeInvalid =>
      exists k :: 0 <= k < |ch| && ch[k].handoff.statusId == StatusDigest(st) && ch[k].handoff.createdAt < st.issuedAt
    case _ => false
  }

  ghost predicate StatusFault(r: Reason, statuses: set<Status>, ch: seq<PolicyView>, t: Time)
    requires ch != []
  {
    var lineage := ch[0].handoff.lineage;
    || (r == StatusMissing && forall s | s in statuses :: !OfLineage(s, lineage))
    || (r == StatusConflict && !OnePerVersion(statuses, lineage))
    || exists st :: Tops(statuses, lineage, st) && TopFault(r, st, ch, t)
  }

  lemma ControllingTops(statuses: set<Status>, l: Lineage, st: Status)
    ensures Controlling(Relevant(statuses, l)) == Some(st) <==> Tops(statuses, l, st)
  {
    ControllingIsTop(Relevant(statuses, l), st);
  }

  lemma ConflictMeaning(statuses: set<Status>, l: Lineage)
    ensures Conflicting(Relevant(statuses, l)) <==> !OnePerVersion(statuses, l)
    ensures Relevant(statuses, l) == {} <==> forall s | s in statuses :: !OfLineage(s, l)
  {
    if !OnePerVersion(statuses, l) {
      var s, s' :| s in statuses && s' in statuses && OfLineage(s, l) && OfLineage(s', l) && s.version == s'.version && s != s';
      assert s in Relevant(statuses, l) && s' in Relevant(statuses, l);
    }
    if s :| s in statuses && OfLineage(s, l) {
      assert s in Relevant(statuses, l);
    }
  }

  lemma TopFaultsAlong(st: Status, ch: seq<PolicyView>, t: Time)
    requires ch != []
    ensures RevocationStatusStale in ControlReasons(st, ch, t) <==>
            exists k :: 0 <= k < |ch| && ch[k].handoff.statusId != StatusDigest(st)
    ensures StatusCausalTimeInvalid in ControlReasons(st, ch, t) <==>
            exists k :: 0 <= k < |ch| && ch[k].handoff.statusId == StatusDigest(st) && ch[k].handoff.createdAt < st.issuedAt
  {
  }

  lemma TopFaultsAlone(r: Reason, st: Status, ch: seq<PolicyView>, t: Time)
    requires ch != [] && r != RevocationStatusStale && r != StatusCausalTimeInvalid
    ensures r in ControlReasons(st, ch, t) <==>
            || (r == StatusMissing && st.version < ch[0].handoff.version)
            || (r == AuthorityVersionStale && st.version > ch[0].handoff.version)
            || (r == AuthorityRevoked && st.state == Revoked)
            || (r == StatusNotYetValid && t < st.issuedAt)
            || (r == StatusStale && st.freshUntil <= t)
  {
  }

  lemma TopFaults(r: Reason, st: Status, ch: seq<PolicyView>, t: Time)
    requires ch != []
    ensures r in ControlReasons(st, ch, t) <==> TopFault(r, st, ch, t)
  {
    if r == RevocationStatusStale || r == StatusCausalTimeInvalid {
      TopFaultsAlong(st, ch, t);
    } else {
      TopFaultsAlone(r, st, ch, t);
    }
  }

  lemma ObjectionFaults(r: Reason, found: bool, conflict: bool, controlling: Option<Status>, ch: seq<PolicyView>, t: Time)
    requires ch != []
    ensures r in StatusObjections(found, conflict, controlling, ch, t) <==>
            if !found then r == StatusMissing
            else (r == StatusConflict && conflict) || (controlling.Some? && TopFault(r, controlling.value, ch, t))
  {
    if controlling.Some? {
      TopFaults(r, controlling.value, ch, t);
    }
  }

  lemma StatusFaults(r: Reason, statuses: set<Status>, ch: seq<PolicyView>, t: Time)
    requires ch != []
    ensures r in StatusReasons(Relevant(statuses, ch[0].handoff.lineage), ch, t) <==> StatusFault(r, statuses, ch, t)
  {
    var l := ch[0].handoff.lineage;
    var rel := Relevant(statuses, l);
    ConflictMeaning(statuses, l);
    ObjectionFaults(r, rel != {}, Conflicting(rel), Controlling(rel), ch, t);
    forall st
      ensures Controlling(rel) == Some(st) <==> Tops(statuses, l, st)
    {
      ControllingTops(statuses, l, st);
    }
    assert forall st | Tops(statuses, l, st) :: st in statuses && OfLineage(st, l);
  }

  // ---------- the verdict ----------

  /**
   A pause on a complete chain lists exactly the faults of the chain and of its statuses, and there
   is at least one: the bare internal error and the gate's own "expiry already past" cannot happen.
   */
  lemma PauseListsTheFaults(cfg: Config, input: Input, a: Action, tool: Id, ch: seq<PolicyView>, r: Reason)
    requires cfg.Valid() && Admissible(cfg, input, a, tool)
    requires LinearIn(input.views, ch) && OnlyIntent(input.views, a, ch[|ch| - 1])
    requires Verdict(cfg, input, a, tool).Pause?
    ensures Verdict(cfg, input, a, tool).reasons != {}
    ensures r in Verdict(cfg, input, a, tool).reasons <==>
            || ChainFault(r, cfg.skew, input.decisionTime, a, ch)
            || StatusFault(r, Elems(input.statuses), ch, input.decisionTime)
  {
    OneLeaf(input.views, a, ch[|ch| - 1]);
    EveryPauseHasCause(cfg, input, a, tool, ch);
    ChainFaults(r, cfg.skew, input.decisionTime, a, ch);
    StatusFaults(r, Elems(input.statuses), ch, input.decisionTime);
  }

  /** Before it looks at a chain, the gate pauses for an early fault, or for having no leaf or several. */
  lemma PauseBeforeChain(cfg: Config, input: Input, a: Action, tool: Id)
    ensures (exists r :: EarlyFault(r, cfg, input, a, tool)) ==>
              && Verdict(cfg, input, a, tool).Pause?
              && forall r :: r in Verdict(cfg, input, a, tool).reasons <==> EarlyFault(r, cfg, input, a, tool)
    ensures (forall r :: !EarlyFault(r, cfg, input, a, tool)) ==>
              && ((forall m | 0 <= m < |input.views| :: !IntendsIt(a, input.views[m])) ==>
                    Verdict(cfg, input, a, tool) == Pause({LeafMissing}))
              && ((exists m, n :: 0 <= m < n < |input.views| && IntendsIt(a, input.views[m]) && IntendsIt(a, input.views[n])) ==>
                    Verdict(cfg, input, a, tool) == Pause({LeafAmbiguous}))
  {
    VerdictCases(cfg, input, a, tool);
    forall r
      ensures r in EarlyReasons(cfg, input, a, tool) <==> EarlyFault(r, cfg, input, a, tool)
    {
      EarlyFaults(r, cfg, input, a, tool);
    }
    NoLeaves(input.views, a);
    if m, n :| 0 <= m < n < |input.views| && IntendsIt(a, input.views[m]) && IntendsIt(a, input.views[n]) {
      SeveralLeaves(input.views, a, m, n);
    }
  }

  lemma SeveralLeaves(views: seq<PolicyView>, a: Action, m: nat, n: nat)
    requires m < n < |views| && IntendsIt(a, views[m]) && IntendsIt(a, views[n])
    ensures |Leaves(views, a)| > 1
  {
    var leaves := Leaves(views, a);
    assert views[m] in leaves;
    if |leaves| == 1 {
      OneLeaf(views, a, leaves[0]);
      assert false;
    }
  }

  /**
   From the only leaf the gate climbs parent by parent, and pauses if it comes to a view whose
   parent is missing, ambiguous, or already on the way.
   */
  lemma PauseOnTheClimb(cfg: Config, input: Input, a: Action, tool: Id, leaf: PolicyView) returns (up: seq<PolicyView>)
    requires (forall r :: !EarlyFault(r, cfg, input, a, tool)) && OnlyIntent(input.views, a, leaf)
    ensures up != [] && up[0] == leaf && IsClimb(input.views, {}, up)
    ensures match up[|up| - 1].handoff.previous
            case None => true
            case Some(p) =>
              && (!SomeUnder(input.views, p) ==> Verdict(cfg, input, a, tool) == Pause({ParentAbsent}))
              && (SeveralUnder(input.views, p) ==> Verdict(cfg, input, a, tool) == Pause({ChainAmbiguous}))
              && (SomeUnder(input.views, p) && !SeveralUnder(input.views, p) ==>
                    && Verdict(cfg, input, a, tool) == Pause({Reason.ChainCycle})
                    && exists k | 0 <= k < |up| :: up[k].handoff.interaction == p)
  {
    NoEarlyReasons(cfg, input, a, tool);
    OneLeaf(input.views, a, leaf);
    PauseAtTheEnd(cfg, input, a, tool, leaf);
    WalkMeaning(input.views, leaf, {});
    up := WalkUp(input.views, leaf, {}).0;
  }

  lemma NoEarlyReasons(cfg: Config, input: Input, a: Action, tool: Id)
    requires forall r :: !EarlyFault(r, cfg, input, a, tool)
    ensures EarlyReasons(cfg, input, a, tool) == {}
  {
    forall r
      ensures r !in EarlyReasons(cfg, input, a, tool)
    {
      EarlyFaults(r, cfg, input, a, tool);
    }
  }

  lemma PauseAtTheEnd(cfg: Config, input: Input, a: Action, tool: Id, leaf: PolicyView)
    requires EarlyReasons(cfg, input, a, tool) == {} && Leaves(input.views, a) == [leaf]
    ensures leaf in input.views
    ensures var end := WalkUp(input.views, leaf, {}).1;
      end != AtRoot ==> Verdict(cfg, input, a, tool) == Pause(EndReasons(end))
  {
    VerdictCases(cfg, input, a, tool);
  }
}
