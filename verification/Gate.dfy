/** The common action gate: what makes it pause, and the loops of `evaluate` that find out. */
module Gate {
  import opened Common
  import opened Model
  import opened ChainWalk
  import opened PermitStore
  import opened Sequence

  datatype PrepReason = EvidenceIssue(code: IssueCode) | VerifierUnbound | LegacyPermitState | StatusInvalid

  datatype Reason =
    | Prepared(reason: PrepReason) | SchemaInvalid | VerifierStoreMismatch | ToolUnauthorised
    | LeafMissing | LeafAmbiguous | ChainCycle | ParentAbsent | ChainAmbiguous
    | SenderUnauthenticated | ReceiverUnauthenticated | BilateralAgreementMissing | ReceiverRejected
    | ParentRelationInvalid | EquivocationSeen
    | RootNotDelegation | LeafNotActionIntent | IntermediateNotDelegation
    | RootAuthorityMismatch | AuthorityChainMismatch
    | NotYetValid | CausalTimeInvalid | Expired | PartyContinuityBroken | ScopeExpansion
    | RequestHashMismatch | ActionOutOfScope
    | StatusMissing | StatusConflict | AuthorityVersionStale | RevocationStatusStale | AuthorityRevoked
    | StatusNotYetValid | StatusStale | StatusCausalTimeInvalid
    | InternalError
    | ConflictingHandoff | ReplayDetectedAtReserve | StateHasChanged

  datatype VerifierBinding = VerifierBinding(evidenceStore: Id, permitStore: Id, tools: set<Id>)

  datatype Config = Config(verifiers: map<Id, VerifierBinding>, permitStore: Id, ttl: nat, skew: nat)
  {
    ghost predicate Valid() {
      1 <= ttl <= 300
    }

    predicate Bound(verifier: Id, evidenceStore: Id, store: Id) {
      verifier in verifiers && verifiers[verifier].evidenceStore == evidenceStore && verifiers[verifier].permitStore == store
    }
  }

  /** `CommonGateInput`. Of the permit snapshot the gate uses only the revision. */
  datatype Input = Input(
    verifier: Id, evidenceStore: Id, permitStore: Id, decisionTime: Time, views: seq<PolicyView>,
    statuses: seq<Status>, revision: nat, reasons: set<PrepReason>)

  /** What an allowed evaluation binds the permit to. */
  datatype Grant = Grant(
    leaf: Digest, chain: Digest, status: Digest, replayScope: Digest, expiresAt: Time, observations: seq<Observation>)

  datatype Evaluation = Pause(reasons: set<Reason>) | Allow(grant: Grant)

  function PauseFor(reasons: set<Reason>): Evaluation {
    Pause(if reasons == {} then {InternalError} else reasons)
  }

  // ---------- the checks on a chain, root first ----------

  predicate Attenuated(parent: Scope, child: Scope) {
    && child.operations <= parent.operations
    && child.resources <= parent.resources
    && child.currency == parent.currency
    && child.maxAmount <= parent.maxAmount
    && child.notBefore >= parent.notBefore
    && child.notAfter <= parent.notAfter
    && child.redelegations < parent.redelegations
  }

  predicate Within(a: Action, s: Scope) {
    a.operation in s.operations && a.resource in s.resources && a.currency == s.currency && a.amount <= s.maxAmount
  }

  function When(condition: bool, reason: Reason): set<Reason> {
    if condition then {reason} else {}
  }

  /** `evaluate_common_evidence_policy`. */
  function PolicyReasons(v: PolicyView): set<Reason> {
    When(!v.senderAuthenticated, SenderUnauthenticated)
    + When(!v.receiverAuthenticated, ReceiverUnauthenticated)
    + When(!v.bilateral, BilateralAgreementMissing)
    + When(v.decision == Reject, ReceiverRejected)
    + When(!v.parentValid, ParentRelationInvalid)
    + When(!v.conflictFree, EquivocationSeen)
  }

  function ShapeReasons(ch: seq<PolicyView>): set<Reason>
    requires ch != []
  {
    When(ch[0].handoff.previous.Some? || ch[0].handoff.event != Delegation, RootNotDelegation)
    + When(ch[|ch| - 1].handoff.event != ActionIntent, LeafNotActionIntent)
    + When(exists k :: 1 <= k < |ch| - 1 && ch[k].handoff.event != Delegation, IntermediateNotDelegation)
  }

  function AuthorityReasons(ch: seq<PolicyView>): set<Reason>
    requires ch != []
  {
    var root := ch[0].handoff;
    When(root.lineage != Lineage(root.sender.principal, root.receiver.principal, root.receiver.key), RootAuthorityMismatch)
    + When(exists k :: 1 <= k < |ch| && (ch[k].handoff.lineage != root.lineage || ch[k].handoff.version != root.version),
           AuthorityChainMismatch)
  }

  /** The checks of the indexed loop at one position. */
  function PositionReasons(skew: nat, t: Time, ch: seq<PolicyView>, k: nat): set<Reason>
    requires k < |ch|
  {
    var v, h := ch[k], ch[k].handoff;
    When(h.createdAt > t, NotYetValid)
    + When(v.decidedAt < h.createdAt || v.decidedAt > t, CausalTimeInvalid)
    + When(t < h.scope.notBefore, NotYetValid)
    + When(t >= h.scope.notAfter, Expired)
    + if k == 0 then {}
      else
        When(ch[k - 1].handoff.receiver != h.sender, PartyContinuityBroken)
        + When(ch[k - 1].decidedAt > h.createdAt + skew, CausalTimeInvalid)
        + When(!Attenuated(ch[k - 1].handoff.scope, h.scope), ScopeExpansion)
  }

  function UpToPosition(skew: nat, t: Time, ch: seq<PolicyView>, n: nat): set<Reason>
    requires n <= |ch|
  {
    if n == 0 then {} else UpToPosition(skew, t, ch, n - 1) + PositionReasons(skew, t, ch, n - 1)
  }

  function UpToPolicy(ch: seq<PolicyView>, n: nat): set<Reason>
    requires n <= |ch|
  {
    if n == 0 then {} else UpToPolicy(ch, n - 1) + PolicyReasons(ch[n - 1])
  }

  function RequestReasons(ch: seq<PolicyView>, a: Action): set<Reason>
    requires ch != []
  {
    When(ch[|ch| - 1].handoff.requestHash != ActionDigest(a), RequestHashMismatch)
    + When(exists k :: 0 <= k < |ch| && !Within(a, ch[k].handoff.scope), ActionOutOfScope)
  }

  // ---------- authority statuses ----------

  function Relevant(statuses: set<Status>, lineage: Lineage): set<Status> {
    set s | s in statuses && s.LineageOf() == lineage
  }

  /** Two different statuses of one version. */
  ghost predicate Conflicting(rel: set<Status>) {
    exists a, b :: a in rel && b in rel && a != b && a.version == b.version
  }

  ghost predicate IsHighest(rel: set<Status>, v: nat) {
    (exists s :: s in rel && s.version == v) && forall s | s in rel :: s.version <= v
  }

  function AtVersion(rel: set<Status>, v: nat): set<Status> {
    set s | s in rel && s.version == v
  }

  /** What the controlling status, the only one of the highest version, makes the gate object to. */
  function ControlReasons(st: Status, ch: seq<PolicyView>, t: Time): set<Reason>
    requires ch != []
  {
    When(st.version > ch[0].handoff.version, AuthorityVersionStale)
    + When(st.version < ch[0].handoff.version, StatusMissing)
    + When(exists k :: 0 <= k < |ch| && ch[k].handoff.statusId != StatusDigest(st), RevocationStatusStale)
    + When(st.state == Revoked, AuthorityRevoked)
    + When(st.issuedAt > t, StatusNotYetValid)
    + When(st.freshUntil <= t, StatusStale)
    + When(exists k :: 0 <= k < |ch| && ch[k].handoff.statusId == StatusDigest(st) && st.issuedAt > ch[k].handoff.createdAt,
           StatusCausalTimeInvalid)
  }

  lemma {:induction false} HighestExists(rel: set<Status>)
    requires rel != {}
    ensures exists v :: IsHighest(rel, v)
    decreases |rel|
  {
    var s :| s in rel;
    var others := rel - {s};
    var best := s;
    if others != {} {
      HighestExists(others);
      var v :| IsHighest(others, v);
      var o :| o in others && o.version == v;
      best := if o.version > s.version then o else s;
    }
    assert forall x | x in rel :: x == s || x in others;
    assert best in rel;
    assert IsHighest(rel, best.version);
  }

  ghost function Highest(rel: set<Status>): (v: nat)
    requires rel != {}
    ensures IsHighest(rel, v)
  {
    HighestExists(rel);
    var v :| IsHighest(rel, v);
    v
  }

  /** The only status of the highest version, if there is only one. */
  ghost function Controlling(rel: set<Status>): (c: Option<Status>)
    ensures c.Some? ==> AtVersion(rel, c.value.version) == {c.value} && IsHighest(rel, c.value.version)
  {
    if rel != {} && |AtVersion(rel, Highest(rel))| == 1 then
      var c :| c in AtVersion(rel, Highest(rel));
      Singleton(AtVersion(rel, Highest(rel)), c);
      Some(c)
    else None
  }

  function StatusObjections(found: bool, conflict: bool, controlling: Option<Status>, ch: seq<PolicyView>, t: Time): set<Reason>
    requires ch != []
  {
    if !found then {StatusMissing}
    else When(conflict, StatusConflict)
         + match controlling case None => {} case Some(st) => ControlReasons(st, ch, t)
  }

  /** The status scan: conflicts anywhere in the lineage, and the objections to the controlling status. */
  ghost function StatusReasons(rel: set<Status>, ch: seq<PolicyView>, t: Time): set<Reason>
    requires ch != []
  {
    StatusObjections(rel != {}, Conflicting(rel), Controlling(rel), ch, t)
  }

  // ---------- what an allowed evaluation yields ----------

  function MinNotAfter(ch: seq<PolicyView>): (m: Time)
    requires ch != []
    ensures forall k | 0 <= k < |ch| :: m <= ch[k].handoff.scope.notAfter
    ensures exists k | 0 <= k < |ch| :: m == ch[k].handoff.scope.notAfter
  {
    var last := ch[|ch| - 1].handoff.scope.notAfter;
    if |ch| == 1 then last
    else
      var m := MinNotAfter(ch[..|ch| - 1]);
      if last < m then last else m
  }

  function Expiry(ttl: nat, t: Time, st: Status, ch: seq<PolicyView>): Time
    requires ch != []
  {
    var m := if st.freshUntil < MinNotAfter(ch) then st.freshUntil else MinNotAfter(ch);
    if t + ttl < m then t + ttl else m
  }

  function Observations(ch: seq<PolicyView>): (os: seq<Observation>)
    ensures forall o :: o in os <==> exists v :: v in ch && (o == InteractionOf(v) || o == SequenceOf(v))
  {
    if ch == [] then []
    else
      var n := |ch| - 1;
      assert ch == ch[..n] + [ch[n]];
      Observations(ch[..n]) + [InteractionOf(ch[n]), SequenceOf(ch[n])]
  }

  function InteractionOf(v: PolicyView): Observation {
    Observation(InteractionObserved, InteractionKeyDigest(v.handoff.interaction), v.NeutralId())
  }

  function SequenceOf(v: PolicyView): Observation {
    Observation(SenderSequenceObserved, SequenceKeyDigest(v.handoff.SenderSlot()), v.NeutralId())
  }

  function NeutralIds(ch: seq<PolicyView>): (r: seq<Digest>)
    ensures |r| == |ch| && forall k | 0 <= k < |ch| :: r[k] == ch[k].NeutralId()
  {
    seq(|ch|, k requires 0 <= k < |ch| => ch[k].NeutralId())
  }

  function GrantFor(ttl: nat, t: Time, st: Status, ch: seq<PolicyView>): Grant
    requires ch != []
  {
    Grant(ch[|ch| - 1].NeutralId(), ChainDigest(NeutralIds(ch)), StatusDigest(st),
          ReplayScopeDigest(ch[0].handoff.lineage, ch[0].handoff.version), Expiry(ttl, t, st, ch), Observations(ch))
  }

  // ---------- the verdict ----------

  /** What stops the gate before it looks at any evidence. */
  function EarlyReasons(cfg: Config, input: Input, a: Action, tool: Id): set<Reason> {
    if a.amount > MAX_SAFE_INTEGER then {SchemaInvalid}
    else if cfg.permitStore != input.permitStore then {VerifierStoreMismatch}
    else if !cfg.Bound(input.verifier, input.evidenceStore, input.permitStore) then {VerifierStoreMismatch}
    else if tool !in cfg.verifiers[input.verifier].tools then {ToolUnauthorised}
    else Inherited(input.reasons)
  }

  /** Preparation reasons are passed on as they are. */
  function Inherited(reasons: set<PrepReason>): set<Reason> {
    set p | p in reasons :: Prepared(p)
  }

  predicate IsLeaf(v: PolicyView, a: Action) {
    Intends(v, ActionDigest(a))
  }

  function Leaves(views: seq<PolicyView>, a: Action): (r: seq<PolicyView>)
    ensures forall v :: v in r <==> v in views && IsLeaf(v, a)
  {
    LeavesIn(views, ActionDigest(a))
  }

  function EndReasons(end: WalkEnd): set<Reason> {
    match end
    case AtRoot => {}
    case Cycle => {ChainCycle}
    case Missing => {ParentAbsent}
    case Ambiguous => {ChainAmbiguous}
  }

  /** Everything `evaluate` objects to in a complete chain, statuses aside. */
  function ChainReasons(skew: nat, t: Time, a: Action, ch: seq<PolicyView>): set<Reason>
    requires ch != []
  {
    UpToPolicy(ch, |ch|) + ShapeReasons(ch) + AuthorityReasons(ch)
    + UpToPosition(skew, t, ch, |ch|) + RequestReasons(ch, a)
  }

  /** The verdict on a complete chain. */
  ghost function ChainVerdict(cfg: Config, t: Time, statuses: set<Status>, a: Action, ch: seq<PolicyView>): Evaluation
    requires ch != []
  {
    var rel := Relevant(statuses, ch[0].handoff.lineage);
    var reasons := ChainReasons(cfg.skew, t, a, ch) + StatusReasons(rel, ch, t);
    match Controlling(rel)
    case None => PauseFor(reasons)
    case Some(st) =>
      if reasons != {} then Pause(reasons)
      else if Expiry(cfg.ttl, t, st, ch) <= t then Pause({Expired})
      else Allow(GrantFor(cfg.ttl, t, st, ch))
  }

  /** The meaning of `evaluate`. */
  ghost function Verdict(cfg: Config, input: Input, a: Action, tool: Id): Evaluation {
    var early := EarlyReasons(cfg, input, a, tool);
    if early != {} then Pause(early)
    else
      var leaves := Leaves(input.views, a);
      if leaves == [] then Pause({LeafMissing})
      else if |leaves| != 1 then Pause({LeafAmbiguous})
      else
        assert leaves[0] in input.views;
        var (up, end) := WalkUp(input.views, leaves[0], {});
        if end != AtRoot then Pause(EndReasons(end))
        else
          WalkIsLinear(input.views, leaves[0], {});
          ChainVerdict(cfg, input.decisionTime, Elems(input.statuses), a, Reverse(up))
  }

  // ---------- the loops ----------

  method FindLeaves(views: seq<PolicyView>, a: Action) returns (leaves: seq<PolicyView>)
    ensures leaves == Leaves(views, a)
  {
    leaves := [];
    var k := 0;
    while k < |views|
      invariant 0 <= k <= |views|
      invariant leaves == Leaves(views[..k], a)
    {
      assert views[..k + 1][..k] == views[..k];
      if IsLeaf(views[k], a) {
        leaves := leaves + [views[k]];
      }
      k := k + 1;
    }
    assert views[..k] == views;
  }

  method CheckPolicies(ch: seq<PolicyView>) returns (reasons: set<Reason>)
    ensures reasons == UpToPolicy(ch, |ch|)
  {
    reasons := {};
    for k := 0 to |ch|
      invariant reasons == UpToPolicy(ch, k)
    {
      reasons := reasons + PolicyReasons(ch[k]);
    }
  }

  method CheckPositions(skew: nat, t: Time, ch: seq<PolicyView>) returns (reasons: set<Reason>)
    ensures reasons == UpToPosition(skew, t, ch, |ch|)
  {
    reasons := {};
    for k := 0 to |ch|
      invariant reasons == UpToPosition(skew, t, ch, k)
    {
      reasons := reasons + PositionReasons(skew, t, ch, k);
    }
  }

  method CheckChain(skew: nat, t: Time, a: Action, ch: seq<PolicyView>) returns (reasons: set<Reason>)
    requires ch != []
    ensures reasons == ChainReasons(skew, t, a, ch)
  {
    var policies := CheckPolicies(ch);
    var positions := CheckPositions(skew, t, ch);
    reasons := policies + ShapeReasons(ch) + AuthorityReasons(ch) + positions + RequestReasons(ch, a);
  }

  /** `by_version`: the lineage's distinct statuses, grouped by authority version. */
  ghost predicate ByVersion(groups: map<nat, set<Status>>, rel: set<Status>) {
    && (forall s | s in rel :: s.version in groups && s in groups[s.version])
    && (forall v, s | v in groups && s in groups[v] :: s in rel && s.version == v)
    && (forall v | v in groups :: groups[v] != {})
  }

  method GroupByVersion(statuses: seq<Status>, lineage: Lineage) returns (groups: map<nat, set<Status>>)
    ensures ByVersion(groups, Relevant(Elems(statuses), lineage))
  {
    groups := map[];
    var k := 0;
    while k < |statuses|
      invariant 0 <= k <= |statuses|
      invariant ByVersion(groups, Relevant(Elems(statuses[..k]), lineage))
    {
      var s := statuses[k];
      assert Elems(statuses[..k + 1]) == Elems(statuses[..k]) + {s} by {
        assert statuses[..k + 1] == statuses[..k] + [s];
      }
      ghost var rel := Relevant(Elems(statuses[..k]), lineage);
      assert Relevant(Elems(statuses[..k + 1]), lineage) == if s.LineageOf() == lineage then rel + {s} else rel;
      if s.LineageOf() == lineage {
        groups := groups[s.version := (if s.version in groups then groups[s.version] else {}) + {s}];
      }
      k := k + 1;
    }
    assert statuses[..k] == statuses;
  }

  method ScanVersions(groups: map<nat, set<Status>>) returns (conflict: bool, highest: nat)
    requires groups != map[]
    ensures conflict <==> exists v :: v in groups && |groups[v]| != 1
    ensures highest in groups && forall v | v in groups :: v <= highest
  {
    var versions := groups.Keys;
    highest :| highest in versions;
    conflict := |groups[highest]| != 1;
    versions := versions - {highest};
    while versions != {}
      invariant versions <= groups.Keys && highest in groups
      invariant forall v | v in groups && v !in versions :: v <= highest
      invariant conflict <==> exists v :: v in groups && v !in versions && |groups[v]| != 1
    {
      var v :| v in versions;
      conflict := conflict || |groups[v]| != 1;
      highest := if v > highest then v else highest;
      versions := versions - {v};
    }
  }

  lemma VersionsMeanConflicts(groups: map<nat, set<Status>>, rel: set<Status>)
    requires ByVersion(groups, rel)
    ensures Conflicting(rel) <==> exists v :: v in groups && |groups[v]| != 1
    ensures forall v | v in groups :: groups[v] == AtVersion(rel, v)
    ensures groups == map[] <==> rel == {}
  {
    if Conflicting(rel) {
      var a, b :| a in rel && b in rel && a != b && a.version == b.version;
      TwoMembers(groups[a.version], a, b);
    }
    if v :| v in groups && |groups[v]| != 1 {
      var a :| a in groups[v];
      assert |groups[v] - {a}| == |groups[v]| - 1;
      var b := AnotherMember(groups[v], a);
      assert a in rel && b in rel && a != b && a.version == b.version;
    }
    if groups != map[] {
      var v :| v in groups;
      var a :| a in groups[v];
    }
  }

  lemma HighestUnique(rel: set<Status>, v: nat, w: nat)
    requires IsHighest(rel, v) && IsHighest(rel, w)
    ensures v == w
  {
  }

  /** Group by version, look for conflicts, and take the highest version's only status. */
  method ChooseStatus(statuses: seq<Status>, lineage: Lineage)
    returns (found: bool, conflict: bool, controlling: Option<Status>)
    ensures var rel := Relevant(Elems(statuses), lineage);
            && found == (rel != {}) && conflict == Conflicting(rel) && controlling == Controlling(rel)
  {
    ghost var rel := Relevant(Elems(statuses), lineage);
    var groups := GroupByVersion(statuses, lineage);
    VersionsMeanConflicts(groups, rel);
    if groups == map[] {
      return false, false, None;
    }
    var highest;
    conflict, highest := ScanVersions(groups);
    assert IsHighest(rel, highest) by { var s :| s in groups[highest]; }
    HighestUnique(rel, highest, Highest(rel));
    found, controlling := true, None;
    if |groups[highest]| == 1 {
      var st :| st in groups[highest];
      Singleton(groups[highest], st);
      controlling := Some(st);
    }
  }

  method CheckStatuses(statuses: seq<Status>, ch: seq<PolicyView>, t: Time)
    returns (controlling: Option<Status>, reasons: set<Reason>)
    requires ch != []
    ensures controlling == Controlling(Relevant(Elems(statuses), ch[0].handoff.lineage))
    ensures reasons == StatusReasons(Relevant(Elems(statuses), ch[0].handoff.lineage), ch, t)
  {
    var found, conflict;
    found, conflict, controlling := ChooseStatus(statuses, ch[0].handoff.lineage);
    reasons := StatusObjections(found, conflict, controlling, ch, t);
  }

  /** `evaluate`. */
  method Evaluate(cfg: Config, input: Input, a: Action, tool: Id) returns (e: Evaluation)
    ensures e == Verdict(cfg, input, a, tool)
  {
    var early := EarlyReasons(cfg, input, a, tool);
    if early != {} {
      return Pause(early);
    }
    var filing := FileViews(input.views);
    var leaves := FindLeaves(input.views, a);
    if leaves == [] {
      return Pause({LeafMissing});
    }
    if |leaves| != 1 {
      return Pause({LeafAmbiguous});
    }
    assert leaves[0] in input.views;
    var reverse, end := WalkChain(input.views, filing, leaves[0]);
    if end != AtRoot {
      return Pause(EndReasons(end));
    }
    WalkIsLinear(input.views, leaves[0], {});
    var ch := Reverse(reverse);
    var reasons := CheckChain(cfg.skew, input.decisionTime, a, ch);
    var controlling, statusReasons := CheckStatuses(input.statuses, ch, input.decisionTime);
    reasons := reasons + statusReasons;
    if reasons != {} || controlling == None {
      return PauseFor(reasons);
    }
    if Expiry(cfg.ttl, input.decisionTime, controlling.value, ch) <= input.decisionTime {
      return Pause({Expired});
    }
    return Allow(GrantFor(cfg.ttl, input.decisionTime, controlling.value, ch));
  }
}
