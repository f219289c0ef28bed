/**
 Preparation of the gate's input from a local view, and what the gate can then no longer find
 wrong: the validator has already settled every structural question about chains.
 */
module Prepare {
  import opened Common
  import opened Model
  import opened Relation
  import opened Validation
  import opened Uniqueness
  import opened ChainWalk
  import opened PermitStore
  import opened Gate
  import opened GateLaws

  /** The messages of a local observation are its unique evidence. */
  datatype LocalView = LocalView(
    verifier: Id, evidenceStore: Id, permitStore: Id, decisionTime: Time, messages: seq<Message>, legacyPermits: bool)

  datatype Snapshot = Snapshot(storeId: Id, capturedAt: Time, state: State)

  /** Everything that is registered in advance. */
  datatype Registries = Registries(
    keys: map<Id, TrustedKey>, stores: map<Id, StoreBinding>, verifiers: map<Id, VerifierBinding>,
    statusStores: map<Id, set<Id>>, skew: nat)
  {
    function EnvironmentAt(cutoff: Time): Environment {
      Environment(keys, stores, cutoff, skew)
    }

    predicate Bound(v: LocalView) {
      && v.verifier in verifiers
      && verifiers[v.verifier].evidenceStore == v.evidenceStore && verifiers[v.verifier].permitStore == v.permitStore
    }

    /** A status message that authenticates and comes from a store its issuer may use. */
    predicate Authentic(m: Message) {
      && m.payload.StatusPayload? && m.payload.signed.status.Valid()
      && var st := m.payload.signed.status;
         && st.issuerKey in keys && keys[st.issuerKey].principal == st.issuer && keys[st.issuerKey].forStatuses
         && m.payload.signed.signature == StatusSignature(keys[st.issuerKey].publicKey, st)
         && m.origin in statusStores && st.issuer in statusStores[m.origin]
    }
  }

  datatype PreparationError = GateError | EvidenceError

  ghost function StatusesIn(reg: Registries, ms: set<Message>): set<Status> {
    set m | m in ms && m.kind == AuthorityStatus && reg.Authentic(m) :: m.payload.signed.status
  }

  ghost predicate BadStatus(reg: Registries, ms: set<Message>) {
    exists m :: m in ms && m.kind == AuthorityStatus && !reg.Authentic(m)
  }

  ghost function PreparationReasons(v: LocalView, reg: Registries, issues: set<Issue>): set<PrepReason> {
    (if reg.Bound(v) then {} else {VerifierUnbound})
    + (if v.legacyPermits then {LegacyPermitState} else {})
    + IssueReasons(issues)
    + (if BadStatus(reg, Elems(v.messages)) then {StatusInvalid} else {})
  }

  function IssueReasons(issues: set<Issue>): set<PrepReason> {
    set i | i in issues :: EvidenceIssue(i.code)
  }

  /**
   The input that preparation may hand to the gate. The source sorts the views by their neutral
   digests and the statuses by theirs; any order of either is covered here.
   */
  ghost predicate PreparedFrom(v: LocalView, reg: Registries, snap: Snapshot, views: set<PolicyView>, issues: set<Issue>, input: Input) {
    && snap.storeId == v.permitStore && snap.capturedAt == v.decisionTime
    && input.verifier == v.verifier && input.evidenceStore == v.evidenceStore && input.permitStore == v.permitStore
    && input.decisionTime == v.decisionTime && input.revision == snap.state.revision
    && Elems(input.views) == views && OnePerInteraction(input.views)
    && Elems(input.statuses) == StatusesIn(reg, Elems(v.messages))
    && input.reasons == PreparationReasons(v, reg, issues)
  }

  ghost predicate IsPrepared(v: LocalView, rep: Representation, reg: Registries, snap: Snapshot, input: Input) {
    var env := reg.EnvironmentAt(v.decisionTime);
    && !Raises(rep, env, Elems(v.messages))
    && PreparedFrom(v, reg, snap, ViewsOf(rep, env, Elems(v.messages)), IssuesOf(rep, env, Elems(v.messages)), input)
  }

  method CollectStatuses(messages: seq<Message>, reg: Registries) returns (statuses: seq<Status>, bad: bool)
    ensures Elems(statuses) == StatusesIn(reg, Elems(messages)) && bad == BadStatus(reg, Elems(messages))
  {
    statuses, bad := [], false;
    var k := 0;
    while k < |messages|
      invariant 0 <= k <= |messages|
      invariant forall st :: st in statuses <==> st in StatusesIn(reg, Elems(messages[..k]))
      invariant bad <==> exists m :: m in messages[..k] && m.kind == AuthorityStatus && !reg.Authentic(m)
    {
      var m := messages[k];
      assert messages[..k + 1] == messages[..k] + [m];
      if m.kind == AuthorityStatus {
        if reg.Authentic(m) {
          statuses := statuses + [m.payload.signed.status];
        } else {
          bad := true;
        }
      }
      k := k + 1;
    }
    assert messages[..k] == messages;
  }

  method ViewsOfReport(handoffs: seq<ValidatedHandoff>) returns (views: seq<PolicyView>)
    requires forall j, k | 0 <= j < k < |handoffs| ::
               handoffs[j].candidate.handoff.interaction < handoffs[k].candidate.handoff.interaction
    ensures OnePerInteraction(views)
    ensures Elems(views) == set h | h in handoffs :: h.View()
  {
    views := [];
    for k := 0 to |handoffs|
      invariant |views| == k && forall j | 0 <= j < k :: views[j] == handoffs[j].View()
    {
      views := views + [handoffs[k].View()];
    }
    forall h | h in handoffs
      ensures h.View() in views
    {
      var k :| 0 <= k < |handoffs| && handoffs[k] == h;
      assert views[k] == h.View();
    }
  }

  /** The validator's views and issues, representation and provenance left behind. */
  method ValidatedViews(messages: seq<Message>, rep: Representation, env: Environment)
    returns (r: Result<(seq<PolicyView>, set<Issue>), PreparationError>)
    ensures r.Err? <==> Raises(rep, env, Elems(messages))
    ensures r.Ok? ==> Elems(r.value.0) == ViewsOf(rep, env, Elems(messages)) && OnePerInteraction(r.value.0)
    ensures r.Ok? ==> r.value.1 == IssuesOf(rep, env, Elems(messages))
  {
    var report := ValidateObservation(messages, rep, env);
    if report.Err? {
      return Err(EvidenceError);
    }
    var views := ViewsOfReport(report.value.handoffs);
    return Ok((views, report.value.issues));
  }

  method Assemble(v: LocalView, reg: Registries, snap: Snapshot, views: seq<PolicyView>, issues: set<Issue>)
    returns (input: Input)
    requires snap.storeId == v.permitStore && snap.capturedAt == v.decisionTime && OnePerInteraction(views)
    ensures PreparedFrom(v, reg, snap, Elems(views), issues, input)
  {
    var statuses, bad := CollectStatuses(v.messages, reg);
    var reasons := (if reg.Bound(v) then {} else {VerifierUnbound})
                   + (if v.legacyPermits then {LegacyPermitState} else {})
                   + IssueReasons(issues)
                   + (if bad then {StatusInvalid} else {});
    return Input(v.verifier, v.evidenceStore, v.permitStore, v.decisionTime, views, statuses, snap.state.revision, reasons);
  }

  /** `prepare_common_gate_input`. */
  method PrepareCommonGateInput(v: LocalView, rep: Representation, reg: Registries, snap: Snapshot)
    returns (r: Result<Input, PreparationError>)
    ensures r.Ok? ==> IsPrepared(v, rep, reg, snap, r.value)
    ensures r.Err? <==> snap.storeId != v.permitStore || snap.capturedAt != v.decisionTime
                        || Raises(rep, reg.EnvironmentAt(v.decisionTime), Elems(v.messages))
    ensures r.Err? ==> (r.error == GateError <==> snap.storeId != v.permitStore || snap.capturedAt != v.decisionTime)
  {
    if snap.storeId != v.permitStore || snap.capturedAt != v.decisionTime {
      return Err(GateError);
    }
    var validated := ValidatedViews(v.messages, rep, reg.EnvironmentAt(v.decisionTime));
    if validated.Err? {
      return Err(EvidenceError);
    }
    var input := Assemble(v, reg, snap, validated.value.0, validated.value.1);
    return Ok(input);
  }

  // ---------- what preparation lets through, and what it objects to ----------

  /** The message carries this status, in form, signed with a key its issuer registered for statuses, from the issuer's store. */
  predicate StatusSigned(reg: Registries, m: Message, st: Status) {
    && m.payload.StatusPayload? && m.payload.signed.status == st
    && 1 <= st.version <= 9_007_199_254_740_991 && st.issuedAt < st.freshUntil
    && st.issuerKey in reg.keys && reg.keys[st.issuerKey].principal == st.issuer && reg.keys[st.issuerKey].forStatuses
    && m.payload.signed.signature == StatusSignature(reg.keys[st.issuerKey].publicKey, st)
    && m.origin in reg.statusStores && st.issuer in reg.statusStores[m.origin]
  }

  lemma AuthenticMeaning(reg: Registries, m: Message, st: Status)
    ensures reg.Authentic(m) && m.payload.signed.status == st <==> StatusSigned(reg, m, st)
  {
  }

  /** The statuses the gate sees are the signed ones in the view, and each of its prior reasons has its one cause. */
  lemma PreparedMeaning(v: LocalView, rep: Representation, reg: Registries, snap: Snapshot, input: Input, reason: PrepReason)
    requires IsPrepared(v, rep, reg, snap, input)
    ensures forall st :: st in input.statuses <==>
              exists m | m in v.messages :: m.kind == AuthorityStatus && StatusSigned(reg, m, st)
    ensures reason in input.reasons <==>
            PriorReason(reason, v, reg, IssuesOf(rep, reg.EnvironmentAt(v.decisionTime), Elems(v.messages)))
  {
    forall st
      ensures st in input.statuses <==> exists m | m in v.messages :: m.kind == AuthorityStatus && StatusSigned(reg, m, st)
    {
      StatusesSeen(v, reg, input.statuses, st);
    }
    PriorReasons(reason, v, reg, IssuesOf(rep, reg.EnvironmentAt(v.decisionTime), Elems(v.messages)));
  }

  /** Why preparation itself would have the gate pause. */
  ghost predicate PriorReason(reason: PrepReason, v: LocalView, reg: Registries, issues: set<Issue>) {
    match reason
    case VerifierUnbound =>
      v.verifier !in reg.verifiers || reg.verifiers[v.verifier].evidenceStore != v.evidenceStore
      || reg.verifiers[v.verifier].permitStore != v.permitStore
    case LegacyPermitState => v.legacyPermits
    case StatusInvalid => exists m | m in v.messages :: m.kind == AuthorityStatus && forall st :: !StatusSigned(reg, m, st)
    case EvidenceIssue(code) => exists i | i in issues :: i.code == code
  }

  lemma PriorReasons(reason: PrepReason, v: LocalView, reg: Registries, issues: set<Issue>)
    ensures reason in PreparationReasons(v, reg, issues) <==> PriorReason(reason, v, reg, issues)
  {
    BadStatusMeaning(reg, v.messages);
  }

  lemma StatusesSeen(v: LocalView, reg: Registries, statuses: seq<Status>, st: Status)
    requires Elems(statuses) == StatusesIn(reg, Elems(v.messages))
    ensures st in statuses <==> exists m | m in v.messages :: m.kind == AuthorityStatus && StatusSigned(reg, m, st)
  {
    assert st in statuses <==> st in StatusesIn(reg, Elems(v.messages));
    if m :| m in v.messages && m.kind == AuthorityStatus && StatusSigned(reg, m, st) {
      AuthenticMeaning(reg, m, st);
      assert m in Elems(v.messages) && reg.Authentic(m);
    }
    if st in StatusesIn(reg, Elems(v.messages)) {
      var m :| m in Elems(v.messages) && m.kind == AuthorityStatus && reg.Authentic(m) && m.payload.signed.status == st;
      AuthenticMeaning(reg, m, st);
    }
  }

  lemma BadStatusMeaning(reg: Registries, messages: seq<Message>)
    ensures BadStatus(reg, Elems(messages)) <==>
            exists m | m in messages :: m.kind == AuthorityStatus && forall st :: !StatusSigned(reg, m, st)
  {
    forall m: Message
      ensures reg.Authentic(m) <==> exists st :: StatusSigned(reg, m, st)
    {
      if reg.Authentic(m) {
        AuthenticMeaning(reg, m, m.payload.signed.status);
      }
      if st :| StatusSigned(reg, m, st) {
        AuthenticMeaning(reg, m, st);
      }
    }
  }

  // ---------- the structural theorem ----------

  function ViewAt(rep: Representation, c: Candidates, i: Id): PolicyView
    requires i in c
  {
    ValidatedHandoff(rep, c[i]).View()
  }

  ghost function PathViews(rep: Representation, c: Candidates, path: seq<Id>): (ch: seq<PolicyView>)
    requires forall k | 0 <= k < |path| :: path[k] in c
    ensures |ch| == |path| && forall k | 0 <= k < |path| :: ch[k] == ViewAt(rep, c, path[k])
  {
    seq(|path|, k requires 0 <= k < |path| => ViewAt(rep, c, path[k]))
  }

  /** The emitted ancestry of a view is a linear chain among the emitted views. */
  lemma RootedPathIsLinear(rep: Representation, c: Candidates, skew: nat, ids: set<Id>, views: seq<PolicyView>, path: seq<Id>)
    requires Keyed(c) && RootedPath(c, skew, path) && OnePerInteraction(views)
    requires ids <= c.Keys && forall k | 0 <= k < |path| :: path[k] in ids
    requires forall i | i in ids :: ViewAt(rep, c, i) in views
    ensures LinearIn(views, PathViews(rep, c, path))
  {
    var ch := PathViews(rep, c, path);
    forall j, k | 0 <= j < |ch| && k == j + 1 < |ch|
      ensures Linked(views, ch[j], ch[k])
    {
      assert c[path[k]].handoff.previous == Some(path[k - 1]);
      FiledAlone(views, ch[j]);
    }
  }

  /** What the gate finds wrong with chains by itself, as opposed to inheriting it from preparation. */
  predicate Structural(r: Reason) {
    match r
    case ChainCycle | ParentAbsent | ChainAmbiguous | RootNotDelegation | IntermediateNotDelegation | LeafNotActionIntent
       | PartyContinuityBroken | SenderUnauthenticated | ReceiverUnauthenticated | ParentRelationInvalid | EquivocationSeen => true
    case _ => false
  }

  lemma {:induction false} PoliciesLack(r: Reason, ch: seq<PolicyView>, n: nat)
    requires Structural(r) && n <= |ch|
    requires forall k | 0 <= k < |ch| ::
               ch[k].senderAuthenticated && ch[k].receiverAuthenticated && ch[k].parentValid && ch[k].conflictFree
    ensures r !in UpToPolicy(ch, n)
    decreases n
  {
    if n > 0 {
      PoliciesLack(r, ch, n - 1);
    }
  }

  lemma PositionLacks(r: Reason, skew: nat, t: Time, ch: seq<PolicyView>, k: nat)
    requires Structural(r) && k < |ch| && (k > 0 ==> ch[k - 1].handoff.receiver == ch[k].handoff.sender)
    ensures r !in PositionReasons(skew, t, ch, k)
  {
  }

  lemma {:induction false} PositionsLack(r: Reason, skew: nat, t: Time, ch: seq<PolicyView>, n: nat)
    requires Structural(r) && n <= |ch|
    requires forall j, k | 0 <= j < |ch| && k == j + 1 < |ch| :: ch[j].handoff.receiver == ch[k].handoff.sender
    ensures r !in UpToPosition(skew, t, ch, n)
    decreases n
  {
    if n > 0 {
      PositionsLack(r, skew, t, ch, n - 1);
      PositionLacks(r, skew, t, ch, n - 1);
    }
  }

  lemma RootedShape(rep: Representation, c: Candidates, skew: nat, path: seq<Id>)
    requires RootedPath(c, skew, path)
    ensures var ch := PathViews(rep, c, path);
            && (forall j, k | 0 <= j < |ch| && k == j + 1 < |ch| ::
                  ch[j].handoff.receiver == ch[k].handoff.sender && ch[j].handoff.event == Delegation)
            && (ch[|ch| - 1].handoff.event == ActionIntent ==> ShapeReasons(ch) == {})
  {
    var ch := PathViews(rep, c, path);
    forall j, k | 0 <= j < |ch| && k == j + 1 < |ch|
      ensures ch[j].handoff.receiver == ch[k].handoff.sender && ch[j].handoff.event == Delegation
    {
      assert LinkFailure(c[path[k - 1]], c[path[k]], skew) == None;
    }
    forall k | 0 <= k < |ch| - 1
      ensures ch[k].handoff.event == Delegation
    {
      assert ch[k].handoff.receiver == ch[k + 1].handoff.sender;
    }
  }

  lemma ChainLacks(r: Reason, skew: nat, t: Time, a: Action, rep: Representation, c: Candidates, skew': nat, path: seq<Id>)
    requires Structural(r) && RootedPath(c, skew', path) && IsLeaf(PathViews(rep, c, path)[|path| - 1], a)
    ensures r !in ChainReasons(skew, t, a, PathViews(rep, c, path))
  {
    var ch := PathViews(rep, c, path);
    RootedShape(rep, c, skew', path);
    PoliciesLack(r, ch, |ch|);
    PositionsLack(r, skew, t, ch, |ch|);
    OthersLack(r, a, ch);
    NoneOf(r, UpToPolicy(ch, |ch|), ShapeReasons(ch), AuthorityReasons(ch), UpToPosition(skew, t, ch, |ch|), RequestReasons(ch, a));
  }

  lemma OthersLack(r: Reason, a: Action, ch: seq<PolicyView>)
    requires Structural(r) && ch != []
    ensures r !in AuthorityReasons(ch) && r !in RequestReasons(ch, a)
  {
  }

  lemma NoneOf(r: Reason, a: set<Reason>, b: set<Reason>, c: set<Reason>, d: set<Reason>, e: set<Reason>)
    requires r !in a && r !in b && r !in c && r !in d && r !in e
    ensures r !in a + b + c + d + e
  {
  }

  lemma ControlLacks(r: Reason, st: Status, ch: seq<PolicyView>, t: Time)
    requires Structural(r) && ch != []
    ensures r !in ControlReasons(st, ch, t)
  {
  }

  lemma ObjectionsLack(r: Reason, found: bool, conflict: bool, controlling: Option<Status>, ch: seq<PolicyView>, t: Time)
    requires Structural(r) && ch != []
    ensures r !in StatusObjections(found, conflict, controlling, ch, t)
  {
    if controlling.Some? {
      ControlLacks(r, controlling.value, ch, t);
    }
  }

  lemma VerdictLacks(r: Reason, cfg: Config, t: Time, statuses: set<Status>, a: Action, ch: seq<PolicyView>)
    requires Structural(r) && ch != [] && r !in ChainReasons(cfg.skew, t, a, ch)
    ensures var e := ChainVerdict(cfg, t, statuses, a, ch); e.Pause? ==> r !in e.reasons
  {
    var rel := Relevant(statuses, ch[0].handoff.lineage);
    ObjectionsLack(r, rel != {}, Conflicting(rel), Controlling(rel), ch, t);
    if ChainVerdict(cfg, t, statuses, a, ch).Pause? {
      ChainVerdictPauses(cfg, t, statuses, a, ch);
    }
  }

  lemma EarlyLacks(r: Reason, cfg: Config, input: Input, a: Action, tool: Id)
    requires Structural(r)
    ensures r !in EarlyReasons(cfg, input, a, tool)
  {
  }

  lemma LeafChain(v: LocalView, rep: Representation, reg: Registries, snap: Snapshot, input: Input, leaf: PolicyView)
    returns (c: Candidates, path: seq<Id>)
    requires IsPrepared(v, rep, reg, snap, input) && leaf in input.views
    ensures RootedPath(c, reg.skew, path)
    ensures var ch := PathViews(rep, c, path); LinearIn(input.views, ch) && ch[|ch| - 1] == leaf
  {
    var env, ms := reg.EnvironmentAt(v.decisionTime), Elems(v.messages);
    c := CandidatesOf(rep, env, ms);
    CandidatesKeyed(rep, env, ms);
    assert leaf in Elems(input.views);
    var i := leaf.handoff.interaction;
    path := EmittedIsRooted(c, InvalidOf(rep, env, ms), env.skew, i);
    forall j | j in EmittedIds(rep, env, ms)
      ensures ViewAt(rep, c, j) in input.views
    {
      assert ViewAt(rep, c, j) in Elems(input.views);
    }
    RootedPathIsLinear(rep, c, reg.skew, EmittedIds(rep, env, ms), input.views, path);
  }

  /** Walking up from the leaf reaches a root, and the verdict on the chain does not object with `r`. */
  ghost predicate LeafLacks(r: Reason, cfg: Config, input: Input, a: Action, leaf: PolicyView)
    requires leaf in input.views
  {
    var (up, end) := WalkUp(input.views, leaf, {});
    && end == AtRoot && up != []
    && var e := ChainVerdict(cfg, input.decisionTime, Elems(input.statuses), a, Reverse(up));
       e.Pause? ==> r !in e.reasons
  }

  lemma LeafVerdictLacks(r: Reason, v: LocalView, rep: Representation, reg: Registries, snap: Snapshot, input: Input,
                         cfg: Config, a: Action, leaf: PolicyView)
    requires Structural(r) && IsPrepared(v, rep, reg, snap, input) && leaf in input.views && IsLeaf(leaf, a)
    ensures LeafLacks(r, cfg, input, a, leaf)
  {
    var c, path := LeafChain(v, rep, reg, snap, input, leaf);
    var ch := PathViews(rep, c, path);
    WalkFindsTheChain(input.views, leaf, ch);
    ChainLacks(r, cfg.skew, input.decisionTime, a, rep, c, reg.skew, path);
    VerdictLacks(r, cfg, input.decisionTime, Elems(input.statuses), a, ch);
  }

  lemma LeavesSettleVerdict(r: Reason, cfg: Config, input: Input, a: Action, tool: Id)
    requires Structural(r)
    requires forall leaf | leaf in input.views && IsLeaf(leaf, a) :: LeafLacks(r, cfg, input, a, leaf)
    ensures Verdict(cfg, input, a, tool).Pause? ==> r !in Verdict(cfg, input, a, tool).reasons
  {
    EarlyLacks(r, cfg, input, a, tool);
    VerdictCases(cfg, input, a, tool);
    var leaves := Leaves(input.views, a);
    if |leaves| == 1 {
      assert leaves[0] in leaves;
      assert LeafLacks(r, cfg, input, a, leaves[0]);
    }
  }

  /**
   For every input the preparer can build, whatever the gate objects to is not structural: no
   missing, ambiguous or cyclic parent, no misplaced event type, no broken handover.
   */
  lemma StructureIsSettled(r: Reason, v: LocalView, rep: Representation, reg: Registries, snap: Snapshot, input: Input,
                           cfg: Config, a: Action, tool: Id)
    requires Structural(r) && IsPrepared(v, rep, reg, snap, input)
    ensures Verdict(cfg, input, a, tool).Pause? ==> r !in Verdict(cfg, input, a, tool).reasons
  {
    forall leaf | leaf in input.views && IsLeaf(leaf, a)
      ensures LeafLacks(r, cfg, input, a, leaf)
    {
      LeafVerdictLacks(r, v, rep, reg, snap, input, cfg, a, leaf);
    }
    LeavesSettleVerdict(r, cfg, input, a, tool);
  }

  lemma SharedKeySharedView(v: LocalView, rep: Representation, reg: Registries, snap: Snapshot, input: Input,
                            w: PolicyView, w': PolicyView)
    requires IsPrepared(v, rep, reg, snap, input) && w in input.views && w' in input.views
    requires w.handoff.interaction == w'.handoff.interaction || w.handoff.SenderSlot() == w'.handoff.SenderSlot()
    ensures w == w'
  {
    assert w in Elems(input.views) && w' in Elems(input.views);
    if w != w' {
      ViewsNeverCollide(rep, reg.EnvironmentAt(v.decisionTime), Elems(v.messages), w, w');
    }
  }

  lemma ObservationSource(ch: seq<PolicyView>, o: Observation) returns (w: PolicyView)
    requires o in Observations(ch)
    ensures w in ch && (o == InteractionOf(w) || o == SequenceOf(w))
  {
    w :| w in ch && (o == InteractionOf(w) || o == SequenceOf(w));
  }

  lemma SameKeySameSlot(w: PolicyView, w': PolicyView, o: Observation, o': Observation)
    requires (o == InteractionOf(w) || o == SequenceOf(w)) && (o' == InteractionOf(w') || o' == SequenceOf(w'))
    requires o.kind == o'.kind && o.key == o'.key
    ensures w.handoff.interaction == w'.handoff.interaction || w.handoff.SenderSlot() == w'.handoff.SenderSlot()
  {
  }

  lemma ObservationsAgree(v: LocalView, rep: Representation, reg: Registries, snap: Snapshot, input: Input,
                          ch: seq<PolicyView>, o: Observation, o': Observation)
    requires IsPrepared(v, rep, reg, snap, input) && forall k | 0 <= k < |ch| :: ch[k] in input.views
    requires o in Observations(ch) && o' in Observations(ch) && o.kind == o'.kind && o.key == o'.key
    ensures o.handoffId == o'.handoffId
  {
    var w := ObservationSource(ch, o);
    var w' := ObservationSource(ch, o');
    SameKeySameSlot(w, w', o, o');
    SharedKeySharedView(v, rep, reg, snap, input, w, w');
  }

  /** The observations of one prepared chain never contradict each other. */
  lemma ChainObservationsAgree(v: LocalView, rep: Representation, reg: Registries, snap: Snapshot, input: Input, ch: seq<PolicyView>)
    requires IsPrepared(v, rep, reg, snap, input)
    requires forall k | 0 <= k < |ch| :: ch[k] in input.views
    ensures Consistent(map[], Observations(ch))
  {
    forall o, o' | o in Observations(ch) && o' in Observations(ch) && o.kind == o'.kind && o.key == o'.key
      ensures o.handoffId == o'.handoffId
    {
      ObservationsAgree(v, rep, reg, snap, input, ch, o, o');
    }
  }
}
