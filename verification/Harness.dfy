/** The development driver: snapshot, prepare, authorize, consume, submit, finish, once per attempt. */
module Harness {
  import opened Common
  import opened Model
  import opened PermitStore
  import opened Gate
  import opened GateLaws
  import opened AllowConsequences
  import opened Prepare
  import opened GateRuns
  import Validation

  class SimulatedAdapter {
    var callCount: nat

    constructor ()
      ensures callCount == 0
    {
      callCount := 0;
    }

    method Submit()
      modifies this
      ensures callCount == old(callCount) + 1
    {
      callCount := callCount + 1;
    }
  }

  /** Deterministic permit ids: a counter. */
  class PermitIdFactory {
    var counter: nat

    constructor ()
      ensures counter == 0
    {
      counter := 0;
    }

    method Next() returns (id: Id)
      modifies this
      ensures counter == old(counter) + 1 && id == counter
    {
      counter := counter + 1;
      id := counter;
    }
  }

  /** A snapshot refuses to describe a store that holds permits issued after it. */
  method TakeSnapshot(store: NeutralPermitStore, capturedAt: Time) returns (r: Result<Snapshot, PreparationError>)
    ensures r.Err? <==> exists id | id in store.permits :: store.permits[id].issuedAt > capturedAt
    ensures r.Ok? ==> r.value == Snapshot(store.storeId, capturedAt, store.Contents())
  {
    var s := store.Snapshot();
    if id :| id in s.permits && s.permits[id].issuedAt > capturedAt {
      return Err(GateError);
    }
    return Ok(Snapshot(store.storeId, capturedAt, s));
  }

  // ---------- repeated preparation ----------

  /** Preparing the same view again gives the same verdict, whatever the permit store held. */
  lemma PreparationRepeats(v: LocalView, rep: Representation, reg: Registries, snap: Snapshot, snap': Snapshot,
                           input: Input, input': Input, cfg: Config, a: Action, tool: Id)
    requires IsPrepared(v, rep, reg, snap, input) && IsPrepared(v, rep, reg, snap', input')
    ensures Verdict(cfg, input, a, tool) == Verdict(cfg, input', a, tool)
    ensures input.decisionTime == input'.decisionTime == v.decisionTime
  {
    SameFactsSameVerdict(cfg, input, input', a, tool);
  }

  // ---------- one attempt ----------

  lemma ConsistentReserves(q: ReserveRequest)
    requires q.expectedRevision == 0 && q.permit.issuedAt < q.permit.expiresAt && Consistent(map[], q.observations)
    ensures ReserveStep(FRESH, q).1.Ok?
  {
    AbsorbSucceeds(map[], q.observations);
  }

  lemma AllowedGrant(v: LocalView, rep: Representation, reg: Registries, snap: Snapshot, input: Input,
                     cfg: Config, a: Action, tool: Id) returns (g: Grant)
    requires cfg.Valid() && IsPrepared(v, rep, reg, snap, input) && Verdict(cfg, input, a, tool).Allow?
    ensures Verdict(cfg, input, a, tool) == Allow(g)
    ensures Consistent(map[], g.observations) && g.expiresAt > v.decisionTime && a.amount <= MAX_SAFE_INTEGER
  {
    var ch, st := AllowAuthorised(cfg, input, a, tool);
    ExpiryAhead(cfg, input, a, tool, ch, st);
    ChainIsInView(input.views, a, ch);
    ChainObservationsAgree(v, rep, reg, snap, input, ch);
    g := GrantFor(cfg.ttl, input.decisionTime, st, ch);
  }

  /** What one attempt does to the store: nothing, or all three transactions on one new permit. */
  ghost function AttemptEffect(s: State, e: Evaluation, input: Input, a: Action, tool: Id, id: Id): (State, bool) {
    match e
    case Pause(_) => (s, false)
    case Allow(g) =>
      match ReserveStep(s, RequestFor(input, a, tool, id, g))
      case (_, Err(_)) => (s, false)
      case (s', Ok(p)) => (State(s.revision + 3, s'.observations, s'.permits[id := p.(state := Succeeded)]), true)
  }

  /** The store after the one attempt that can succeed has run its course. */
  ghost predicate Spent(s: State, key: ReplayKey, t: Time) {
    && s.revision == 3
    && KeyTaken(s.permits, key)
    && forall id | id in s.permits :: s.permits[id].issuedAt <= t
  }

  /** From a fresh store an allowed attempt goes through; after that the same action never does again. */
  lemma AttemptOutcome(s: State, e: Evaluation, input: Input, a: Action, tool: Id, id: Id)
    requires e.Allow? ==> e.grant.expiresAt > input.decisionTime && Consistent(map[], e.grant.observations)
    requires s == FRESH ==> input.revision == 0
    requires s == FRESH || (e.Allow? && Spent(s, ReplayKey(tool, e.grant.replayScope, a.nonce), input.decisionTime))
    ensures var (s', done) := AttemptEffect(s, e, input, a, tool, id);
            && (done <==> s == FRESH && e.Allow?)
            && (e.Pause? ==> s' == FRESH)
            && (e.Allow? ==> Spent(s', ReplayKey(tool, e.grant.replayScope, a.nonce), input.decisionTime))
  {
    if e.Allow? && s == FRESH {
      var q := RequestFor(input, a, tool, id, e.grant);
      ConsistentReserves(q);
      var s' := AttemptEffect(s, e, input, a, tool, id).0;
      assert id in s'.permits && s'.permits[id].Key() == ReplayKey(tool, e.grant.replayScope, a.nonce);
    }
  }

  /** A permit that was just reserved, used up at its first instant. */
  ghost predicate JustReserved(s: State, p: Permit, a: Action, tool: Id, t: Time) {
    && p.permitId in s.permits && s.permits[p.permitId] == p && p.state == Reserved
    && p.tool == tool && p.requestHash == ActionDigest(a) && p.nonce == a.nonce && p.issuedAt == t < p.expiresAt
  }

  /** Consume, submit, finish: all three happen, and the adapter acts in between. */
  method SpendGrant(cfg: Config, store: NeutralPermitStore, adapter: SimulatedAdapter, p: Permit, a: Action, tool: Id, t: Time)
    returns (consumed: bool, done: bool)
    requires a.amount <= MAX_SAFE_INTEGER && JustReserved(store.Contents(), p, a, tool, t)
    modifies store, adapter
    ensures consumed && done && adapter.callCount == old(adapter.callCount) + 1
    ensures var s := old(store.Contents());
            store.Contents() == State(s.revision + 2, s.observations, s.permits[p.permitId := p.(state := Succeeded)])
  {
    consumed, done := false, false;
    var transition := Consume(cfg, store, p.permitId, a, tool, t);
    if transition == None {
      consumed := true;
      adapter.Submit();
      done := Finish(cfg, store, p.permitId, true);
    }
  }

  lemma GrantIsReserved(e: Evaluation, s: State, input: Input, a: Action, tool: Id, id: Id)
    ensures var (s', d) := Reservation(e, s, input, a, tool, id);
            if d.Granted? then
              && JustReserved(s', d.permit, a, tool, input.decisionTime)
              && AttemptEffect(s, e, input, a, tool, id) ==
                 (State(s'.revision + 2, s'.observations, s'.permits[d.permit.permitId := d.permit.(state := Succeeded)]), true)
            else AttemptEffect(s, e, input, a, tool, id) == (s, false) && s' == s
  {
  }

  /** What follows the decision: nothing, or consume, submit and finish. */
  method ActOnDecision(cfg: Config, store: NeutralPermitStore, adapter: SimulatedAdapter, decision: GateDecision,
                       input: Input, a: Action, tool: Id, ghost e: Evaluation, ghost s: State, ghost id: Id)
    returns (granted: bool, consumed: bool, done: bool)
    requires (store.Contents(), decision) == Reservation(e, s, input, a, tool, id)
    requires e.Allow? ==> a.amount <= MAX_SAFE_INTEGER
    modifies store, adapter
    ensures (store.Contents(), granted) == AttemptEffect(s, e, input, a, tool, id)
    ensures granted == consumed == done
    ensures adapter.callCount == old(adapter.callCount) + if granted then 1 else 0
  {
    GrantIsReserved(e, s, input, a, tool, id);
    granted, consumed, done := false, false, false;
    if decision.Granted? {
      granted := true;
      consumed, done := SpendGrant(cfg, store, adapter, decision.permit, a, tool, input.decisionTime);
    }
  }

  /** One pass of the loop body after preparation. */
  method Attempt(cfg: Config, store: NeutralPermitStore, factory: PermitIdFactory, adapter: SimulatedAdapter,
                 input: Input, a: Action, tool: Id, ghost e: Evaluation)
    returns (granted: bool, consumed: bool, done: bool, ghost id: Id)
    requires e == Verdict(cfg, input, a, tool) && (e.Allow? ==> a.amount <= MAX_SAFE_INTEGER)
    modifies store, factory, adapter
    ensures (store.Contents(), granted) == AttemptEffect(old(store.Contents()), e, input, a, tool, id)
    ensures granted == consumed == done
    ensures adapter.callCount == old(adapter.callCount) + if granted then 1 else 0
  {
    ghost var s := store.Contents();
    var permitId := factory.Next();
    id := permitId;
    var decision := Authorize(cfg, store, input, a, tool, permitId);
    granted, consumed, done := ActOnDecision(cfg, store, adapter, decision, input, a, tool, e, s, id);
  }

  /** The store is not the one the view names, or the view's evidence makes validation raise. */
  ghost predicate CannotPrepare(cfg: Config, v: LocalView, rep: Representation, reg: Registries) {
    cfg.permitStore != v.permitStore || Validation.Raises(rep, reg.EnvironmentAt(v.decisionTime), Elems(v.messages))
  }

  /** The start of an attempt: snapshot the store, which holds no permit from the future, and prepare. */
  method PrepareAttempt(cfg: Config, store: NeutralPermitStore, v: LocalView, rep: Representation, reg: Registries)
    returns (r: Result<Input, PreparationError>)
    requires store.storeId == cfg.permitStore && forall id | id in store.permits :: store.permits[id].issuedAt <= v.decisionTime
    ensures r.Err? <==> CannotPrepare(cfg, v, rep, reg)
    ensures r.Ok? ==> IsPrepared(v, rep, reg, Snapshot(cfg.permitStore, v.decisionTime, store.Contents()), r.value)
  {
    var snapshot := TakeSnapshot(store, v.decisionTime);
    r := PrepareCommonGateInput(v, rep, reg, snapshot.value);
  }

  /** The rest of it: from a fresh store an allowed verdict is spent, and after that nothing more happens. */
  method PreparedAttempt(cfg: Config, store: NeutralPermitStore, factory: PermitIdFactory, adapter: SimulatedAdapter,
                         v: LocalView, rep: Representation, reg: Registries, input: Input, a: Action, tool: Id)
    returns (granted: bool, consumed: bool, done: bool)
    requires cfg.Valid() && IsPrepared(v, rep, reg, Snapshot(cfg.permitStore, v.decisionTime, store.Contents()), input)
    requires var e := Verdict(cfg, input, a, tool);
      store.Contents() == FRESH || (e.Allow? && Spent(store.Contents(), ReplayKey(tool, e.grant.replayScope, a.nonce), v.decisionTime))
    modifies store, factory, adapter
    ensures var e := Verdict(cfg, input, a, tool);
      && (granted <==> old(store.Contents()) == FRESH && e.Allow?)
      && (e.Pause? ==> store.Contents() == FRESH)
      && (e.Allow? ==> Spent(store.Contents(), ReplayKey(tool, e.grant.replayScope, a.nonce), v.decisionTime))
    ensures granted == consumed == done
    ensures adapter.callCount == old(adapter.callCount) + if granted then 1 else 0
  {
    ghost var before := store.Contents();
    ghost var e := Verdict(cfg, input, a, tool);
    if e.Allow? {
      ghost var g := AllowedGrant(v, rep, reg, Snapshot(cfg.permitStore, v.decisionTime, before), input, cfg, a, tool);
    }
    ghost var id;
    granted, consumed, done, id := Attempt(cfg, store, factory, adapter, input, a, tool, e);
    AttemptOutcome(before, e, input, a, tool, id);
  }

  datatype Tally = Tally(decisions: nat, grants: nat, transitions: nat, allowedTransitions: nat, finishes: nat, adapterCalls: nat, mutations: nat)

  /**
   The attempt loop of `_run_gate_branch` over a fresh store. However many attempts are made, the
   adapter is reached exactly when the verdict is ALLOW and at least one attempt is made, and then
   once; every grant is consumed and finished, so the store moves three revisions per grant.
   */
  method RunGateBranch(cfg: Config, v: LocalView, rep: Representation, reg: Registries, a: Action, tool: Id, attempts: nat)
    returns (r: Result<Tally, PreparationError>, ghost input: Input)
    requires cfg.Valid()
    ensures r.Ok? && attempts > 0 ==> IsPrepared(v, rep, reg, Snapshot(cfg.permitStore, v.decisionTime, FRESH), input)
    ensures r.Ok? ==>
              && r.value.decisions == attempts
              && r.value.grants == (if attempts > 0 && Verdict(cfg, input, a, tool).Allow? then 1 else 0)
              && r.value.adapterCalls == r.value.transitions == r.value.allowedTransitions == r.value.finishes == r.value.grants
              && r.value.mutations == 3 * r.value.grants
    ensures r.Err? <==> attempts > 0 && CannotPrepare(cfg, v, rep, reg)
  {
    var store := new NeutralPermitStore(cfg.permitStore);
    var factory := new PermitIdFactory();
    var adapter := new SimulatedAdapter();
    var t := v.decisionTime;
    var grants, transitions, allowedTransitions, finishes := 0, 0, 0, 0;
    input := Input(0, 0, 0, 0, [], [], 0, {});
    var k := 0;
    ghost var e := Pause({});
    while k < attempts
      invariant k <= attempts
      invariant fresh(store) && fresh(factory) && fresh(adapter) && store.storeId == cfg.permitStore
      invariant k == 0 ==> e.Pause?
      invariant k > 0 ==> !CannotPrepare(cfg, v, rep, reg)
      invariant k > 0 ==> IsPrepared(v, rep, reg, Snapshot(cfg.permitStore, t, FRESH), input) && e == Verdict(cfg, input, a, tool)
      invariant e.Pause? ==> store.Contents() == FRESH
      invariant e.Allow? ==> Spent(store.Contents(), ReplayKey(tool, e.grant.replayScope, a.nonce), t)
      invariant adapter.callCount == transitions == allowedTransitions == finishes == grants == if e.Allow? then 1 else 0
    {
      var prepared := PrepareAttempt(cfg, store, v, rep, reg);
      if prepared.Err? {
        return Err(prepared.error), input;
      }
      if k == 0 {
        input := prepared.value;
      }
      PreparationRepeats(v, rep, reg, Snapshot(cfg.permitStore, t, FRESH), Snapshot(cfg.permitStore, t, store.Contents()),
                         input, prepared.value, cfg, a, tool);
      e := Verdict(cfg, prepared.value, a, tool);
      var granted, consumed, done := PreparedAttempt(cfg, store, factory, adapter, v, rep, reg, prepared.value, a, tool);
      if granted {
        grants := grants + 1;
        transitions := transitions + 1;
        allowedTransitions := allowedTransitions + (if consumed then 1 else 0);
        finishes := finishes + (if done then 1 else 0);
      }
      k := k + 1;
    }
    r := Ok(Tally(k, grants, transitions, allowedTransitions, finishes, adapter.callCount, store.revision));
  }
}
