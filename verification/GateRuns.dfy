/**
 The gate driving its permit store: authorize, consume and finish as methods, and the safety of
 whole interleaved runs of them at the time of use.
 */
module GateRuns {
  import opened Common
  import opened Model
  import opened PermitStore
  import opened PermitRuns
  import opened Gate
  import opened GateLaws
  import opened AllowConsequences

  function RequestFor(input: Input, a: Action, tool: Id, permitId: Id, g: Grant): ReserveRequest {
    ReserveRequest(input.revision, g.observations,
                   Permit(permitId, g.leaf, g.chain, g.status, g.replayScope, ActionDigest(a), a.nonce, tool, Reserved,
                          input.decisionTime, g.expiresAt))
  }

  datatype GateDecision = Granted(permit: Permit) | Refused(reasons: set<Reason>)

  function ReserveRefusal(e: ReserveError): Reason {
    match e
    case EvidenceConflict => ConflictingHandoff
    case ReplayDetected => ReplayDetectedAtReserve
    case StateChanged => StateHasChanged
    case InvalidRequest => InternalError
  }

  /** Reserve against the snapshot's revision what an evaluation allowed. */
  function Reservation(e: Evaluation, s: State, input: Input, a: Action, tool: Id, permitId: Id): (State, GateDecision) {
    match e
    case Pause(reasons) => (s, Refused(reasons))
    case Allow(g) =>
      match ReserveStep(s, RequestFor(input, a, tool, permitId, g))
      case (s', Ok(p)) => (s', Granted(p))
      case (s', Err(error)) => (s', Refused({ReserveRefusal(error)}))
  }

  /** The meaning of `authorize`: evaluate, then reserve. */
  ghost function Authorization(cfg: Config, s: State, input: Input, a: Action, tool: Id, permitId: Id): (State, GateDecision) {
    Reservation(Verdict(cfg, input, a, tool), s, input, a, tool, permitId)
  }

  /** `consume`: an action that has no identifier cannot match any permit. */
  ghost function Consumption(s: State, permitId: Id, a: Action, tool: Id, now: Time): (State, Option<ConsumeRefusal>) {
    if a.amount > MAX_SAFE_INTEGER then (s, Some(PermitActionMismatch))
    else ConsumeStep(s, permitId, tool, ActionDigest(a), a.nonce, now)
  }

  // ---------- events and their transactions ----------

  datatype Event =
    | AuthorizeEvent(input: Input, action: Action, tool: Id, permitId: Id)
    | ConsumeEvent(permitId: Id, action: Action, tool: Id, now: Time)
    | FinishEvent(permitId: Id, succeeded: bool)

  /** The store transaction an event leads to, if it gets that far. */
  ghost function CallOf(cfg: Config, e: Event): Call {
    match e
    case AuthorizeEvent(input, a, tool, id) =>
      (match Verdict(cfg, input, a, tool)
       case Pause(_) => IdleCall
       case Allow(g) => ReserveCall(RequestFor(input, a, tool, id, g)))
    case ConsumeEvent(id, a, tool, now) =>
      if a.amount > MAX_SAFE_INTEGER then IdleCall else ConsumeCall(id, tool, ActionDigest(a), a.nonce, now)
    case FinishEvent(id, succeeded) => FinishCall(id, succeeded)
  }

  /** What an event means for the store and its caller is the effect of its transaction. */
  lemma EventsAreCalls(cfg: Config, s: State, e: Event)
    ensures match e
            case AuthorizeEvent(input, a, tool, id) =>
              && Authorization(cfg, s, input, a, tool, id).0 == Apply(s, CallOf(cfg, e))
              && (Authorization(cfg, s, input, a, tool, id).1.Granted? <==> Commits(s, CallOf(cfg, e)))
            case ConsumeEvent(id, a, tool, now) =>
              && Consumption(s, id, a, tool, now).0 == Apply(s, CallOf(cfg, e))
              && (Consumption(s, id, a, tool, now).1 == None <==> Commits(s, CallOf(cfg, e)))
            case FinishEvent(id, succeeded) =>
              && FinishStep(s, id, succeeded).0 == Apply(s, CallOf(cfg, e))
              && (FinishStep(s, id, succeeded).1 <==> Commits(s, CallOf(cfg, e)))
  {
  }

  /** What becomes of the reserve that an allowed evaluation asks for, and the reason each way for it to fail is passed on as. */
  lemma ReservationMeaning(g: Grant, s: State, input: Input, a: Action, tool: Id, id: Id)
    ensures var q, d := RequestFor(input, a, tool, id, g), Reservation(Allow(g), s, input, a, tool, id).1;
      if !WellTimed(q) then d == Refused({InternalError})
      else if s.revision != q.expectedRevision then d == Refused({StateHasChanged})
      else if !Consistent(s.observations, q.observations) then d == Refused({ConflictingHandoff})
      else if !Unused(s.permits, q.permit) then d == Refused({ReplayDetectedAtReserve})
      else d == Granted(q.permit)
  {
    ReserveMeaning(s, RequestFor(input, a, tool, id, g));
  }

  lemma CallOfAuthorize(cfg: Config, input: Input, a: Action, tool: Id, id: Id)
    ensures var e := Verdict(cfg, input, a, tool);
      CallOf(cfg, AuthorizeEvent(input, a, tool, id)) ==
      if e.Allow? then ReserveCall(RequestFor(input, a, tool, id, e.grant)) else IdleCall
  {
  }

  lemma AuthorizationReserves(cfg: Config, s: State, input: Input, a: Action, tool: Id, id: Id)
    ensures var e := Verdict(cfg, input, a, tool);
      Authorization(cfg, s, input, a, tool, id).1 ==
      if e.Allow? then Reservation(Allow(e.grant), s, input, a, tool, id).1 else Refused(e.reasons)
  {
  }

  /** An authorization is granted, or refused for exactly one reason of the store's, or for the gate's own. */
  lemma AuthorizationMeaning(cfg: Config, s: State, input: Input, a: Action, tool: Id, id: Id, q: ReserveRequest)
    requires CallOf(cfg, AuthorizeEvent(input, a, tool, id)) == ReserveCall(q)
    ensures var d := Authorization(cfg, s, input, a, tool, id).1;
      if !WellTimed(q) then d == Refused({InternalError})
      else if s.revision != q.expectedRevision then d == Refused({StateHasChanged})
      else if !Consistent(s.observations, q.observations) then d == Refused({ConflictingHandoff})
      else if !Unused(s.permits, q.permit) then d == Refused({ReplayDetectedAtReserve})
      else d == Granted(q.permit)
  {
    CallOfAuthorize(cfg, input, a, tool, id);
    AuthorizationReserves(cfg, s, input, a, tool, id);
    ReservationMeaning(Verdict(cfg, input, a, tool).grant, s, input, a, tool, id);
  }

  // ---------- the methods ----------

  /** `authorize`. */
  method Authorize(cfg: Config, store: NeutralPermitStore, input: Input, a: Action, tool: Id, permitId: Id)
    returns (d: GateDecision)
    modifies store
    ensures (store.Contents(), d) == Authorization(cfg, old(store.Contents()), input, a, tool, permitId)
    ensures store.Contents() == Apply(old(store.Contents()), CallOf(cfg, AuthorizeEvent(input, a, tool, permitId)))
  {
    EventsAreCalls(cfg, store.Contents(), AuthorizeEvent(input, a, tool, permitId));
    var e := Evaluate(cfg, input, a, tool);
    match e
    case Pause(reasons) => d := Refused(reasons);
    case Allow(g) =>
      var r := store.Reserve(RequestFor(input, a, tool, permitId, g));
      match r
      case Ok(p) => d := Granted(p);
      case Err(error) => d := Refused({ReserveRefusal(error)});
  }

  /** `consume`. */
  method Consume(cfg: Config, store: NeutralPermitStore, permitId: Id, a: Action, tool: Id, now: Time)
    returns (r: Option<ConsumeRefusal>)
    modifies store
    ensures (store.Contents(), r) == Consumption(old(store.Contents()), permitId, a, tool, now)
    ensures store.Contents() == Apply(old(store.Contents()), CallOf(cfg, ConsumeEvent(permitId, a, tool, now)))
  {
    EventsAreCalls(cfg, store.Contents(), ConsumeEvent(permitId, a, tool, now));
    if a.amount > MAX_SAFE_INTEGER {
      return Some(PermitActionMismatch);
    }
    r := store.Consume(permitId, tool, ActionDigest(a), a.nonce, now);
  }

  /** `finish`. */
  method Finish(cfg: Config, store: NeutralPermitStore, permitId: Id, succeeded: bool) returns (done: bool)
    modifies store
    ensures (store.Contents(), done) == FinishStep(old(store.Contents()), permitId, succeeded)
    ensures store.Contents() == Apply(old(store.Contents()), CallOf(cfg, FinishEvent(permitId, succeeded)))
  {
    EventsAreCalls(cfg, store.Contents(), FinishEvent(permitId, succeeded));
    done := store.Finish(permitId, succeeded);
  }

  // ---------- runs ----------

  ghost function CallsOf(cfg: Config, events: seq<Event>): (calls: seq<Call>)
    ensures |calls| == |events| && forall k | 0 <= k < |events| :: calls[k] == CallOf(cfg, events[k])
  {
    seq(|events|, k requires 0 <= k < |events| => CallOf(cfg, events[k]))
  }

  /** The event succeeds: a permit is granted, a consume allows, a finish reports true. */
  ghost predicate Allowed(cfg: Config, events: seq<Event>, n: nat)
    requires n < |events|
  {
    Commits(After(FRESH, CallsOf(cfg, events), n), CallsOf(cfg, events)[n])
  }

  /** Everything the chain and its status promised still holds at the instant `now`. */
  ghost predicate InForce(cfg: Config, input: Input, ch: seq<PolicyView>, st: Status, now: Time) {
    && (forall k | 0 <= k < |ch| :: ch[k].handoff.scope.notBefore <= now < ch[k].handoff.scope.notAfter)
    && st.issuedAt <= now < st.freshUntil
    && input.decisionTime <= now < input.decisionTime + cfg.ttl
  }

  lemma LiveExpiryInForce(cfg: Config, input: Input, a: Action, tool: Id, ch: seq<PolicyView>, st: Status, now: Time)
    requires Authorised(cfg, input, a, tool, ch, st)
    requires input.decisionTime <= now < Expiry(cfg.ttl, input.decisionTime, st, ch)
    ensures InForce(cfg, input, ch, st, now)
  {
  }

  lemma ReservesAreAuthorized(cfg: Config, e: Event)
    requires CallOf(cfg, e).ReserveCall?
    ensures e.AuthorizeEvent? && Verdict(cfg, e.input, e.action, e.tool).Allow?
    ensures CallOf(cfg, e).request == RequestFor(e.input, e.action, e.tool, e.permitId, Verdict(cfg, e.input, e.action, e.tool).grant)
  {
  }

  lemma ConsumesAreActions(cfg: Config, e: Event)
    requires e.ConsumeEvent? && CallOf(cfg, e) != IdleCall
    ensures CallOf(cfg, e) == ConsumeCall(e.permitId, e.tool, ActionDigest(e.action), e.action.nonce, e.now)
  {
  }

  /** What a permit for this action under the authority of this chain uses up. */
  function ReplayKeyOf(ch: seq<PolicyView>, a: Action, tool: Id): ReplayKey
    requires ch != []
  {
    ReplayKey(tool, ReplayScopeDigest(ch[0].handoff.lineage, ch[0].handoff.version), a.nonce)
  }

  /**
   Time of use: whenever a consume is allowed, in any interleaved run, an earlier authorization
   allowed this very action for this very tool, and at the instant of use every scope of its chain
   is open, its status is still fresh, and less than a permit lifetime has passed.
   */
  lemma TimeOfUse(cfg: Config, events: seq<Event>, n: nat) returns (m: nat, ch: seq<PolicyView>, st: Status)
    requires n < |events| && events[n].ConsumeEvent? && Allowed(cfg, events, n)
    ensures m < n && events[m].AuthorizeEvent? && Allowed(cfg, events, m)
    ensures events[m].action == events[n].action && events[m].tool == events[n].tool && events[m].permitId == events[n].permitId
    ensures Authorised(cfg, events[m].input, events[n].action, events[n].tool, ch, st)
    ensures InForce(cfg, events[m].input, ch, st, events[n].now)
    ensures ConsumesKey(CallsOf(cfg, events), n, ReplayKeyOf(ch, events[n].action, events[n].tool))
  {
    var calls := CallsOf(cfg, events);
    ConsumesAreActions(cfg, events[n]);
    m := ConsumesAreReserved(calls, n);
    ReservesAreAuthorized(cfg, events[m]);
    ch, st := AllowAuthorised(cfg, events[m].input, events[m].action, events[m].tool);
    LiveExpiryInForce(cfg, events[m].input, events[m].action, events[m].tool, ch, st, events[n].now);
  }

  /**
   A second use needs new authority: if two consumes of one run are allowed for the same tool and
   nonce, the chains that authorised them stand under different lineages or versions.
   */
  lemma SecondUseNeedsNewAuthority(cfg: Config, events: seq<Event>, i: nat, j: nat)
    returns (m: nat, ch: seq<PolicyView>, st: Status, m': nat, ch': seq<PolicyView>, st': Status)
    requires i < |events| && events[i].ConsumeEvent? && Allowed(cfg, events, i)
    requires j < |events| && events[j].ConsumeEvent? && Allowed(cfg, events, j)
    requires i != j && events[i].tool == events[j].tool && events[i].action.nonce == events[j].action.nonce
    ensures m < i && m' < j && events[m].AuthorizeEvent? && events[m'].AuthorizeEvent?
    ensures Authorised(cfg, events[m].input, events[i].action, events[i].tool, ch, st)
    ensures Authorised(cfg, events[m'].input, events[j].action, events[j].tool, ch', st')
    ensures (ch[0].handoff.lineage, ch[0].handoff.version) != (ch'[0].handoff.lineage, ch'[0].handoff.version)
  {
    m, ch, st := TimeOfUse(cfg, events, i);
    m', ch', st' := TimeOfUse(cfg, events, j);
    if (ch[0].handoff.lineage, ch[0].handoff.version) == (ch'[0].handoff.lineage, ch'[0].handoff.version) {
      ConsumedOnce(CallsOf(cfg, events), i, j, ReplayKeyOf(ch, events[i].action, events[i].tool));
      assert false;
    }
  }

  /** Authorize and consume an action on one input, then again on another. */
  function TwoUses(input: Input, id: Id, now: Time, input': Input, id': Id, now': Time, a: Action, tool: Id): seq<Event> {
    [AuthorizeEvent(input, a, tool, id), ConsumeEvent(id, a, tool, now),
     AuthorizeEvent(input', a, tool, id'), ConsumeEvent(id', a, tool, now')]
  }

  lemma OneUseIsOneRound(cfg: Config, input: Input, id: Id, now: Time, a: Action, tool: Id, g: Grant)
    requires Verdict(cfg, input, a, tool) == Allow(g) && a.amount <= MAX_SAFE_INTEGER
    ensures CallOf(cfg, AuthorizeEvent(input, a, tool, id)) == ReserveCall(RequestFor(input, a, tool, id, g))
    ensures CallOf(cfg, ConsumeEvent(id, a, tool, now)) == ConsumeOf(RequestFor(input, a, tool, id, g).permit, now)
  {
  }

  lemma SameFour(calls: seq<Call>, calls': seq<Call>)
    requires |calls| == |calls'| == 4
    requires calls[0] == calls'[0] && calls[1] == calls'[1] && calls[2] == calls'[2] && calls[3] == calls'[3]
    ensures calls == calls'
  {
  }

  lemma TwoUsesAreTwoRounds(cfg: Config, input: Input, id: Id, now: Time, input': Input, id': Id, now': Time,
                            a: Action, tool: Id, g: Grant, g': Grant)
    requires Verdict(cfg, input, a, tool) == Allow(g) && Verdict(cfg, input', a, tool) == Allow(g')
    requires a.amount <= MAX_SAFE_INTEGER
    ensures CallsOf(cfg, TwoUses(input, id, now, input', id', now', a, tool)) ==
            TwoRounds(RequestFor(input, a, tool, id, g), now, RequestFor(input', a, tool, id', g'), now')
  {
    OneUseIsOneRound(cfg, input, id, now, a, tool, g);
    OneUseIsOneRound(cfg, input', id', now', a, tool, g');
    SameFour(CallsOf(cfg, TwoUses(input, id, now, input', id', now', a, tool)),
             TwoRounds(RequestFor(input, a, tool, id, g), now, RequestFor(input', a, tool, id', g'), now'));
  }

  /**
   And new authority is enough: given two inputs on which the gate allows the same action, whose
   chains do not contradict each other, both uses go through, one after the other, if and only if
   the chains stand under different lineages or versions. A version bump re-opens a spent nonce.
   */
  lemma NewAuthorityReopensTheAction(
    cfg: Config, input: Input, id: Id, now: Time, input': Input, id': Id, now': Time, a: Action, tool: Id,
    ch: seq<PolicyView>, st: Status, ch': seq<PolicyView>, st': Status)
    requires cfg.Valid() && Authorised(cfg, input, a, tool, ch, st) && Authorised(cfg, input', a, tool, ch', st')
    requires input.revision == 0 && input'.revision == 2 && id != id'
    requires input.decisionTime <= now < Expiry(cfg.ttl, input.decisionTime, st, ch)
    requires input'.decisionTime <= now' < Expiry(cfg.ttl, input'.decisionTime, st', ch')
    requires Consistent(map[], Observations(ch) + Observations(ch'))
    ensures var events := TwoUses(input, id, now, input', id', now', a, tool);
      (forall n | 0 <= n < 4 :: Allowed(cfg, events, n)) <==>
        (ch[0].handoff.lineage, ch[0].handoff.version) != (ch'[0].handoff.lineage, ch'[0].handoff.version)
  {
    AuthorisedAllows(cfg, input, a, tool, ch, st);
    AuthorisedAllows(cfg, input', a, tool, ch', st');
    var g, g' := GrantFor(cfg.ttl, input.decisionTime, st, ch), GrantFor(cfg.ttl, input'.decisionTime, st', ch');
    var q, q' := RequestFor(input, a, tool, id, g), RequestFor(input', a, tool, id', g');
    TwoUsesAreTwoRounds(cfg, input, id, now, input', id', now', a, tool, g, g');
    SecondRoundNeedsNewScope(q, now, q', now');
    FourAllowed(cfg, TwoUses(input, id, now, input', id', now', a, tool), TwoRounds(q, now, q', now'));
  }

  lemma FourAllowed(cfg: Config, events: seq<Event>, calls: seq<Call>)
    requires |events| == |calls| == 4 && CallsOf(cfg, events) == calls
    ensures (forall n | 0 <= n < 4 :: Allowed(cfg, events, n)) <==>
              (forall n | 0 <= n < 4 :: Commits(After(FRESH, calls, n), calls[n]))
  {
    assert forall n | 0 <= n < 4 :: Allowed(cfg, events, n) == Commits(After(FRESH, calls, n), calls[n]);
  }

  // ---------- what a grant and a permit record ----------

  /** The two observations that a handoff leaves in the store: of its interaction, and of its sender's slot. */
  ghost predicate ObservationOf(o: Observation, h: Handoff) {
    o == InteractionObservation(h) || o == SlotObservation(h)
  }

  ghost function InteractionObservation(h: Handoff): Observation {
    Observation(InteractionObserved, InteractionKeyDigest(h.interaction), HandoffDigest(h))
  }

  ghost function SlotObservation(h: Handoff): Observation {
    Observation(SenderSequenceObserved,
                SequenceKeyDigest(SequenceKey(h.sender.principal, h.sender.key, h.sequence)), HandoffDigest(h))
  }

  /** What an allowed authorization asks the store to reserve: a permit for the whole of its chain, and nothing else. */
  lemma PermitRecordsTheChain(cfg: Config, input: Input, a: Action, tool: Id, id: Id, ch: seq<PolicyView>, st: Status)
    requires cfg.Valid() && Authorised(cfg, input, a, tool, ch, st)
    ensures CallOf(cfg, AuthorizeEvent(input, a, tool, id)).ReserveCall?
    ensures var q, n := CallOf(cfg, AuthorizeEvent(input, a, tool, id)).request, |ch| - 1;
      var p := q.permit;
      && q.expectedRevision == input.revision
      && (forall o :: o in q.observations <==> exists k :: 0 <= k < |ch| && ObservationOf(o, ch[k].handoff))
      && p.permitId == id && p.tool == tool && p.nonce == a.nonce && p.requestHash == ActionDigest(a) && p.state == Reserved
      && p.leaf == HandoffDigest(ch[n].handoff) && p.status == StatusDigest(st)
      && p.replayScope == ReplayScopeDigest(ch[0].handoff.lineage, ch[0].handoff.version)
      && p.chain.ChainDigest? && |p.chain.handoffIds| == |ch|
      && (forall k | 0 <= k < |ch| :: p.chain.handoffIds[k] == HandoffDigest(ch[k].handoff))
      && p.issuedAt == input.decisionTime
      && p.expiresAt <= input.decisionTime + cfg.ttl && p.expiresAt <= st.freshUntil
      && p.expiresAt <= ch[n].handoff.scope.notAfter
      && p.expiresAt in {input.decisionTime + cfg.ttl, st.freshUntil, ch[n].handoff.scope.notAfter}
  {
    AuthorisedAllows(cfg, input, a, tool, ch, st);
    ExpiryIsLeafBound(cfg, input, a, tool, ch, st);
    forall o
      ensures o in Observations(ch) <==> exists k :: 0 <= k < |ch| && ObservationOf(o, ch[k].handoff)
    {
      ObservationsAlong(o, ch);
    }
  }

  lemma ObservationsAlong(o: Observation, ch: seq<PolicyView>)
    ensures o in Observations(ch) <==> exists k :: 0 <= k < |ch| && ObservationOf(o, ch[k].handoff)
  {
    if o in Observations(ch) {
      var v :| v in ch && (o == InteractionOf(v) || o == SequenceOf(v));
      var k :| 0 <= k < |ch| && ch[k] == v;
      assert ObservationOf(o, ch[k].handoff);
    }
    if k :| 0 <= k < |ch| && ObservationOf(o, ch[k].handoff) {
      assert ch[k] in ch && (o == InteractionOf(ch[k]) || o == SequenceOf(ch[k]));
    }
  }

  // ---------- allowed chains agree ----------

  lemma ChainIsRequested(cfg: Config, e: Event, ch: seq<PolicyView>, st: Status, k: nat, o: Observation)
    requires cfg.Valid() && e.AuthorizeEvent? && Authorised(cfg, e.input, e.action, e.tool, ch, st)
    requires k < |ch| && ObservationOf(o, ch[k].handoff)
    ensures CallOf(cfg, e).ReserveCall? && o in CallOf(cfg, e).request.observations
  {
    PermitRecordsTheChain(cfg, e.input, e.action, e.tool, e.permitId, ch, st);
  }

  /** After an allowed authorization the store names every handoff of its chain, under both keys, for the rest of the run. */
  lemma ChainIsObserved(cfg: Config, events: seq<Event>, i: nat, n: nat, ch: seq<PolicyView>, st: Status, k: nat, o: Observation)
    requires cfg.Valid() && i < n <= |events| && events[i].AuthorizeEvent? && Allowed(cfg, events, i)
    requires Authorised(cfg, events[i].input, events[i].action, events[i].tool, ch, st)
    requires k < |ch| && ObservationOf(o, ch[k].handoff)
    ensures var s := After(FRESH, CallsOf(cfg, events), n);
      (o.kind, o.key) in s.observations && s.observations[(o.kind, o.key)] == o.handoffId
  {
    ChainIsRequested(cfg, events[i], ch, st, k, o);
    ObservedForEver(CallsOf(cfg, events), i, n, o);
  }

  /**
   The store's view of the evidence is one and the same for ever: in any interleaved run, two handoffs
   of allowed chains that share an interaction or a sender's sequence number are the same handoff.
   */
  lemma AllowedChainsAgree(cfg: Config, events: seq<Event>, i: nat, j: nat,
                           ch: seq<PolicyView>, st: Status, ch': seq<PolicyView>, st': Status, k: nat, k': nat)
    requires cfg.Valid() && i < |events| && j < |events|
    requires events[i].AuthorizeEvent? && Allowed(cfg, events, i)
    requires Authorised(cfg, events[i].input, events[i].action, events[i].tool, ch, st)
    requires events[j].AuthorizeEvent? && Allowed(cfg, events, j)
    requires Authorised(cfg, events[j].input, events[j].action, events[j].tool, ch', st')
    requires k < |ch| && k' < |ch'|
    ensures ch[k].handoff.interaction == ch'[k'].handoff.interaction ==> ch[k].handoff == ch'[k'].handoff
    ensures (&& ch[k].handoff.sender.principal == ch'[k'].handoff.sender.principal
             && ch[k].handoff.sender.key == ch'[k'].handoff.sender.key
             && ch[k].handoff.sequence == ch'[k'].handoff.sequence) ==> ch[k].handoff == ch'[k'].handoff
  {
    var n, h, h' := |events|, ch[k].handoff, ch'[k'].handoff;
    ChainIsObserved(cfg, events, i, n, ch, st, k, InteractionObservation(h));
    ChainIsObserved(cfg, events, j, n, ch', st', k', InteractionObservation(h'));
    ChainIsObserved(cfg, events, i, n, ch, st, k, SlotObservation(h));
    ChainIsObserved(cfg, events, j, n, ch', st', k', SlotObservation(h'));
  }
}
