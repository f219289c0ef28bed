/** What one store has received by a cutoff, and the evidence it holds once copies are discarded. */
module Projection {
  import opened Common
  import opened Model
  import opened Sorting
  import opened Schedule
  import opened Compile

  datatype Delivered = Delivered(id: int, copy: nat, message: Message, deliveredAt: Time)

  datatype Observation = Observation(store: Id, cutoff: Time, delivered: seq<Delivered>)

  datatype ObservationError =
    StalePermitState | ForeignPermitState | DuplicateDelivery | ForeignMessage | FutureDelivery

  /** The permit state a local observation carries along, as far as it is checked here. */
  datatype PermitState = PermitState(store: Id, capturedAt: Time)

  function ArrivalKey(): Delivered -> Key {
    (d: Delivered) => (d.deliveredAt, d.id)
  }

  predicate Arrived(t: Transmission, store: Id, cutoff: Time) {
    && t.disposition == Deliver && t.deliveredAt.Some?
    && t.message.destination == store && t.deliveredAt.value <= cutoff
  }

  function Receipt(t: Transmission): Delivered
    requires t.deliveredAt.Some?
  {
    Delivered(t.id, t.copy, t.message, t.deliveredAt.value)
  }

  function Arrivals(ts: seq<Transmission>, store: Id, cutoff: Time): seq<Delivered> {
    if ts == [] then []
    else
      var n := |ts| - 1;
      Arrivals(ts[..n], store, cutoff) + (if Arrived(ts[n], store, cutoff) then [Receipt(ts[n])] else [])
  }

  function Projected(plan: Plan, store: Id, cutoff: Time): seq<Delivered> {
    Sort(Arrivals(plan.transmissions, store, cutoff), ArrivalKey())
  }

  // ---------- the methods ----------

  method DeliveredForStore(plan: Plan, store: Id, cutoff: Time) returns (r: seq<Delivered>)
    requires Sound(plan)
    ensures r == Projected(plan, store, cutoff)
  {
    var delivered := [];
    for i := 0 to |plan.transmissions|
      invariant delivered == Arrivals(plan.transmissions[..i], store, cutoff)
    {
      var t := plan.transmissions[i];
      assert plan.transmissions[..i + 1][..i] == plan.transmissions[..i];
      if t.disposition != Deliver {
        continue;
      }
      assert t in plan.transmissions;
      if t.message.destination != store {
        continue;
      }
      if t.deliveredAt.value > cutoff {
        continue;
      }
      delivered := delivered + [Delivered(t.id, t.copy, t.message, t.deliveredAt.value)];
    }
    assert plan.transmissions[..|plan.transmissions|] == plan.transmissions;
    r := Sort(delivered, ArrivalKey());
  }

  /** What a local or audit observation accepts: distinct deliveries, of this store, none in the future. */
  ghost predicate Observable(store: Id, cutoff: Time, delivered: seq<Delivered>) {
    && (forall i, j | 0 <= i < j < |delivered| :: delivered[i].id != delivered[j].id)
    && forall d | d in delivered :: d.message.destination == store && d.deliveredAt <= cutoff
  }

  function DeliveredIdKey(): Delivered -> Key {
    (d: Delivered) => (d.id, 0)
  }

  method MakeObservation(store: Id, cutoff: Time, delivered: seq<Delivered>)
    returns (r: Result<Observation, ObservationError>)
    ensures r.Ok? <==> Observable(store, cutoff, delivered)
    ensures r.Ok? ==> r.value == Observation(store, cutoff, Sort(delivered, ArrivalKey()))
  {
    var messages := Sort(delivered, ArrivalKey());
    SortKeeps(delivered, ArrivalKey());
    SortMembers(delivered, ArrivalKey());
    SortForgetsOrder(delivered, messages, DeliveredIdKey());
    CountingKeys(messages, DeliveredIdKey());
    assert DistinctKeys(delivered, DeliveredIdKey()) <==>
           forall i, j | 0 <= i < j < |delivered| :: delivered[i].id != delivered[j].id;
    var ids := set d | d in messages :: (d.id, 0);
    assert ids == KeysOf(messages, DeliveredIdKey());
    if |ids| != |messages| {
      return Err(DuplicateDelivery);
    }
    for i := 0 to |messages|
      invariant forall d | d in messages[..i] :: d.message.destination == store && d.deliveredAt <= cutoff
    {
      assert messages[i] in delivered;
      if messages[i].message.destination != store {
        return Err(ForeignMessage);
      }
      if messages[i].deliveredAt > cutoff {
        return Err(FutureDelivery);
      }
    }
    assert messages[..|messages|] == messages;
    r := Ok(Observation(store, cutoff, messages));
  }

  /** A local observation also wants the permit state of its own permit store, captured at its own instant. */
  method MakeLocalObservation(store: Id, permitStore: Id, decisionTime: Time, state: PermitState, delivered: seq<Delivered>)
    returns (r: Result<Observation, ObservationError>)
    ensures r.Ok? <==> state == PermitState(permitStore, decisionTime) && Observable(store, decisionTime, delivered)
    ensures r.Ok? ==> r.value == Observation(store, decisionTime, Sort(delivered, ArrivalKey()))
  {
    if state.capturedAt != decisionTime {
      return Err(StalePermitState);
    }
    if state.store != permitStore {
      return Err(ForeignPermitState);
    }
    r := MakeObservation(store, decisionTime, delivered);
  }

  /** `project_audit`: a projection of a compiled plan is always accepted as an observation. */
  method ProjectAudit(plan: Plan, store: Id, cutoff: Time) returns (r: Result<Observation, ObservationError>)
    requires Sound(plan)
    ensures r == Ok(Observation(store, cutoff, Projected(plan, store, cutoff)))
  {
    var delivered := DeliveredForStore(plan, store, cutoff);
    ProjectedIsSorted(plan, store, cutoff);
    ProjectedIsObservable(plan, store, cutoff);
    SortIsTheSorted(delivered, delivered, ArrivalKey());
    r := MakeObservation(store, cutoff, delivered);
  }

  /** `project_local`: only an ill-matched permit state is refused. */
  method ProjectLocal(plan: Plan, store: Id, permitStore: Id, decisionTime: Time, state: PermitState)
    returns (r: Result<Observation, ObservationError>)
    requires Sound(plan)
    ensures r.Ok? <==> state == PermitState(permitStore, decisionTime)
    ensures r.Ok? ==> r.value == Observation(store, decisionTime, Projected(plan, store, decisionTime))
  {
    var delivered := DeliveredForStore(plan, store, decisionTime);
    ProjectedIsSorted(plan, store, decisionTime);
    ProjectedIsObservable(plan, store, decisionTime);
    SortIsTheSorted(delivered, delivered, ArrivalKey());
    r := MakeLocalObservation(store, permitStore, decisionTime, state, delivered);
  }

  // ---------- what a projection holds ----------

  lemma {:induction false} ArrivalsMeaning(ts: seq<Transmission>, store: Id, cutoff: Time, d: Delivered)
    ensures d in Arrivals(ts, store, cutoff) <==>
            exists t | t in ts :: Arrived(t, store, cutoff) && d == Receipt(t)
  {
    if ts != [] {
      var n := |ts| - 1;
      ArrivalsMeaning(ts[..n], store, cutoff, d);
      assert ts == ts[..n] + [ts[n]];
      assert ts[n] in ts;
    }
  }

  lemma {:induction false} ArrivalsDistinct(ts: seq<Transmission>, store: Id, cutoff: Time)
    requires StrictlySorted(ts, IdKey())
    ensures DistinctKeys(Arrivals(ts, store, cutoff), DeliveredIdKey())
  {
    if ts != [] {
      var n := |ts| - 1;
      var before := Arrivals(ts[..n], store, cutoff);
      ArrivalsDistinct(ts[..n], store, cutoff);
      forall i | 0 <= i < |before|
        ensures before[i].id != ts[n].id
      {
        ArrivalsMeaning(ts[..n], store, cutoff, before[i]);
        assert before[i] in before;
        var t :| t in ts[..n] && Arrived(t, store, cutoff) && before[i] == Receipt(t);
        var k :| 0 <= k < n && ts[k] == t;
        assert Less(IdKey()(ts[k]), IdKey()(ts[n]));
      }
    }
  }

  lemma ProjectedIsSorted(plan: Plan, store: Id, cutoff: Time)
    requires Sound(plan)
    ensures StrictlySorted(Projected(plan, store, cutoff), ArrivalKey())
    ensures DistinctKeys(Projected(plan, store, cutoff), ArrivalKey())
  {
    var arrivals := Arrivals(plan.transmissions, store, cutoff);
    ArrivalsDistinct(plan.transmissions, store, cutoff);
    forall i, j | 0 <= i < j < |arrivals|
      ensures ArrivalKey()(arrivals[i]) != ArrivalKey()(arrivals[j])
    {
      assert DeliveredIdKey()(arrivals[i]) != DeliveredIdKey()(arrivals[j]);
    }
    SortKeeps(arrivals, ArrivalKey());
    SortForgetsOrder(arrivals, Projected(plan, store, cutoff), ArrivalKey());
  }

  lemma ProjectedMeaning(plan: Plan, store: Id, cutoff: Time, d: Delivered)
    ensures d in Projected(plan, store, cutoff) <==>
            exists t | t in plan.transmissions :: Arrived(t, store, cutoff) && d == Receipt(t)
  {
    ArrivalsMeaning(plan.transmissions, store, cutoff, d);
    SortMembers(Arrivals(plan.transmissions, store, cutoff), ArrivalKey());
  }

  /** What a store has been shown by a cutoff: what was delivered to it by then, in order of arrival and then of identifier. */
  lemma ProjectionMeaning(plan: Plan, store: Id, cutoff: Time)
    requires Sound(plan)
    ensures var shown := Projected(plan, store, cutoff);
      && (forall d :: d in shown <==>
            exists t | t in plan.transmissions ::
              && t.disposition == Deliver && t.message.destination == store
              && t.deliveredAt == Some(d.deliveredAt) && d.deliveredAt <= cutoff
              && d.id == t.id && d.copy == t.copy && d.message == t.message)
      && (forall i, j | 0 <= i < j < |shown| ::
            || shown[i].deliveredAt < shown[j].deliveredAt
            || (shown[i].deliveredAt == shown[j].deliveredAt && shown[i].id < shown[j].id))
  {
    var shown := Projected(plan, store, cutoff);
    ProjectedIsSorted(plan, store, cutoff);
    forall d
      ensures d in shown <==> exists t | t in plan.transmissions :: Arrived(t, store, cutoff) && d == Receipt(t)
    {
      ProjectedMeaning(plan, store, cutoff, d);
    }
    forall i, j | 0 <= i < j < |shown|
      ensures Less((shown[i].deliveredAt, shown[i].id), (shown[j].deliveredAt, shown[j].id))
    {
      assert Less(ArrivalKey()(shown[i]), ArrivalKey()(shown[j]));
    }
  }

  lemma ProjectedIsObservable(plan: Plan, store: Id, cutoff: Time)
    requires Sound(plan)
    ensures Observable(store, cutoff, Projected(plan, store, cutoff))
  {
    var arrivals, projected := Arrivals(plan.transmissions, store, cutoff), Projected(plan, store, cutoff);
    ArrivalsDistinct(plan.transmissions, store, cutoff);
    SortKeeps(arrivals, ArrivalKey());
    SortForgetsOrder(arrivals, projected, DeliveredIdKey());
    forall i, j | 0 <= i < j < |projected|
      ensures projected[i].id != projected[j].id
    {
      assert DeliveredIdKey()(projected[i]) != DeliveredIdKey()(projected[j]);
    }
    forall d | d in projected
      ensures d.message.destination == store && d.deliveredAt <= cutoff
    {
      ProjectedMeaning(plan, store, cutoff, d);
    }
  }

  /** A transmission shows up at one store only, at its destination, and from its delivery time on. */
  lemma ArrivesAtOneStore(plan: Plan, t: Transmission, store: Id, cutoff: Time)
    requires Sound(plan) && t in plan.transmissions
    ensures (exists d | d in Projected(plan, store, cutoff) :: d.id == t.id) <==>
            t.disposition == Deliver && t.deliveredAt.value <= cutoff && store == t.message.destination
  {
    if d :| d in Projected(plan, store, cutoff) && d.id == t.id {
      ProjectedMeaning(plan, store, cutoff, d);
      var t' :| t' in plan.transmissions && Arrived(t', store, cutoff) && d == Receipt(t');
      SameIdSameTransmission(plan, t, t');
    }
    if t.disposition == Deliver && t.deliveredAt.value <= cutoff && store == t.message.destination {
      ProjectedMeaning(plan, store, cutoff, Receipt(t));
      assert Receipt(t).id == t.id;
    }
  }

  lemma SameIdSameTransmission(plan: Plan, t: Transmission, t': Transmission)
    requires Sound(plan) && t in plan.transmissions && t' in plan.transmissions && t.id == t'.id
    ensures t == t'
  {
    var i :| 0 <= i < |plan.transmissions| && plan.transmissions[i] == t;
    var j :| 0 <= j < |plan.transmissions| && plan.transmissions[j] == t';
    assert forall x, y | 0 <= x < y < |plan.transmissions| ::
        Less(IdKey()(plan.transmissions[x]), IdKey()(plan.transmissions[y]));
  }

  // ---------- time only adds ----------

  /** The part of a sorted sequence that had arrived by a cutoff comes first in it. */
  lemma {:induction false} EarlierIsPrefix(early: seq<Delivered>, late: seq<Delivered>, cutoff: Time)
    requires StrictlySorted(early, ArrivalKey()) && StrictlySorted(late, ArrivalKey())
    requires forall d :: d in early <==> d in late && d.deliveredAt <= cutoff
    ensures early <= late
    decreases |late|
  {
    if early != [] {
      assert early[0] in early;
      FirstIsLeast(late, early[0]);
      assert late[0] in late;
      assert late[0] in early;
      FirstIsLeast(early, late[0]);
      assert early[0] == late[0];
      TailElements(early, ArrivalKey());
      TailElements(late, ArrivalKey());
      EarlierIsPrefix(early[1..], late[1..], cutoff);
      assert early == [early[0]] + early[1..];
      assert late == [late[0]] + late[1..];
    }
  }

  lemma FirstIsLeast(s: seq<Delivered>, d: Delivered)
    requires StrictlySorted(s, ArrivalKey()) && d in s
    ensures s[0] == d || Less(ArrivalKey()(s[0]), ArrivalKey()(d))
    ensures s[0].deliveredAt <= d.deliveredAt
  {
    var i :| 0 <= i < |s| && s[i] == d;
    assert i > 0 ==> Less(ArrivalKey()(s[0]), ArrivalKey()(s[i]));
  }

  function UniqueEvidenceOf(delivered: seq<Delivered>): seq<Delivered> {
    if delivered == [] then []
    else
      var n := |delivered| - 1;
      UniqueEvidenceOf(delivered[..n]) +
      (if exists d | d in delivered[..n] :: d.message == delivered[n].message then [] else [delivered[n]])
  }

  method UniqueEvidence(delivered: seq<Delivered>) returns (result: seq<Delivered>)
    ensures result == UniqueEvidenceOf(delivered)
  {
    result := [];
    var seen: set<Message> := {};
    for i := 0 to |delivered|
      invariant result == UniqueEvidenceOf(delivered[..i])
      invariant forall m :: m in seen <==> exists d | d in delivered[..i] :: d.message == m
    {
      var item := delivered[i];
      assert delivered[..i + 1][..i] == delivered[..i];
      assert delivered[..i + 1] == delivered[..i] + [item];
      if item.message !in seen {
        seen := seen + {item.message};
        result := result + [item];
      }
    }
    assert delivered[..|delivered|] == delivered;
  }

  /** `d` was delivered, and no earlier delivery carried the same message. */
  ghost predicate IsFirstCopy(delivered: seq<Delivered>, d: Delivered) {
    exists k | 0 <= k < |delivered| ::
      delivered[k] == d && forall i | 0 <= i < k :: delivered[i].message != d.message
  }

  lemma FirstCopyOfMore(delivered: seq<Delivered>, last: Delivered, d: Delivered)
    ensures IsFirstCopy(delivered + [last], d) <==>
            IsFirstCopy(delivered, d) || (d == last && !exists e | e in delivered :: e.message == last.message)
  {
    var all, n := delivered + [last], |delivered|;
    assert forall i | 0 <= i < n :: all[i] == delivered[i];
    if IsFirstCopy(all, d) {
      var k :| 0 <= k <= n && all[k] == d && forall i | 0 <= i < k :: all[i].message != d.message;
      assert k < n ==> delivered[k] == d;
      if k == n {
        assert forall i | 0 <= i < n :: delivered[i].message == all[i].message;
      }
    }
    if IsFirstCopy(delivered, d) {
      var k :| 0 <= k < n && delivered[k] == d && forall i | 0 <= i < k :: delivered[i].message != d.message;
      assert all[k] == d;
    }
    if d == last && !exists e | e in delivered :: e.message == last.message {
      assert all[n] == d;
      assert forall i | 0 <= i < n :: all[i] in delivered;
    }
  }

  /** What is kept are exactly the first copies to arrive. */
  lemma {:induction false} EvidenceIsFirstCopies(delivered: seq<Delivered>, d: Delivered)
    ensures d in UniqueEvidenceOf(delivered) <==> IsFirstCopy(delivered, d)
  {
    if delivered != [] {
      var init, last := delivered[..|delivered| - 1], delivered[|delivered| - 1];
      assert delivered == init + [last];
      EvidenceIsFirstCopies(init, d);
      FirstCopyOfMore(init, last, d);
    }
  }

  lemma EvidenceWasDelivered(delivered: seq<Delivered>, d: Delivered)
    requires d in UniqueEvidenceOf(delivered)
    ensures d in delivered
  {
    EvidenceIsFirstCopies(delivered, d);
  }

  /** So no message is kept twice. */
  lemma {:induction false} EvidenceIsOncePerMessage(delivered: seq<Delivered>)
    ensures forall i, j | 0 <= i < j < |UniqueEvidenceOf(delivered)| ::
              UniqueEvidenceOf(delivered)[i].message != UniqueEvidenceOf(delivered)[j].message
  {
    if delivered != [] {
      var init, last := delivered[..|delivered| - 1], delivered[|delivered| - 1];
      var kept := UniqueEvidenceOf(init);
      EvidenceIsOncePerMessage(init);
      if !exists e | e in init :: e.message == last.message {
        forall i | 0 <= i < |kept|
          ensures kept[i].message != last.message
        {
          EvidenceWasDelivered(init, kept[i]);
        }
      }
    }
  }

  /** And no delivered message is dropped. */
  lemma {:induction false} EvidenceKeepsEveryMessage(delivered: seq<Delivered>, d: Delivered)
    requires d in delivered
    ensures exists e | e in UniqueEvidenceOf(delivered) :: e.message == d.message
  {
    var init, last := delivered[..|delivered| - 1], delivered[|delivered| - 1];
    assert delivered == init + [last];
    if d in init {
      EvidenceKeepsEveryMessage(init, d);
    } else if e :| e in init && e.message == d.message {
      EvidenceKeepsEveryMessage(init, e);
    }
  }

  lemma {:induction false} UniqueEvidenceGrows(early: seq<Delivered>, late: seq<Delivered>)
    requires early <= late
    ensures UniqueEvidenceOf(early) <= UniqueEvidenceOf(late)
    decreases |late|
  {
    if |early| == |late| {
      assert early == late;
    } else {
      UniqueEvidenceGrows(early, late[..|late| - 1]);
    }
  }

  /** Seen later, a store's record and its evidence are the earlier ones with more appended. */
  lemma ProjectionsGrow(plan: Plan, store: Id, earlier: Time, later: Time)
    requires Sound(plan) && earlier <= later
    ensures Projected(plan, store, earlier) <= Projected(plan, store, later)
    ensures UniqueEvidenceOf(Projected(plan, store, earlier)) <= UniqueEvidenceOf(Projected(plan, store, later))
  {
    var early, late := Projected(plan, store, earlier), Projected(plan, store, later);
    ProjectedIsSorted(plan, store, earlier);
    ProjectedIsSorted(plan, store, later);
    forall d
      ensures d in early <==> d in late && d.deliveredAt <= earlier
    {
      ProjectedMeaning(plan, store, earlier, d);
      ProjectedMeaning(plan, store, later, d);
    }
    EarlierIsPrefix(early, late, earlier);
    UniqueEvidenceGrows(early, late);
  }
}
