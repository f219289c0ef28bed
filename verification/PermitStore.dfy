/**
 The neutral permit store: what each transaction does to the state, the class that does it in
 place with rollback, and what holds over whole runs of transactions by any number of callers.
 */
module PermitStore {
  import opened Common
  import opened Model

  datatype Lifecycle = Reserved | Attempted | Succeeded | Failed

  datatype ObservationKind = InteractionObserved | SenderSequenceObserved

  datatype Observation = Observation(kind: ObservationKind, key: Digest, handoffId: Digest)

  type ObservationTable = map<(ObservationKind, Digest), Digest>

  datatype ReplayKey = ReplayKey(tool: Id, replayScope: Digest, nonce: Id)

  datatype Permit = Permit(
    permitId: Id, leaf: Digest, chain: Digest, status: Digest, replayScope: Digest, requestHash: Digest,
    nonce: Id, tool: Id, state: Lifecycle, issuedAt: Time, expiresAt: Time)
  {
    function Key(): ReplayKey {
      ReplayKey(tool, replayScope, nonce)
    }
  }

  datatype State = State(revision: nat, observations: ObservationTable, permits: map<Id, Permit>)

  const FRESH := State(0, map[], map[])

  // ---------- the transactions ----------

  datatype ReserveRequest = ReserveRequest(
    expectedRevision: int, observations: seq<Observation>, permit: Permit)

  datatype ReserveError = InvalidRequest | StateChanged | EvidenceConflict | ReplayDetected

  predicate Contradicts(table: ObservationTable, o: Observation) {
    (o.kind, o.key) in table && table[(o.kind, o.key)] != o.handoffId
  }

  /** Insert-or-ignore the observations in order; stop at the first that names another handoff. */
  function Absorb(table: ObservationTable, os: seq<Observation>): Option<ObservationTable>
    decreases |os|
  {
    if os == [] then Some(table)
    else if Contradicts(table, os[0]) then None
    else Absorb(table[(os[0].kind, os[0].key) := os[0].handoffId], os[1..])
  }

  predicate KeyTaken(permits: map<Id, Permit>, key: ReplayKey) {
    exists id | id in permits :: permits[id].Key() == key
  }

  function ReserveStep(s: State, q: ReserveRequest): (r: (State, Result<Permit, ReserveError>)) {
    if q.permit.issuedAt >= q.permit.expiresAt || q.expectedRevision < 0 then (s, Err(InvalidRequest))
    else if s.revision != q.expectedRevision then (s, Err(StateChanged))
    else match Absorb(s.observations, q.observations)
      case None => (s, Err(EvidenceConflict))
      case Some(table) =>
        if q.permit.permitId in s.permits || KeyTaken(s.permits, q.permit.Key()) then (s, Err(ReplayDetected))
        else
          var p := q.permit.(state := Reserved);
          (State(s.revision + 1, table, s.permits[p.permitId := p]), Ok(p))
  }

  datatype ConsumeRefusal = PermitInvalid | PermitActionMismatch | AlreadyUsed | PermitNotYetValid | PermitExpired

  /** `None` is the ALLOW verdict. */
  function ConsumeStep(s: State, permitId: Id, tool: Id, requestHash: Digest, nonce: Id, now: Time)
    : (r: (State, Option<ConsumeRefusal>))
  {
    if permitId !in s.permits || s.permits[permitId].tool != tool then (s, Some(PermitInvalid))
    else
      var p := s.permits[permitId];
      if p.requestHash != requestHash || p.nonce != nonce then (s, Some(PermitActionMismatch))
      else if p.state != Reserved then (s, Some(AlreadyUsed))
      else if now < p.issuedAt then (s, Some(PermitNotYetValid))
      else if now >= p.expiresAt then (s, Some(PermitExpired))
      else (State(s.revision + 1, s.observations, s.permits[permitId := p.(state := Attempted)]), None)
  }

  function FinishStep(s: State, permitId: Id, succeeded: bool): (r: (State, bool)) {
    if permitId !in s.permits || s.permits[permitId].state != Attempted then (s, false)
    else
      var p := s.permits[permitId].(state := if succeeded then Succeeded else Failed);
      (State(s.revision + 1, s.observations, s.permits[permitId := p]), true)
  }

  // ---------- the store ----------

  class NeutralPermitStore {
    const storeId: Id
    var revision: nat
    var observations: ObservationTable
    var permits: map<Id, Permit>

    ghost function Contents(): State
      reads this
    {
      State(revision, observations, permits)
    }

    constructor (storeId: Id)
      ensures this.storeId == storeId && Contents() == FRESH
    {
      this.storeId := storeId;
      revision, observations, permits := 0, map[], map[];
    }

    /** A store over a database that already holds what earlier transactions committed. */
    constructor Over(storeId: Id, saved: State)
      ensures this.storeId == storeId && Contents() == saved
    {
      this.storeId := storeId;
      revision, observations, permits := saved.revision, saved.observations, saved.permits;
    }

    /** One immutable snapshot of everything. */
    method Snapshot() returns (s: State)
      ensures s == Contents()
    {
      s := State(revision, observations, permits);
    }

    /** Inserts observations in place, so a conflict may leave some of them behind for the caller to roll back. */
    method InsertObservations(os: seq<Observation>) returns (conflict: bool)
      modifies this`observations
      ensures conflict <==> Absorb(old(observations), os) == None
      ensures !conflict ==> Absorb(old(observations), os) == Some(observations)
    {
      var k := 0;
      while k < |os|
        invariant 0 <= k <= |os|
        invariant Absorb(old(observations), os) == Absorb(observations, os[k..])
      {
        var o := os[k];
        assert os[k..][1..] == os[k + 1..];
        if (o.kind, o.key) in observations && observations[(o.kind, o.key)] != o.handoffId {
          return true;
        }
        if (o.kind, o.key) !in observations {
          observations := observations[(o.kind, o.key) := o.handoffId];
        }
        assert observations == observations[(o.kind, o.key) := o.handoffId];
        k := k + 1;
      }
      return false;
    }

    /** Compare the revision, record the observations, reserve once: all of it or none of it. */
    method Reserve(q: ReserveRequest) returns (r: Result<Permit, ReserveError>)
      modifies this
      ensures (Contents(), r) == ReserveStep(old(Contents()), q)
      ensures r.Ok? <==> WellTimed(q) && q.expectedRevision == old(revision)
                         && Consistent(old(observations), q.observations) && Unused(old(permits), q.permit)
    {
      ReserveMeaning(Contents(), q);
      if q.permit.issuedAt >= q.permit.expiresAt || q.expectedRevision < 0 {
        return Err(InvalidRequest);
      }
      var saved := observations;
      if revision != q.expectedRevision {
        return Err(StateChanged);
      }
      var conflict := InsertObservations(q.observations);
      if conflict {
        observations := saved;
        return Err(EvidenceConflict);
      }
      if q.permit.permitId in permits || KeyTaken(permits, q.permit.Key()) {
        observations := saved;
        return Err(ReplayDetected);
      }
      var p := q.permit.(state := Reserved);
      permits := permits[p.permitId := p];
      revision := revision + 1;
      return Ok(p);
    }

    method Consume(permitId: Id, tool: Id, requestHash: Digest, nonce: Id, now: Time) returns (r: Option<ConsumeRefusal>)
      modifies this
      ensures (Contents(), r) == ConsumeStep(old(Contents()), permitId, tool, requestHash, nonce, now)
    {
      if permitId !in permits || permits[permitId].tool != tool {
        return Some(PermitInvalid);
      }
      var p := permits[permitId];
      if p.requestHash != requestHash || p.nonce != nonce {
        return Some(PermitActionMismatch);
      }
      if p.state != Reserved {
        return Some(AlreadyUsed);
      }
      if now < p.issuedAt {
        return Some(PermitNotYetValid);
      }
      if now >= p.expiresAt {
        return Some(PermitExpired);
      }
      permits := permits[permitId := p.(state := Attempted)];
      revision := revision + 1;
      return None;
    }

    method Finish(permitId: Id, succeeded: bool) returns (done: bool)
      modifies this
      ensures (Contents(), done) == FinishStep(old(Contents()), permitId, succeeded)
    {
      if permitId !in permits || permits[permitId].state != Attempted {
        return false;
      }
      permits := permits[permitId := permits[permitId].(state := if succeeded then Succeeded else Failed)];
      revision := revision + 1;
      return true;
    }
  }

  datatype OpenError = BelongsToAnotherStore

  /** Opening a database: a new one is initialised, an existing one must carry the same store identifier. */
  method Open(saved: Option<(Id, State)>, storeId: Id) returns (r: Result<NeutralPermitStore, OpenError>)
    ensures r.Err? <==> saved.Some? && saved.value.0 != storeId
    ensures r.Ok? ==> fresh(r.value) && r.value.storeId == storeId
                      && r.value.Contents() == if saved.Some? then saved.value.1 else FRESH
  {
    if saved == None {
      var store := new NeutralPermitStore(storeId);
      return Ok(store);
    }
    if saved.value.0 != storeId {
      return Err(BelongsToAnotherStore);
    }
    var store := new NeutralPermitStore.Over(storeId, saved.value.1);
    return Ok(store);
  }

  // ---------- what the observation table ends up holding ----------

  /** The observations agree with the table and with one another. */
  ghost predicate Consistent(table: ObservationTable, os: seq<Observation>) {
    && (forall o | o in os && (o.kind, o.key) in table :: table[(o.kind, o.key)] == o.handoffId)
    && (forall o, o' | o in os && o' in os && o.kind == o'.kind && o.key == o'.key :: o.handoffId == o'.handoffId)
  }

  function Insert(table: ObservationTable, o: Observation): ObservationTable {
    table[(o.kind, o.key) := o.handoffId]
  }

  lemma ConsistentTail(table: ObservationTable, os: seq<Observation>)
    requires os != [] && Consistent(table, os)
    ensures !Contradicts(table, os[0]) && Consistent(Insert(table, os[0]), os[1..])
  {
    assert forall o | o in os[1..] :: o in os;
    assert os[0] in os;
  }

  lemma ConsistentWhole(table: ObservationTable, os: seq<Observation>)
    requires os != [] && !Contradicts(table, os[0]) && Consistent(Insert(table, os[0]), os[1..])
    ensures Consistent(table, os)
  {
    forall o | o in os
      ensures !Contradicts(table, o)
      ensures o.kind == os[0].kind && o.key == os[0].key ==> o.handoffId == os[0].handoffId
      ensures o == os[0] || o in os[1..]
    {
      if o != os[0] {
        var k :| 0 <= k < |os| && os[k] == o;
        assert os[1..][k - 1] == o;
        assert !Contradicts(Insert(table, os[0]), o);
      }
    }
  }

  /** The scan succeeds exactly on consistent observations. */
  lemma {:induction false} AbsorbSucceeds(table: ObservationTable, os: seq<Observation>)
    ensures Absorb(table, os).Some? <==> Consistent(table, os)
    decreases |os|
  {
    if os != [] && !Contradicts(table, os[0]) {
      AbsorbSucceeds(Insert(table, os[0]), os[1..]);
      if Consistent(table, os) {
        ConsistentTail(table, os);
      } else if Consistent(Insert(table, os[0]), os[1..]) {
        ConsistentWhole(table, os);
      }
    } else if os != [] {
      assert os[0] in os;
    }
  }

  /** A successful scan adds exactly the observations to the table, and changes nothing in it. */
  lemma {:induction false} AbsorbMeaning(table: ObservationTable, os: seq<Observation>)
    requires Absorb(table, os).Some?
    ensures var table' := Absorb(table, os).value;
            && (forall k :: k in table' <==> k in table || exists o :: o in os && (o.kind, o.key) == k)
            && (forall k | k in table :: table'[k] == table[k])
            && (forall o | o in os :: table'[(o.kind, o.key)] == o.handoffId)
    decreases |os|
  {
    if os != [] {
      assert os == [os[0]] + os[1..];
      AbsorbMeaning(Insert(table, os[0]), os[1..]);
    }
  }

  // ---------- what each transaction is refused for, and what it commits ----------

  /** A permit with a lifetime, against a revision that can exist. */
  predicate WellTimed(q: ReserveRequest) {
    q.permit.issuedAt < q.permit.expiresAt && q.expectedRevision >= 0
  }

  /** No permit has this identifier, and none this tool, replay scope and nonce together. */
  ghost predicate Unused(permits: map<Id, Permit>, p: Permit) {
    && p.permitId !in permits
    && forall id | id in permits ::
         permits[id].tool != p.tool || permits[id].replayScope != p.replayScope || permits[id].nonce != p.nonce
  }

  /** A reserve commits on free identifiers and evidence without contradiction only; each other case has its own error. */
  lemma ReserveMeaning(s: State, q: ReserveRequest)
    ensures var (s', r) := ReserveStep(s, q);
      && (r.Ok? <==> WellTimed(q) && s.revision == q.expectedRevision
                     && Consistent(s.observations, q.observations) && Unused(s.permits, q.permit))
      && (r == Err(InvalidRequest) <==> !WellTimed(q))
      && (r == Err(StateChanged) <==> WellTimed(q) && s.revision != q.expectedRevision)
      && (r == Err(EvidenceConflict) <==>
            WellTimed(q) && s.revision == q.expectedRevision && !Consistent(s.observations, q.observations))
      && (r == Err(ReplayDetected) <==>
            WellTimed(q) && s.revision == q.expectedRevision && Consistent(s.observations, q.observations)
            && !Unused(s.permits, q.permit))
      && (r.Err? ==> s' == s)
  {
    AbsorbSucceeds(s.observations, q.observations);
    if id :| id in s.permits && s.permits[id].tool == q.permit.tool && s.permits[id].replayScope == q.permit.replayScope
             && s.permits[id].nonce == q.permit.nonce {
      assert s.permits[id].Key() == q.permit.Key();
    }
  }

  /** What a reserve that commits leaves behind: the permit, the observations, and nothing lost. */
  lemma ReserveCommits(s: State, q: ReserveRequest)
    requires ReserveStep(s, q).1.Ok?
    ensures var (s', r) := ReserveStep(s, q);
      && r.value == q.permit.(state := Reserved)
      && s'.revision == s.revision + 1 && s'.permits == s.permits[q.permit.permitId := r.value]
      && (forall k :: k in s'.observations <==> k in s.observations || exists o :: o in q.observations && (o.kind, o.key) == k)
      && (forall k | k in s.observations :: s'.observations[k] == s.observations[k])
      && (forall o | o in q.observations :: s'.observations[(o.kind, o.key)] == o.handoffId)
  {
    AbsorbMeaning(s.observations, q.observations);
  }

  /** A consume is allowed on a live, reserved, matching permit only, and the refusals come in this order. */
  lemma ConsumeMeaning(s: State, permitId: Id, tool: Id, requestHash: Digest, nonce: Id, now: Time)
    ensures var (s', r) := ConsumeStep(s, permitId, tool, requestHash, nonce, now);
      var known := permitId in s.permits && s.permits[permitId].tool == tool;
      && (r == Some(PermitInvalid) <==> !known)
      && (r == None <==>
            && known && s.permits[permitId].requestHash == requestHash && s.permits[permitId].nonce == nonce
            && s.permits[permitId].state == Reserved
            && s.permits[permitId].issuedAt <= now && now < s.permits[permitId].expiresAt)
      && (r == Some(PermitActionMismatch) <==>
            known && !(s.permits[permitId].requestHash == requestHash && s.permits[permitId].nonce == nonce))
      && (r == Some(AlreadyUsed) ==> s.permits[permitId].state != Reserved)
      && (r == Some(PermitNotYetValid) ==> s.permits[permitId].state == Reserved && now < s.permits[permitId].issuedAt)
      && (r == Some(PermitExpired) ==> s.permits[permitId].state == Reserved && now >= s.permits[permitId].expiresAt)
      && (r != None ==> s' == s)
      && (r == None ==> s'.revision == s.revision + 1 && s'.observations == s.observations
                        && s'.permits == s.permits[permitId := s.permits[permitId].(state := Attempted)])
  {
  }

  /** Finishing closes an attempted permit, as succeeded or as failed just as it is told, and nothing else. */
  lemma FinishMeaning(s: State, permitId: Id, succeeded: bool)
    ensures var (s', done) := FinishStep(s, permitId, succeeded);
      && (done <==> permitId in s.permits && s.permits[permitId].state == Attempted)
      && (!done ==> s' == s)
      && (done ==>
            && s'.revision == s.revision + 1 && s'.observations == s.observations && s'.permits.Keys == s.permits.Keys
            && (forall id | id in s.permits && id != permitId :: s'.permits[id] == s.permits[id])
            && (s'.permits[permitId].state == Succeeded <==> succeeded)
            && (s'.permits[permitId].state == Failed <==> !succeeded)
            && s'.permits[permitId].(state := Attempted) == s.permits[permitId])
  {
  }

  /** Scanning two batches is scanning the second into what the first left. */
  lemma {:induction false} AbsorbTwice(table: ObservationTable, os: seq<Observation>, more: seq<Observation>)
    ensures Absorb(table, os + more) ==
            (match Absorb(table, os) case None => None case Some(table') => Absorb(table', more))
    decreases |os|
  {
    if os == [] {
      assert os + more == more;
    } else {
      assert (os + more)[1..] == os[1..] + more;
      if !Contradicts(table, os[0]) {
        AbsorbTwice(Insert(table, os[0]), os[1..], more);
      }
    }
  }
}
