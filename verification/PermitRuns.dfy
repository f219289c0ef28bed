/**
 Whole runs of the permit store. Transactions are serialised, so any interleaving of any number
 of callers is a sequence of calls; snapshots do not change the state.
 */
module PermitRuns {
  import opened Common
  import opened Model
  import opened PermitStore

  datatype Call =
    | ReserveCall(request: ReserveRequest)
    | ConsumeCall(permitId: Id, tool: Id, requestHash: Digest, nonce: Id, now: Time)
    | FinishCall(permitId: Id, succeeded: bool)
    | IdleCall  // a snapshot, or a caller that stops before any transaction

  function Apply(s: State, c: Call): State {
    match c
    case ReserveCall(q) => ReserveStep(s, q).0
    case ConsumeCall(id, tool, hash, nonce, now) => ConsumeStep(s, id, tool, hash, nonce, now).0
    case FinishCall(id, succeeded) => FinishStep(s, id, succeeded).0
    case IdleCall => s
  }

  /** The call commits: a reserve returns a permit, a consume allows, a finish reports true. */
  predicate Commits(s: State, c: Call) {
    match c
    case ReserveCall(q) => ReserveStep(s, q).1.Ok?
    case ConsumeCall(id, tool, hash, nonce, now) => ConsumeStep(s, id, tool, hash, nonce, now).1 == None
    case FinishCall(id, succeeded) => FinishStep(s, id, succeeded).1
    case IdleCall => false
  }

  /** The state after the first `n` calls of a run. */
  function After(s: State, calls: seq<Call>, n: nat): State
    requires n <= |calls|
  {
    if n == 0 then s else Apply(After(s, calls, n - 1), calls[n - 1])
  }

  // ---------- the invariant of every reachable state ----------

  function Stage(p: Permit): nat {
    match p.state
    case Reserved => 1
    case Attempted => 2
    case _ => 3
  }

  ghost function StageSum(permits: map<Id, Permit>): nat {
    if permits == map[] then 0
    else
      var id :| id in permits;
      Stage(permits[id]) + StageSum(permits - {id})
  }

  lemma {:induction false} StageSumSplits(permits: map<Id, Permit>, id: Id)
    requires id in permits
    ensures StageSum(permits) == Stage(permits[id]) + StageSum(permits - {id})
    decreases permits
  {
    var first :| first in permits && StageSum(permits) == Stage(permits[first]) + StageSum(permits - {first});
    if first != id {
      StageSumSplits(permits - {first}, id);
      StageSumSplits(permits - {id}, first);
      assert permits - {first} - {id} == permits - {id} - {first};
    }
  }

  lemma StageSumUpdates(permits: map<Id, Permit>, id: Id, p: Permit)
    ensures StageSum(permits[id := p]) == Stage(p) + StageSum(permits - {id})
  {
    StageSumSplits(permits[id := p], id);
    assert permits[id := p] - {id} == permits - {id};
  }

  /** The part of the invariant that does not mention the revision. */
  ghost predicate Indexed(permits: map<Id, Permit>) {
    && (forall id | id in permits :: permits[id].permitId == id)
    && (forall a, b | a in permits && b in permits && permits[a].Key() == permits[b].Key() :: a == b)
    && (forall id | id in permits :: permits[id].issuedAt < permits[id].expiresAt)
  }

  ghost predicate Invariant(s: State) {
    Indexed(s.permits) && s.revision == StageSum(s.permits)
  }

  lemma ReserveKeepsInvariant(s: State, q: ReserveRequest)
    requires Invariant(s)
    ensures Invariant(ReserveStep(s, q).0)
  {
    var (s', r) := ReserveStep(s, q);
    if r.Ok? {
      var id := q.permit.permitId;
      StageSumUpdates(s.permits, id, r.value);
      assert s.permits - {id} == s.permits;
      assert forall a | a in s.permits :: s.permits[a].Key() != r.value.Key();
    }
  }

  lemma PromotionKeepsIndex(permits: map<Id, Permit>, id: Id, p: Permit)
    requires Indexed(permits) && id in permits && p.(state := permits[id].state) == permits[id]
    ensures Indexed(permits[id := p])
  {
    var permits' := permits[id := p];
    assert p.Key() == permits[id].Key();
    assert forall a | a in permits' :: permits'[a].Key() == permits[a].Key();
  }

  /** A permit that moves up one stage, and changes nothing else, keeps the invariant with the next revision. */
  lemma PromotionKeepsInvariant(s: State, id: Id, p: Permit)
    requires Invariant(s) && id in s.permits
    requires p.(state := s.permits[id].state) == s.permits[id] && Stage(p) == Stage(s.permits[id]) + 1
    ensures Invariant(State(s.revision + 1, s.observations, s.permits[id := p]))
  {
    StageSumUpdates(s.permits, id, p);
    StageSumSplits(s.permits, id);
    PromotionKeepsIndex(s.permits, id, p);
  }

  lemma ApplyKeepsInvariant(s: State, c: Call)
    requires Invariant(s)
    ensures Invariant(Apply(s, c))
  {
    match c
    case ReserveCall(q) => ReserveKeepsInvariant(s, q);
    case ConsumeCall(id, _, _, _, _) =>
      if Commits(s, c) {
        PromotionKeepsInvariant(s, id, s.permits[id].(state := Attempted));
      }
    case FinishCall(id, succeeded) =>
      if Commits(s, c) {
        PromotionKeepsInvariant(s, id, s.permits[id].(state := if succeeded then Succeeded else Failed));
      }
    case IdleCall =>
  }

  /** From a fresh store, the revision is always the sum of the permits' stages, and replay keys are unique. */
  lemma {:induction false} ReachableInvariant(calls: seq<Call>, n: nat)
    requires n <= |calls|
    ensures Invariant(After(FRESH, calls, n))
    decreases n
  {
    if n > 0 {
      ReachableInvariant(calls, n - 1);
      ApplyKeepsInvariant(After(FRESH, calls, n - 1), calls[n - 1]);
    }
  }

  // ---------- revisions ----------

  /** A call either commits and moves the revision by exactly one, or changes nothing at all. */
  lemma OneStep(s: State, c: Call)
    ensures if Commits(s, c) then Apply(s, c).revision == s.revision + 1 else Apply(s, c) == s
  {
  }

  lemma {:induction false} RevisionsGrow(s: State, calls: seq<Call>, i: nat, j: nat)
    requires i <= j <= |calls|
    ensures After(s, calls, i).revision <= After(s, calls, j).revision
    ensures After(s, calls, i).revision == After(s, calls, j).revision ==> After(s, calls, i) == After(s, calls, j)
    decreases j - i
  {
    if i < j {
      RevisionsGrow(s, calls, i, j - 1);
      OneStep(After(s, calls, j - 1), calls[j - 1]);
    }
  }

  /** A reserve that succeeds against a snapshot's revision commits against exactly the snapshot's contents. */
  lemma ReserveSeesItsSnapshot(s: State, calls: seq<Call>, i: nat, j: nat)
    requires i <= j < |calls| && calls[j].ReserveCall? && Commits(After(s, calls, j), calls[j])
    requires calls[j].request.expectedRevision == After(s, calls, i).revision
    ensures After(s, calls, j) == After(s, calls, i)
  {
    RevisionsGrow(s, calls, i, j);
  }

  /** No two reserves of a run succeed with the same expected revision. */
  lemma ExpectedRevisionsDiffer(s: State, calls: seq<Call>, i: nat, j: nat)
    requires i < j < |calls| && calls[i].ReserveCall? && calls[j].ReserveCall?
    requires Commits(After(s, calls, i), calls[i]) && Commits(After(s, calls, j), calls[j])
    ensures calls[i].request.expectedRevision < calls[j].request.expectedRevision
  {
    OneStep(After(s, calls, i), calls[i]);
    RevisionsGrow(s, calls, i + 1, j);
  }

  // ---------- what never changes ----------

  /** The later store keeps every observation and every permit, whose stage only goes up. */
  ghost predicate Extends(s: State, s': State) {
    && (forall k | k in s.observations :: k in s'.observations && s'.observations[k] == s.observations[k])
    && (forall id | id in s.permits ::
          && id in s'.permits && s'.permits[id].(state := s.permits[id].state) == s.permits[id]
          && Stage(s.permits[id]) <= Stage(s'.permits[id]))
  }

  lemma ApplyExtends(s: State, c: Call)
    ensures Extends(s, Apply(s, c))
  {
    if c.ReserveCall? && Commits(s, c) {
      AbsorbMeaning(s.observations, c.request.observations);
    }
  }

  /** A permit in the store was there before, or is the one a committed reserve asked for. */
  lemma PermitsComeFromReserves(s: State, c: Call, id: Id)
    requires id in Apply(s, c).permits
    ensures var p := Apply(s, c).permits[id];
            || (id in s.permits && p.(state := Reserved) == s.permits[id].(state := Reserved))
            || (c.ReserveCall? && Commits(s, c) && p == c.request.permit.(state := Reserved) && id == p.permitId)
  {
  }

  /** Observations are append-only: a key names one handoff for ever. Permits keep everything but their stage. */
  lemma {:induction false} RunsExtend(s: State, calls: seq<Call>, i: nat, j: nat)
    requires i <= j <= |calls|
    ensures Extends(After(s, calls, i), After(s, calls, j))
    decreases j - i
  {
    if i < j {
      RunsExtend(s, calls, i, j - 1);
      ApplyExtends(After(s, calls, j - 1), calls[j - 1]);
    }
  }

  /** What a committed reserve observed stays in the store as it was observed. */
  lemma ObservedForEver(calls: seq<Call>, i: nat, n: nat, o: Observation)
    requires i < n <= |calls| && calls[i].ReserveCall? && Commits(After(FRESH, calls, i), calls[i])
    requires o in calls[i].request.observations
    ensures var s := After(FRESH, calls, n);
      (o.kind, o.key) in s.observations && s.observations[(o.kind, o.key)] == o.handoffId
  {
    ReserveCommits(After(FRESH, calls, i), calls[i].request);
    assert After(FRESH, calls, i + 1) == Apply(After(FRESH, calls, i), calls[i]);
    RunsExtend(FRESH, calls, i + 1, n);
  }

  /** The permit was granted by the `m`-th call, and has since changed nothing but its stage. */
  ghost predicate GrantedBy(calls: seq<Call>, m: nat, p: Permit)
    requires m < |calls|
  {
    && calls[m].ReserveCall? && Commits(After(FRESH, calls, m), calls[m])
    && p.(state := Reserved) == calls[m].request.permit.(state := Reserved)
  }

  /** Every permit ever in the store was granted by an earlier, committed reserve. */
  lemma {:induction false} PermitsAreBacked(calls: seq<Call>, n: nat, id: Id) returns (m: nat)
    requires n <= |calls| && id in After(FRESH, calls, n).permits
    ensures m < n && GrantedBy(calls, m, After(FRESH, calls, n).permits[id])
    ensures After(FRESH, calls, n).permits[id].permitId == id
    decreases n
  {
    var p, s := After(FRESH, calls, n).permits[id], After(FRESH, calls, n - 1);
    PermitsComeFromReserves(s, calls[n - 1], id);
    if id in s.permits && p.(state := Reserved) == s.permits[id].(state := Reserved) {
      m := PermitsAreBacked(calls, n - 1, id);
    } else {
      m := n - 1;
    }
  }

  /** The replay key that the `n`-th call of the run consumes. */
  ghost predicate ConsumesKey(calls: seq<Call>, n: nat, key: ReplayKey)
    requires n < |calls|
  {
    && calls[n].ConsumeCall? && Commits(After(FRESH, calls, n), calls[n])
    && After(FRESH, calls, n).permits[calls[n].permitId].Key() == key
  }

  /** An allowed consume uses up exactly what an earlier committed reserve put aside, within its lifetime. */
  lemma ConsumesAreReserved(calls: seq<Call>, n: nat) returns (m: nat)
    requires n < |calls| && calls[n].ConsumeCall? && Commits(After(FRESH, calls, n), calls[n])
    ensures m < n && calls[m].ReserveCall? && Commits(After(FRESH, calls, m), calls[m])
    ensures var p, c := calls[m].request.permit, calls[n];
            && p.permitId == c.permitId && p.tool == c.tool && p.requestHash == c.requestHash && p.nonce == c.nonce
            && p.issuedAt <= c.now < p.expiresAt
    ensures ConsumesKey(calls, n, calls[m].request.permit.Key())
  {
    m := PermitsAreBacked(calls, n, calls[n].permitId);
  }

  // ---------- one consume per replay key ----------

  /** At most one consume is ever allowed per (tool, replay scope, nonce), whoever calls and in whatever order. */
  lemma ConsumedOnce(calls: seq<Call>, i: nat, j: nat, key: ReplayKey)
    requires i < |calls| && j < |calls| && ConsumesKey(calls, i, key) && ConsumesKey(calls, j, key)
    ensures i == j
  {
    if i < j {
      ConsumedBefore(calls, i, j, key);
    } else if j < i {
      ConsumedBefore(calls, j, i, key);
    }
  }

  lemma ConsumedBefore(calls: seq<Call>, i: nat, j: nat, key: ReplayKey)
    requires i < j < |calls| && ConsumesKey(calls, i, key)
    ensures !ConsumesKey(calls, j, key)
  {
    var id := calls[i].permitId;
    assert Stage(After(FRESH, calls, i + 1).permits[id]) == 2;
    RunsExtend(FRESH, calls, i + 1, j);
    var late := After(FRESH, calls, j);
    assert late.permits[id].Key() == key && late.permits[id].state != Reserved;
    ReachableInvariant(calls, j);
  }

  // ---------- what a new replay scope allows ----------

  function ConsumeOf(p: Permit, now: Time): Call {
    ConsumeCall(p.permitId, p.tool, p.requestHash, p.nonce, now)
  }

  /** Reserve and consume one permit, then another. */
  function TwoRounds(q: ReserveRequest, now: Time, q': ReserveRequest, now': Time): seq<Call> {
    [ReserveCall(q), ConsumeOf(q.permit, now), ReserveCall(q'), ConsumeOf(q'.permit, now')]
  }

  /** A request that the store can grant at a revision, and an instant at which its permit is live. */
  ghost predicate Grantable(q: ReserveRequest, revision: nat, now: Time) {
    q.expectedRevision == revision && q.permit.issuedAt <= now < q.permit.expiresAt
  }

  /** One round from reserve to consume on a permit identifier and a replay key that are free. */
  lemma RoundCommits(s: State, q: ReserveRequest, now: Time)
    requires Grantable(q, s.revision, now) && Absorb(s.observations, q.observations).Some?
    requires q.permit.permitId !in s.permits && !KeyTaken(s.permits, q.permit.Key())
    ensures Commits(s, ReserveCall(q)) && Commits(Apply(s, ReserveCall(q)), ConsumeOf(q.permit, now))
    ensures Apply(Apply(s, ReserveCall(q)), ConsumeOf(q.permit, now)) ==
            State(s.revision + 2, Absorb(s.observations, q.observations).value,
                  s.permits[q.permit.permitId := q.permit.(state := Attempted)])
  {
    var s1 := Apply(s, ReserveCall(q));
    assert s1.permits[q.permit.permitId] == q.permit.(state := Reserved);
    assert s1.permits[q.permit.permitId := q.permit.(state := Attempted)]
        == s.permits[q.permit.permitId := q.permit.(state := Attempted)];
  }

  /**
   The nonce is spent per replay scope only: for the same tool and nonce a second round passes from
   start to finish if and only if its permit stands under another replay scope.
   */
  lemma SecondRoundNeedsNewScope(q: ReserveRequest, now: Time, q': ReserveRequest, now': Time)
    requires Grantable(q, 0, now) && Grantable(q', 2, now') && Consistent(map[], q.observations + q'.observations)
    requires q.permit.permitId != q'.permit.permitId && q.permit.tool == q'.permit.tool && q.permit.nonce == q'.permit.nonce
    ensures var calls := TwoRounds(q, now, q', now');
      (forall n | 0 <= n < 4 :: Commits(After(FRESH, calls, n), calls[n])) <==>
        q.permit.replayScope != q'.permit.replayScope
  {
    var calls := TwoRounds(q, now, q', now');
    AbsorbSucceeds(map[], q.observations + q'.observations);
    AbsorbTwice(map[], q.observations, q'.observations);
    RoundCommits(FRESH, q, now);
    FirstRound(calls);
    var s2 := After(FRESH, calls, 2);
    var p := q.permit.(state := Attempted);
    assert s2.permits == map[q.permit.permitId := p];
    assert KeyTaken(s2.permits, q'.permit.Key()) <==> q.permit.replayScope == q'.permit.replayScope by {
      assert s2.permits[q.permit.permitId].Key() == q.permit.Key();
    }
    if q.permit.replayScope != q'.permit.replayScope {
      RoundCommits(s2, q', now');
      assert After(FRESH, calls, 3) == Apply(s2, calls[2]);
    } else {
      assert !Commits(After(FRESH, calls, 2), calls[2]);
    }
  }

  lemma FirstRound(calls: seq<Call>)
    requires |calls| == 4
    ensures After(FRESH, calls, 0) == FRESH && After(FRESH, calls, 1) == Apply(FRESH, calls[0])
    ensures After(FRESH, calls, 2) == Apply(Apply(FRESH, calls[0]), calls[1])
  {
    assert After(FRESH, calls, 1) == Apply(After(FRESH, calls, 0), calls[0]);
  }

  // ---------- conservation ----------

  function CommitCount(s: State, calls: seq<Call>, n: nat): nat
    requires n <= |calls|
  {
    if n == 0 then 0
    else CommitCount(s, calls, n - 1) + if Commits(After(s, calls, n - 1), calls[n - 1]) then 1 else 0
  }

  function ReserveCount(s: State, calls: seq<Call>, n: nat): nat
    requires n <= |calls|
  {
    if n == 0 then 0
    else ReserveCount(s, calls, n - 1)
         + if calls[n - 1].ReserveCall? && Commits(After(s, calls, n - 1), calls[n - 1]) then 1 else 0
  }

  /** Nothing is lost: the revision counts the committed calls, and the permits the committed reserves. */
  lemma {:induction false} CommitsAccountForState(calls: seq<Call>, n: nat)
    requires n <= |calls|
    ensures After(FRESH, calls, n).revision == CommitCount(FRESH, calls, n)
    ensures |After(FRESH, calls, n).permits| == ReserveCount(FRESH, calls, n)
    decreases n
  {
    if n > 0 {
      CommitsAccountForState(calls, n - 1);
      OneStep(After(FRESH, calls, n - 1), calls[n - 1]);
      PermitsGrow(After(FRESH, calls, n - 1), calls[n - 1]);
    }
  }

  lemma PermitsGrow(s: State, c: Call)
    ensures |Apply(s, c).permits| == |s.permits| + if c.ReserveCall? && Commits(s, c) then 1 else 0
  {
    if Commits(s, c) && !c.ReserveCall? {
      assert Apply(s, c).permits.Keys == s.permits.Keys;
    }
  }
}
