/** From what was sent to what the gate decides: schedule, delivery, projection, validation, verdict. */
module EndToEnd {
  import opened Common
  import opened Model
  import opened Sorting
  import opened Schedule
  import opened Compile
  import opened Validation
  import opened Encoding
  import opened Gate
  import opened Prepare
  import opened Invariance
  import Projection

  /** The evidence messages a store holds at an instant: one copy of each that has arrived. */
  function EvidenceAt(plan: Plan, store: Id, t: Time): (ms: seq<Message>)
    ensures var ds := Projection.UniqueEvidenceOf(Projection.Projected(plan, store, t));
      |ms| == |ds| && forall k | 0 <= k < |ms| :: ms[k] == ds[k].message
  {
    var ds := Projection.UniqueEvidenceOf(Projection.Projected(plan, store, t));
    seq(|ds|, k requires 0 <= k < |ds| => ds[k].message)
  }

  ghost predicate HasArrived(plan: Plan, store: Id, t: Time, m: Message) {
    exists c | c in plan.transmissions :: c.message == m && Projection.Arrived(c, store, t)
  }

  /** A message is evidence at a store exactly when one of its copies has arrived there. */
  lemma EvidenceIsWhatArrived(plan: Plan, store: Id, t: Time, m: Message)
    ensures m in EvidenceAt(plan, store, t) <==> HasArrived(plan, store, t, m)
  {
    var projected := Projection.Projected(plan, store, t);
    var kept := Projection.UniqueEvidenceOf(projected);
    if m in EvidenceAt(plan, store, t) {
      var k :| 0 <= k < |kept| && EvidenceAt(plan, store, t)[k] == m;
      Projection.EvidenceWasDelivered(projected, kept[k]);
      Projection.ProjectedMeaning(plan, store, t, kept[k]);
    }
    if HasArrived(plan, store, t, m) {
      var c :| c in plan.transmissions && c.message == m && Projection.Arrived(c, store, t);
      Projection.ProjectedMeaning(plan, store, t, Projection.Receipt(c));
      Projection.EvidenceKeepsEveryMessage(projected, Projection.Receipt(c));
      var e :| e in kept && e.message == m;
      var k :| 0 <= k < |kept| && kept[k] == e;
      assert EvidenceAt(plan, store, t)[k] == m;
    }
  }

  function Destined(ms: seq<Message>, store: Id): set<Message> {
    set m | m in ms && m.destination == store
  }

  /** Some copy of every message for the store has arrived. */
  ghost predicate AllArrived(plan: Plan, ms: seq<Message>, store: Id, t: Time) {
    forall m {:trigger HasArrived(plan, store, t, m)} | m in ms && m.destination == store :: HasArrived(plan, store, t, m)
  }

  lemma TransmittedWasSent(ms: seq<Message>, policy: Policy, seed: Seed, overrides: seq<Override>, c: Transmission)
    requires policy.Valid() && c in PlanOf(ms, policy, seed, overrides).transmissions
    ensures c.message in ms
  {
    var sorted, os := Sort(ms, SlotKey()), Sort(overrides, CopyKey());
    SortMembers(TransmissionsOf(sorted, policy, seed, os), IdKey());
    TransmissionsAreTheCopies(sorted, policy, seed, os, c);
    SortMembers(ms, SlotKey());
  }

  /** Then the store's evidence is exactly the messages sent to it. */
  lemma ArrivedEvidence(ms: seq<Message>, policy: Policy, seed: Seed, overrides: seq<Override>, store: Id, t: Time)
    requires policy.Valid() && AllArrived(PlanOf(ms, policy, seed, overrides), ms, store, t)
    ensures Elems(EvidenceAt(PlanOf(ms, policy, seed, overrides), store, t)) == Destined(ms, store)
  {
    var plan := PlanOf(ms, policy, seed, overrides);
    forall m: Message
      ensures m in EvidenceAt(plan, store, t) <==> m in Destined(ms, store)
    {
      EvidenceIsWhatArrived(plan, store, t, m);
      if HasArrived(plan, store, t, m) {
        var c :| c in plan.transmissions && c.message == m && Projection.Arrived(c, store, t);
        TransmittedWasSent(ms, policy, seed, overrides, c);
      }
    }
  }

  /** Two ways to fill the same slots: other handoff evidence in some of them, nothing else different. */
  ghost predicate Recoded(ms: seq<Message>, ms': seq<Message>) {
    && SameHeaders(ms, ms')
    && forall i | 0 <= i < |ms| :: ms[i] == ms'[i] || (IsHandoffKind(ms[i].kind) && IsHandoffKind(ms'[i].kind))
  }

  lemma RecodedIsSymmetric(ms: seq<Message>, ms': seq<Message>)
    requires Recoded(ms, ms')
    ensures Recoded(ms', ms)
  {
    assert forall i | 0 <= i < |ms| :: SameHeader(ms[i], ms'[i]);
  }

  /** In slots of their own, messages with the same header are the same message. */
  lemma SameSlotSameMessage(ms: seq<Message>, m: Message, m': Message)
    requires DistinctKeys(ms, SlotKey()) && m in ms && m' in ms && m.slot == m'.slot
    ensures m == m'
  {
    var i :| 0 <= i < |ms| && ms[i] == m;
    var j :| 0 <= j < |ms| && ms[j] == m';
    assert SlotKey()(ms[i]) == SlotKey()(ms[j]);
  }

  /** The copy that stands where an arrived one stood in the other plan has arrived too. */
  lemma CounterpartArrives(ts: seq<Transmission>, ts': seq<Transmission>, c: Transmission, store: Id, t: Time)
    returns (c': Transmission)
    requires SameFates(ts, ts') && c in ts && Projection.Arrived(c, store, t)
    ensures c' in ts' && SameHeader(c.message, c'.message) && Projection.Arrived(c', store, t)
  {
    var j :| 0 <= j < |ts| && ts[j] == c;
    c' := ts'[j];
    assert SameFate(ts[j], ts'[j]);
  }

  /** Filled differently, the same slots arrive. */
  lemma RecodedArrives(ms: seq<Message>, ms': seq<Message>, policy: Policy, seed: Seed, overrides: seq<Override>,
                       store: Id, t: Time)
    requires policy.Valid() && Compilable(ms', policy, overrides) && SameHeaders(ms, ms')
    requires AllArrived(PlanOf(ms, policy, seed, overrides), ms, store, t)
    ensures AllArrived(PlanOf(ms', policy, seed, overrides), ms', store, t)
  {
    var plan, plan' := PlanOf(ms, policy, seed, overrides), PlanOf(ms', policy, seed, overrides);
    ContentsDoNotMatter(ms, ms', policy, seed, overrides);
    forall m' | m' in ms' && m'.destination == store
      ensures HasArrived(plan', store, t, m')
    {
      var i :| 0 <= i < |ms'| && ms'[i] == m';
      assert SameHeader(ms[i], m') && ms[i] in ms;
      assert HasArrived(plan, store, t, ms[i]);
      var c :| c in plan.transmissions && c.message == ms[i] && Projection.Arrived(c, store, t);
      var c' := CounterpartArrives(plan.transmissions, plan'.transmissions, c, store, t);
      TransmittedWasSent(ms', policy, seed, overrides, c');
      SameSlotSameMessage(ms', c'.message, m');
    }
  }

  lemma RecodedStatuses(ms: seq<Message>, ms': seq<Message>, store: Id, m: Message)
    requires Recoded(ms, ms') && m in Destined(ms, store) && m.kind == AuthorityStatus
    ensures m in Destined(ms', store)
  {
    var i :| 0 <= i < |ms| && ms[i] == m;
    assert ms'[i] == m;
  }

  lemma RecodedSameStatuses(reg: Registries, ms: seq<Message>, ms': seq<Message>, store: Id)
    requires Recoded(ms, ms')
    ensures StatusesIn(reg, Destined(ms, store)) == StatusesIn(reg, Destined(ms', store))
    ensures BadStatus(reg, Destined(ms, store)) <==> BadStatus(reg, Destined(ms', store))
  {
    RecodedIsSymmetric(ms, ms');
    forall m: Message | m.kind == AuthorityStatus
      ensures m in Destined(ms, store) <==> m in Destined(ms', store)
    {
      if m in Destined(ms, store) {
        RecodedStatuses(ms, ms', store, m);
      }
      if m in Destined(ms', store) {
        RecodedStatuses(ms', ms, store, m);
      }
    }
  }

  /** What a verifier sees at an instant, through the store it is bound to. */
  ghost predicate SeesThrough(v: LocalView, plan: Plan) {
    v.messages == EvidenceAt(plan, v.evidenceStore, v.decisionTime)
  }

  /**
   End to end: fill the same slots with two encodings of one trace, schedule both with the same
   seed, policy and overrides, and let the verifier's store receive them. Once every slot has
   arrived in one of the runs, it has in the other, and the gate reaches the same verdict in both.
   */
  lemma EncodingsReachOneVerdict(
    t: Trace, book: Receiptbook, reg: Registries, policy: Policy, seed: Seed, overrides: seq<Override>,
    rep: Representation, ms: seq<Message>, v: LocalView, snap: Snapshot, input: Input,
    rep': Representation, ms': seq<Message>, v': LocalView, snap': Snapshot, input': Input,
    cfg: Config, a: Action, tool: Id)
    requires policy.Valid() && Compilable(ms, policy, overrides) && Recoded(ms, ms')
    requires AllArrived(PlanOf(ms, policy, seed, overrides), ms, v.evidenceStore, v.decisionTime)
    requires var env := reg.EnvironmentAt(v.decisionTime);
      && Wellformed(t, env)
      && Delivers(rep, env, t, book, Destined(ms, v.evidenceStore))
      && Delivers(rep', env, t, book, Destined(ms', v.evidenceStore))
    requires SeesThrough(v, PlanOf(ms, policy, seed, overrides)) && SeesThrough(v', PlanOf(ms', policy, seed, overrides))
    requires v' == v.(messages := v'.messages)
    requires IsPrepared(v, rep, reg, snap, input) && IsPrepared(v', rep', reg, snap', input')
    ensures Compilable(ms', policy, overrides)
    ensures AllArrived(PlanOf(ms', policy, seed, overrides), ms', v.evidenceStore, v.decisionTime)
    ensures Verdict(cfg, input, a, tool) == Verdict(cfg, input', a, tool)
  {
    ContentsDoNotMatter(ms, ms', policy, seed, overrides);
    RecodedArrives(ms, ms', policy, seed, overrides, v.evidenceStore, v.decisionTime);
    ArrivedEvidence(ms, policy, seed, overrides, v.evidenceStore, v.decisionTime);
    ArrivedEvidence(ms', policy, seed, overrides, v.evidenceStore, v.decisionTime);
    RecodedSameStatuses(reg, ms, ms', v.evidenceStore);
    EquivalentEvidence(t, book, reg, snap, snap', rep, v, input, rep', v', input', cfg, a, tool);
  }
}
