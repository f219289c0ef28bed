/** Compiling a schedule from unordered inputs, and the check a schedule makes of itself. */
module Compile {
  import opened Common
  import opened Model
  import opened Sorting
  import opened Partitions
  import opened Schedule

  ghost function Expected(messages: seq<Message>, policy: Policy, seed: Seed, overrides: seq<Override>): seq<Transmission>
    requires policy.Valid()
  {
    Sort(TransmissionsOf(messages, policy, seed, overrides), IdKey())
  }

  ghost function PlanOf(messages: seq<Message>, policy: Policy, seed: Seed, overrides: seq<Override>): Plan
    requires policy.Valid()
  {
    var ms, os := Sort(messages, SlotKey()), Sort(overrides, CopyKey());
    Plan(policy, ms, os, Expected(ms, policy, seed, os))
  }

  /** The inputs that compile: one message a slot, one override a copy, and no slot that no message uses. */
  ghost predicate Compilable(messages: seq<Message>, policy: Policy, overrides: seq<Override>) {
    && DistinctKeys(messages, SlotKey())
    && DistinctKeys(overrides, CopyKey())
    && (forall o | o in overrides :: o.slot in SlotsOf(messages))
    && policy.withheld <= SlotsOf(messages)
  }

  /**
   The inputs that compile to something that can be recorded: no copy is delivered past the last
   instant, and no partition that holds a delivered copy has too long a name for a fault tag.
   */
  ghost predicate Compiles(messages: seq<Message>, policy: Policy, seed: Seed, overrides: seq<Override>)
    requires policy.Valid()
  {
    && Compilable(messages, policy, overrides)
    && forall t | t in PlanOf(messages, policy, seed, overrides).transmissions :: t.Unwritable() == None
  }

  // ---------- when building succeeds ----------

  lemma SlotCount(messages: seq<Message>)
    ensures |SlotsOf(messages)| == |messages| <==> DistinctKeys(messages, SlotKey())
  {
    var keys := KeysOf(messages, SlotKey());
    CountingKeys(messages, SlotKey());
    assert keys == set x | x in SlotsOf(messages) :: (x, 0) by {
      forall m | m in messages
        ensures (m.slot, 0) in set x | x in SlotsOf(messages) :: (x, 0)
      {
        assert m.slot in SlotsOf(messages);
      }
    }
    PairedSize(SlotsOf(messages), keys);
  }

  lemma {:induction false} PairedSize(ids: set<Id>, keys: set<Key>)
    requires keys == set x | x in ids :: (x, 0)
    ensures |keys| == |ids|
    decreases ids
  {
    if ids == {} {
      assert keys == {};
    } else {
      var a :| a in ids;
      assert keys - {(a, 0)} == set x | x in ids - {a} :: (x, 0);
      PairedSize(ids - {a}, keys - {(a, 0)});
      assert (a, 0) in keys;
    }
  }

  lemma MapKeys(overrides: seq<Override>, o: Override)
    ensures (o.slot, o.copy) in OverrideMap(overrides) <==> CopyKey()(o) in KeysOf(overrides, CopyKey())
  {
    MapHolds(overrides);
  }

  lemma {:induction false} NoOverrideProblem(overrides: seq<Override>, slots: set<Id>)
    ensures OverrideProblem(overrides, slots) == None <==>
              DistinctKeys(overrides, CopyKey()) && forall o | o in overrides :: o.slot in slots
  {
    if overrides == [] {
    } else {
      var n := |overrides| - 1;
      var init, last := overrides[..n], overrides[n];
      assert overrides == init + [last];
      NoOverrideProblem(init, slots);
      MapKeys(init, last);
      DistinctOneMore(init, last, CopyKey());
    }
  }

  lemma SoundInputIsCompilable(messages: seq<Message>, policy: Policy, overrides: seq<Override>)
    ensures InputProblem(messages, policy, overrides) == None <==> Compilable(messages, policy, overrides)
  {
    SlotCount(messages);
    NoOverrideProblem(overrides, SlotsOf(messages));
  }

  /** Building sorted inputs meets no problem exactly if the inputs compile. */
  lemma BuildableIsCompiling(messages: seq<Message>, policy: Policy, seed: Seed, overrides: seq<Override>)
    requires policy.Valid()
    ensures BuildProblem(Sort(messages, SlotKey()), policy, seed, Sort(overrides, CopyKey())) == None <==>
              Compiles(messages, policy, seed, overrides)
  {
    var ms, os := Sort(messages, SlotKey()), Sort(overrides, CopyKey());
    SoundInputIsCompilable(ms, policy, os);
    CompilableSorted(messages, policy, overrides);
    WritableMeaning(TransmissionsOf(ms, policy, seed, os));
    SortMembers(TransmissionsOf(ms, policy, seed, os), IdKey());
  }

  /** A shared message would share its slot. */
  lemma {:induction false} DistinctSlotsDistinctMessages(messages: seq<Message>)
    ensures DistinctKeys(messages, SlotKey()) ==> |Elems(messages)| == |messages|
  {
    if messages == [] {
      assert Elems(messages) == {};
    } else {
      var n := |messages| - 1;
      DistinctSlotsDistinctMessages(messages[..n]);
      assert messages == messages[..n] + [messages[n]];
      assert Elems(messages) == Elems(messages[..n]) + {messages[n]};
      if DistinctKeys(messages, SlotKey()) {
        forall i | 0 <= i < n
          ensures messages[i] != messages[n]
        {
          assert SlotKey()(messages[i]) != SlotKey()(messages[n]);
        }
      }
    }
  }

  lemma CompilableSorted(messages: seq<Message>, policy: Policy, overrides: seq<Override>)
    ensures Compilable(messages, policy, overrides) <==>
            Compilable(Sort(messages, SlotKey()), policy, Sort(overrides, CopyKey()))
  {
    SortKeeps(messages, SlotKey());
    SortKeeps(overrides, CopyKey());
    CompilableForgetsOrder(messages, Sort(messages, SlotKey()), policy, overrides, Sort(overrides, CopyKey()));
  }

  lemma CompilableForgetsOrder(
    messages: seq<Message>, messages': seq<Message>, policy: Policy, overrides: seq<Override>, overrides': seq<Override>)
    requires multiset(messages) == multiset(messages') && multiset(overrides) == multiset(overrides')
    ensures Compilable(messages, policy, overrides) <==> Compilable(messages', policy, overrides')
  {
    SortForgetsOrder(messages, messages', SlotKey());
    SortForgetsOrder(overrides, overrides', CopyKey());
    SameBag(messages, messages');
    SameBag(overrides, overrides');
    assert SlotsOf(messages) == SlotsOf(messages');
  }

  // ---------- the methods ----------

  /** The tests a plan runs on its transmissions before it recompiles them. */
  ghost predicate PartsFit(messages: seq<Message>, overrides: seq<Override>, transmissions: seq<Transmission>) {
    && DistinctKeys(transmissions, IdKey())
    && (forall o | o in overrides :: o.slot in SlotsOf(messages))
    && (forall t | t in transmissions :: TransmissionFits(messages, t))
  }

  predicate TransmissionFits(messages: seq<Message>, t: Transmission) {
    && t.message in messages && t.message.slot == t.slot
    && (t.disposition == Deliver && t.deliveredAt.Some? ==> t.deliveredAt.value >= t.message.sentAt)
  }

  method CheckParts(messages: seq<Message>, overrides: seq<Override>, transmissions: seq<Transmission>)
    returns (problem: Option<DeliveryError>)
    ensures problem == None <==> PartsFit(messages, overrides, transmissions)
  {
    var ids := set t | t in transmissions :: (t.id, 0);
    assert ids == KeysOf(transmissions, IdKey());
    CountingKeys(transmissions, IdKey());
    if |ids| != |transmissions| {
      return Some(DuplicateTransmission);
    }
    var slots := SlotsOf(messages);
    for i := 0 to |overrides|
      invariant forall o | o in overrides[..i] :: o.slot in slots
    {
      assert overrides[i] in overrides;
      if overrides[i].slot !in slots {
        return Some(UnknownOverrideSlot);
      }
    }
    for i := 0 to |transmissions|
      invariant forall t | t in transmissions[..i] :: TransmissionFits(messages, t)
    {
      var t := transmissions[i];
      assert t in transmissions;
      if t.message !in messages {
        return Some(UnknownMessage);
      }
      if t.message.slot != t.slot {
        return Some(SlotMismatch);
      }
      if t.disposition == Deliver && t.deliveredAt.Some? && t.deliveredAt.value < t.message.sentAt {
        return Some(DeliveryBeforeSending);
      }
    }
    assert overrides[..|overrides|] == overrides;
    assert transmissions[..|transmissions|] == transmissions;
    problem := None;
  }

  /** What was compiled for a due copy passes the tests on a single transmission. */
  lemma CompiledCopyFits(messages: seq<Message>, policy: Policy, seed: Seed, overrides: seq<Override>, t: Transmission)
    requires policy.Valid() && AllValid(overrides) && t in TransmissionsOf(messages, policy, seed, overrides)
    ensures TransmissionFits(messages, t) && (t.disposition == Deliver ==> t.deliveredAt.Some?)
  {
    TransmissionsAreTheCopies(messages, policy, seed, overrides, t);
    MapHolds(overrides);
    OutcomeLaws(t.message, t.copy, policy, seed, Fixture(t.message.slot, t.copy, overrides));
  }

  lemma ExpectedIsSorted(messages: seq<Message>, policy: Policy, seed: Seed, overrides: seq<Override>)
    requires policy.Valid() && seed.Injective() && DistinctKeys(messages, SlotKey())
    ensures StrictlySorted(Expected(messages, policy, seed, overrides), IdKey())
    ensures DistinctKeys(Expected(messages, policy, seed, overrides), IdKey())
  {
    var built := TransmissionsOf(messages, policy, seed, overrides);
    TransmissionsAreDistinct(messages, policy, seed, overrides);
    SortKeeps(built, IdKey());
    SortForgetsOrder(built, Sort(built, IdKey()), IdKey());
  }

  /** What was compiled passes every test. */
  lemma CompiledPartsFit(messages: seq<Message>, policy: Policy, seed: Seed, overrides: seq<Override>)
    requires policy.Valid() && AllValid(overrides) && seed.Injective() && Compilable(messages, policy, overrides)
    ensures PartsFit(messages, overrides, Expected(messages, policy, seed, overrides))
    ensures StrictlySorted(Expected(messages, policy, seed, overrides), IdKey())
  {
    ExpectedIsSorted(messages, policy, seed, overrides);
    SortMembers(TransmissionsOf(messages, policy, seed, overrides), IdKey());
    forall t | t in Expected(messages, policy, seed, overrides)
      ensures TransmissionFits(messages, t)
    {
      CompiledCopyFits(messages, policy, seed, overrides, t);
    }
  }

  /** What the projections of a plan rely on. */
  ghost predicate Sound(plan: Plan) {
    && StrictlySorted(plan.transmissions, IdKey())
    && forall t | t in plan.transmissions :: t.disposition == Deliver ==> t.deliveredAt.Some?
  }

  lemma CompiledPlansAreSound(messages: seq<Message>, policy: Policy, seed: Seed, overrides: seq<Override>)
    requires policy.Valid() && AllValid(overrides) && seed.Injective() && Compilable(messages, policy, overrides)
    ensures Sound(PlanOf(messages, policy, seed, overrides))
  {
    var plan := PlanOf(messages, policy, seed, overrides);
    var ms, os := plan.messages, plan.overrides;
    CompilableSorted(messages, policy, overrides);
    SortMembers(overrides, CopyKey());
    SortMembers(TransmissionsOf(ms, policy, seed, os), IdKey());
    ExpectedIsSorted(ms, policy, seed, os);
    forall t | t in plan.transmissions
      ensures t.disposition == Deliver ==> t.deliveredAt.Some?
    {
      CompiledCopyFits(ms, policy, seed, os, t);
    }
  }

  /** What building a plan object checks of the parts it is given, ending in its own recompilation. */
  method MakePlan(policy: Policy, seed: Seed, messages: seq<Message>, overrides: seq<Override>, transmissions: seq<Transmission>)
    returns (r: Result<Plan, DeliveryError>)
    requires policy.Valid() && AllValid(overrides) && seed.Injective()
    ensures r.Ok? <==> && Compiles(messages, policy, seed, overrides)
                       && multiset(transmissions) == multiset(PlanOf(messages, policy, seed, overrides).transmissions)
    ensures r.Ok? ==> r.value == PlanOf(messages, policy, seed, overrides)
  {
    var ms := Sort(messages, SlotKey());
    var os := Sort(overrides, CopyKey());
    var ts := Sort(transmissions, IdKey());
    SortKeeps(transmissions, IdKey());
    SortMembers(overrides, CopyKey());
    CompilableSorted(messages, policy, overrides);
    DistinctSlotsDistinctMessages(ms);
    SlotCount(ms);
    CountingKeys(os, CopyKey());
    BuildableIsCompiling(messages, policy, seed, overrides);
    SoundInputIsCompilable(ms, policy, os);
    RecompilationSettles(ms, policy, seed, os, transmissions);
    if |Elems(ms)| != |ms| {
      return Err(DuplicateMessage);
    }
    if |SlotsOf(ms)| != |ms| {
      return Err(DuplicateSlot);
    }
    var copyKeys := set o | o in os :: (o.slot as int, o.copy as int);
    assert copyKeys == KeysOf(os, CopyKey());
    if |copyKeys| != |os| {
      return Err(DuplicateOverride);
    }
    var checked := CheckParts(ms, os, ts);
    if checked.Some? {
      return Err(checked.value);
    }
    var built := BuildTransmissions(ms, policy, seed, os);
    if built.Err? {
      return Err(built.error);
    }
    if ts != Sort(built.value, IdKey()) {
      return Err(NotTheCompiledSchedule);
    }
    r := Ok(Plan(policy, ms, os, ts));
  }

  /** Given compilable inputs, only the compiled transmissions pass, and they pass in any arrangement. */
  lemma RecompilationSettles(
    messages: seq<Message>, policy: Policy, seed: Seed, overrides: seq<Override>, transmissions: seq<Transmission>)
    requires policy.Valid() && AllValid(overrides) && seed.Injective()
    ensures Compilable(messages, policy, overrides) ==>
              (multiset(transmissions) == multiset(Expected(messages, policy, seed, overrides)) <==>
               Sort(transmissions, IdKey()) == Expected(messages, policy, seed, overrides))
    ensures Compilable(messages, policy, overrides) ==> PartsFit(messages, overrides, Expected(messages, policy, seed, overrides))
  {
    if Compilable(messages, policy, overrides) {
      var expected := Expected(messages, policy, seed, overrides);
      CompiledPartsFit(messages, policy, seed, overrides);
      SortKeeps(transmissions, IdKey());
      if multiset(transmissions) == multiset(expected) {
        SameBag(transmissions, expected);
        SortForgetsOrder(expected, transmissions, IdKey());
        SortIsTheSorted(transmissions, expected, IdKey());
      }
    }
  }

  method CompileSchedule(messages: seq<Message>, policy: Policy, seed: Seed, overrides: seq<Override>)
    returns (r: Result<Plan, DeliveryError>)
    requires policy.Valid() && AllValid(overrides) && seed.Injective()
    ensures r.Ok? <==> Compiles(messages, policy, seed, overrides)
    ensures r.Ok? ==> r.value == PlanOf(messages, policy, seed, overrides) && Sound(r.value)
    ensures !Distinct(messages) ==> r == Err(DuplicateMessage)
    ensures Distinct(messages) && r.Err? ==>
              BuildProblem(Sort(messages, SlotKey()), policy, seed, Sort(overrides, CopyKey())) == Some(r.error)
  {
    var ms := Sort(messages, SlotKey());
    SortedRepeats(messages);
    CompilableSorted(messages, policy, overrides);
    DistinctSlotsDistinctMessages(ms);
    SlotCount(ms);
    if |Elems(ms)| != |ms| {
      return Err(DuplicateMessage);
    }
    if |SlotsOf(ms)| != |ms| {
      return Err(DuplicateSlot);
    }
    var os := Sort(overrides, CopyKey());
    SortMembers(overrides, CopyKey());
    BuildableIsCompiling(messages, policy, seed, overrides);
    var built := BuildTransmissions(ms, policy, seed, os);
    if built.Err? {
      return Err(built.error);
    }
    SortKeeps(built.value, IdKey());
    SortTwice(messages, SlotKey());
    SortTwice(overrides, CopyKey());
    CompiledPlansAreSound(messages, policy, seed, overrides);
    r := MakePlan(policy, seed, ms, os, built.value);
  }

  lemma {:induction false} CountingElems(s: seq<Message>)
    ensures |Elems(s)| == |s| <==> Distinct(s)
    ensures |Elems(s)| <= |s|
  {
    if s == [] {
      assert Elems(s) == {};
    } else {
      var n := |s| - 1;
      assert s == s[..n] + [s[n]];
      CountingElems(s[..n]);
      assert Elems(s) == Elems(s[..n]) + {s[n]};
      if s[n] in s[..n] {
        var j :| 0 <= j < n && s[..n][j] == s[n];
        assert s[j] == s[n];
        assert Elems(s) == Elems(s[..n]);
      } else {
        assert forall j | 0 <= j < n :: s[j] in s[..n];
      }
    }
  }

  /** Sorting does not hide a repeated message. */
  lemma SortedRepeats(messages: seq<Message>)
    ensures |Elems(Sort(messages, SlotKey()))| == |Sort(messages, SlotKey())| <==> Distinct(messages)
  {
    SortMembers(messages, SlotKey());
    CountingElems(messages);
    assert Elems(Sort(messages, SlotKey())) == Elems(messages);
  }

  lemma SortTwice<T>(s: seq<T>, key: T -> Key)
    ensures DistinctKeys(s, key) ==> Sort(Sort(s, key), key) == Sort(s, key)
  {
    SortKeeps(s, key);
    SortForgetsOrder(s, Sort(s, key), key);
  }

  // ---------- what compiling promises ----------

  /** The same plan for every arrangement of the inputs, or no plan for any of them. */
  lemma CompileForgetsOrder(
    messages: seq<Message>, messages': seq<Message>, policy: Policy, seed: Seed,
    overrides: seq<Override>, overrides': seq<Override>)
    requires policy.Valid()
    requires multiset(messages) == multiset(messages') && multiset(overrides) == multiset(overrides')
    ensures Compilable(messages, policy, overrides) <==> Compilable(messages', policy, overrides')
    ensures Compilable(messages, policy, overrides) ==>
              PlanOf(messages, policy, seed, overrides) == PlanOf(messages', policy, seed, overrides')
    ensures Compiles(messages, policy, seed, overrides) <==> Compiles(messages', policy, seed, overrides')
  {
    CompilableForgetsOrder(messages, messages', policy, overrides, overrides');
    SortForgetsOrder(messages, messages', SlotKey());
    SortForgetsOrder(overrides, overrides', CopyKey());
  }

  // ---------- which inputs compile, seen by a caller ----------

  /** No partition's name is too long for a fault tag, and nothing is sent within a year of the last instant. */
  predicate Roomy(messages: seq<Message>, policy: Policy) {
    && (forall w | w in policy.partitions :: w.partition.TagFits())
    && (forall m | m in messages :: m.sentAt + MAX_PROFILE_SECONDS <= LAST_INSTANT)
  }

  lemma RoomyCopy(m: Message, copy: nat, policy: Policy, seed: Seed, fixture: Option<Override>)
    requires policy.Valid() && Roomy([m], policy) && (fixture.Some? ==> fixture.value.Valid())
    ensures Outcome(m, copy, policy, seed, fixture).Unwritable() == None
  {
    var t := Outcome(m, copy, policy, seed, fixture);
    if t.disposition == Deliver {
      var ready := m.sentAt + DelayOf(m.slot, copy, policy, seed, fixture);
      var causes := CauseTags(m.slot, copy, policy, seed, fixture);
      OutcomeLaws(m, copy, policy, seed, fixture);
      assert m in [m];
      SettledWithin(m, copy, policy, seed, causes, ready);
      RoomyTags(policy, m, ready);
      TagsFit(causes, Release(Elems(policy.partitions), m, ready).1);
    }
  }

  lemma RoomyTags(policy: Policy, m: Message, ready: Time)
    requires forall w | w in policy.partitions :: w.partition.TagFits()
    ensures forall id | id in Release(Elems(policy.partitions), m, ready).1 :: id.TagFits()
  {
    forall id | id in Release(Elems(policy.partitions), m, ready).1
      ensures id.TagFits()
    {
      TagsHeldTheMessage(Elems(policy.partitions), m, ready, id);
    }
  }

  /** With short names and time to spare, which a caller can see beforehand, the inputs alone decide. */
  lemma RoomyInputsCompile(messages: seq<Message>, policy: Policy, seed: Seed, overrides: seq<Override>)
    requires policy.Valid() && AllValid(overrides) && Roomy(messages, policy)
    ensures Compiles(messages, policy, seed, overrides) <==> Compilable(messages, policy, overrides)
  {
    var plan := PlanOf(messages, policy, seed, overrides);
    SortMembers(messages, SlotKey());
    SortMembers(overrides, CopyKey());
    SortMembers(TransmissionsOf(plan.messages, policy, seed, plan.overrides), IdKey());
    MapHolds(plan.overrides);
    forall t | t in plan.transmissions
      ensures t.Unwritable() == None
    {
      TransmissionsAreTheCopies(plan.messages, policy, seed, plan.overrides, t);
      RoomyCopy(t.message, t.copy, policy, seed, Fixture(t.message.slot, t.copy, plan.overrides));
    }
  }

  /** One message, delivered without delay, duplication or loss, through at most one partition. */
  function Alone(sentAt: Time): Message {
    Message(1, 5, 6, sentAt, ProtocolSignal, OtherPayload(0))
  }

  function Prompt(delay: nat, partitions: seq<Window>): Policy {
    Policy(delay, delay, 0, 0, partitions, {})
  }

  lemma AlonePlanned(sentAt: Time, policy: Policy, seed: Seed)
    requires policy.Valid()
    ensures Outcome(Alone(sentAt), 0, policy, seed, None) in PlanOf([Alone(sentAt)], policy, seed, []).transmissions
  {
    var m := Alone(sentAt);
    var plan := PlanOf([m], policy, seed, []);
    var t := Outcome(m, 0, policy, seed, None);
    SortMembers([m], SlotKey());
    SortMembers(TransmissionsOf(plan.messages, policy, seed, []), IdKey());
    assert m in [m] && plan.overrides == [];
    TransmissionsAreTheCopies(plan.messages, policy, seed, [], t);
  }

  lemma AloneIsDelivered(sentAt: Time, delay: nat, partitions: seq<Window>, seed: Seed)
    requires Prompt(delay, partitions).Valid()
    ensures Compilable([Alone(sentAt)], Prompt(delay, partitions), [])
    ensures Outcome(Alone(sentAt), 0, Prompt(delay, partitions), seed, None)
            == Settled(Alone(sentAt), 0, Prompt(delay, partitions), seed, Deliver, {}, sentAt + delay)
  {
  }

  /** A copy that is ready inside a window is tagged with its partition, however long the name is. */
  lemma LongTagIsUnwritable(m: Message, copy: nat, policy: Policy, seed: Seed, ready: Time, w: Window)
    requires w in policy.partitions && w.Matches(m, ready) && !w.partition.TagFits()
    ensures Settled(m, copy, policy, seed, Deliver, {}, ready).Unwritable() != None
  {
    var windows := Elems(policy.partitions);
    assert w in Matching(windows, m, ready);
    assert w.partition in Release(windows, m, ready).1;
    TagsFit({}, Release(windows, m, ready).1);
  }

  /** A partition name of 119 to 128 characters makes compiling fail when a message meets the partition. */
  lemma LongPartitionNameFails(length: nat, seed: Seed)
    requires MAX_IDENTIFIER_LENGTH - TAG_PREFIX_LENGTH < length <= MAX_IDENTIFIER_LENGTH
    ensures var window := Window(PartitionId(7, length), 5, 6, 0, 10);
      && Prompt(0, [window]).Valid() && Compilable([Alone(3)], Prompt(0, [window]), [])
      && !Compiles([Alone(3)], Prompt(0, [window]), seed, [])
  {
    var window := Window(PartitionId(7, length), 5, 6, 0, 10);
    AloneIsDelivered(3, 0, [window], seed);
    AlonePlanned(3, Prompt(0, [window]), seed);
    LongTagIsUnwritable(Alone(3), 0, Prompt(0, [window]), seed, 3, window);
  }

  /** So does a delivery one second past the last instant. */
  lemma LateDeliveryFails(seed: Seed)
    ensures Prompt(1, []).Valid() && Compilable([Alone(LAST_INSTANT)], Prompt(1, []), [])
    ensures !Compiles([Alone(LAST_INSTANT)], Prompt(1, []), seed, [])
  {
    AloneIsDelivered(LAST_INSTANT, 1, [], seed);
    AlonePlanned(LAST_INSTANT, Prompt(1, []), seed);
    SettledWithin(Alone(LAST_INSTANT), 0, Prompt(1, []), seed, {}, LAST_INSTANT + 1);
  }

  // ---------- what a compiled plan says, copy by copy ----------

  /** The override that names the copy, if one does. */
  ghost predicate IsFixture(overrides: seq<Override>, slot: Id, copy: nat, fixture: Option<Override>) {
    match fixture
    case None => forall o | o in overrides :: o.slot != slot || o.copy != copy
    case Some(o) => o in overrides && o.slot == slot && o.copy == copy
  }

  /** What the policy, the hash and the override of the copy make of it. */
  ghost predicate RightFate(t: Transmission, policy: Policy, seed: Seed, fixture: Option<Override>, stops: seq<Time>)
    requires policy.minDelay <= policy.maxDelay
  {
    && RightDisposition(t.slot, t.copy, policy, seed, fixture, t.disposition)
    && TimedRightly(t, policy, seed, fixture, stops) && TaggedRightly(t, policy, fixture, stops)
  }

  ghost predicate RightCopy(messages: seq<Message>, policy: Policy, seed: Seed, overrides: seq<Override>, t: Transmission)
    requires policy.minDelay <= policy.maxDelay
  {
    && t.message in messages && t.slot == t.message.slot && t.id == seed.transmissionId(t.slot, t.copy)
    && (t.copy < DrawnCopies(t.slot, policy, seed) || exists o | o in overrides :: o.slot == t.slot && t.copy <= o.copy)
    && exists fixture, stops :: IsFixture(overrides, t.slot, t.copy, fixture) && RightFate(t, policy, seed, fixture, stops)
  }

  lemma FateIsSettled(t: Transmission, t': Transmission, policy: Policy, seed: Seed, fixture: Option<Override>,
                      stops: seq<Time>, stops': seq<Time>)
    requires policy.minDelay <= policy.maxDelay
    requires t.id == t'.id && t.slot == t'.slot && t.message == t'.message && t.copy == t'.copy
    requires RightFate(t, policy, seed, fixture, stops) && RightFate(t', policy, seed, fixture, stops')
    ensures t == t'
  {
    if t.disposition == Deliver {
      StopsUnique(Elems(policy.partitions), t.message, t.message.sentAt + Delay(t.slot, t.copy, policy, seed, fixture), stops, stops');
    }
    forall tag
      ensures tag in t.tags <==> tag in t'.tags
    {
      match tag
      case PartitionTag(id) =>
      case _ =>
    }
  }

  lemma FixtureOfSorted(overrides: seq<Override>, slot: Id, copy: nat, fixture: Option<Override>)
    requires DistinctKeys(overrides, CopyKey())
    ensures IsFixture(overrides, slot, copy, fixture) <==> fixture == Fixture(slot, copy, Sort(overrides, CopyKey()))
  {
    var sorted := Sort(overrides, CopyKey());
    SortMembers(overrides, CopyKey());
    FixtureMeaning(slot, copy, sorted);
    if IsFixture(overrides, slot, copy, fixture) && fixture.Some? {
      SameCopySameOverride(overrides, fixture.value, Fixture(slot, copy, sorted).value);
    }
  }

  lemma SameCopySameOverride(overrides: seq<Override>, o: Override, o': Override)
    requires DistinctKeys(overrides, CopyKey()) && o in overrides && o' in overrides && o.slot == o'.slot && o.copy == o'.copy
    ensures o == o'
  {
    var i :| 0 <= i < |overrides| && overrides[i] == o;
    var j :| 0 <= j < |overrides| && overrides[j] == o';
    assert CopyKey()(overrides[i]) == CopyKey()(overrides[j]);
  }

  lemma DueInSorted(overrides: seq<Override>, slot: Id, policy: Policy, seed: Seed, copy: nat)
    ensures copy < CopyCount(slot, policy, seed, Sort(overrides, CopyKey())) <==>
            copy < DrawnCopies(slot, policy, seed) || exists o | o in overrides :: o.slot == slot && copy <= o.copy
  {
    SortMembers(overrides, CopyKey());
    CopyCountMeaning(slot, policy, seed, Sort(overrides, CopyKey()), copy);
  }

  /** The outcome of a copy is the one right record of it. */
  lemma OutcomeIsRight(messages: seq<Message>, policy: Policy, seed: Seed, overrides: seq<Override>, t: Transmission)
    requires policy.Valid() && DistinctKeys(overrides, CopyKey()) && t.message in messages
    ensures RightCopy(messages, policy, seed, overrides, t) <==>
            IsCopyOf(t, t.message, policy, seed, Sort(overrides, CopyKey()))
  {
    var m := t.message;
    var fixture := Fixture(m.slot, t.copy, Sort(overrides, CopyKey()));
    var stops := OutcomeMeaning(m, t.copy, policy, seed, fixture);
    FixtureOfSorted(overrides, m.slot, t.copy, fixture);
    DueInSorted(overrides, m.slot, policy, seed, t.copy);
    assert RightFate(Outcome(m, t.copy, policy, seed, fixture), policy, seed, fixture, stops);
    if RightCopy(messages, policy, seed, overrides, t) {
      var fixture', stops' :| IsFixture(overrides, t.slot, t.copy, fixture') && RightFate(t, policy, seed, fixture', stops');
      FixtureOfSorted(overrides, m.slot, t.copy, fixture');
      FateIsSettled(t, Outcome(m, t.copy, policy, seed, fixture), policy, seed, fixture, stops', stops);
    }
  }

  /**
   A compiled plan records every due copy rightly and records nothing else: withheld slots are
   withheld, then overrides decide, then the draws; each delivery is at the first instant after its
   delay at which no partition of the route holds it; and each tag stands for its cause.
   */
  lemma PlanIsRight(messages: seq<Message>, policy: Policy, seed: Seed, overrides: seq<Override>, t: Transmission)
    requires policy.Valid() && DistinctKeys(overrides, CopyKey())
    ensures t in PlanOf(messages, policy, seed, overrides).transmissions <==> RightCopy(messages, policy, seed, overrides, t)
  {
    var plan := PlanOf(messages, policy, seed, overrides);
    SortMembers(messages, SlotKey());
    SortMembers(TransmissionsOf(plan.messages, policy, seed, plan.overrides), IdKey());
    TransmissionsAreTheCopies(plan.messages, policy, seed, plan.overrides, t);
    if t.message in messages {
      OutcomeIsRight(messages, policy, seed, overrides, t);
    }
  }

  /** A compiled plan keeps its inputs, and holds messages, overrides and transmissions in strictly ascending order. */
  lemma PlanOrder(messages: seq<Message>, policy: Policy, seed: Seed, overrides: seq<Override>)
    requires policy.Valid() && AllValid(overrides) && seed.Injective() && Compilable(messages, policy, overrides)
    ensures var plan := PlanOf(messages, policy, seed, overrides);
      && plan.policy == policy
      && multiset(plan.messages) == multiset(messages) && multiset(plan.overrides) == multiset(overrides)
      && (forall i, j | 0 <= i < j < |plan.messages| :: plan.messages[i].slot < plan.messages[j].slot)
      && (forall i, j | 0 <= i < j < |plan.overrides| ::
            || plan.overrides[i].slot < plan.overrides[j].slot
            || (plan.overrides[i].slot == plan.overrides[j].slot && plan.overrides[i].copy < plan.overrides[j].copy))
      && (forall i, j | 0 <= i < j < |plan.transmissions| :: plan.transmissions[i].id < plan.transmissions[j].id)
  {
    var plan := PlanOf(messages, policy, seed, overrides);
    SortKeeps(messages, SlotKey());
    SortKeeps(overrides, CopyKey());
    CompiledPlansAreSound(messages, policy, seed, overrides);
    forall i, j | 0 <= i < j < |plan.messages|
      ensures plan.messages[i].slot < plan.messages[j].slot
    {
      assert Less(SlotKey()(plan.messages[i]), SlotKey()(plan.messages[j]));
    }
    forall i, j | 0 <= i < j < |plan.overrides|
      ensures Less((plan.overrides[i].slot, plan.overrides[i].copy), (plan.overrides[j].slot, plan.overrides[j].copy))
    {
      assert Less(CopyKey()(plan.overrides[i]), CopyKey()(plan.overrides[j]));
    }
    forall i, j | 0 <= i < j < |plan.transmissions|
      ensures plan.transmissions[i].id < plan.transmissions[j].id
    {
      assert Less(IdKey()(plan.transmissions[i]), IdKey()(plan.transmissions[j]));
    }
  }

  /** Which inputs compile, in their own fields. */
  lemma CompilesMeaning(messages: seq<Message>, policy: Policy, seed: Seed, overrides: seq<Override>)
    requires policy.Valid()
    ensures Compiles(messages, policy, seed, overrides) <==>
            && (forall i, j | 0 <= i < j < |messages| :: messages[i].slot != messages[j].slot)
            && (forall i, j | 0 <= i < j < |overrides| ::
                  overrides[i].slot != overrides[j].slot || overrides[i].copy != overrides[j].copy)
            && (forall o | o in overrides :: exists m | m in messages :: m.slot == o.slot)
            && (forall x | x in policy.withheld :: exists m | m in messages :: m.slot == x)
            && (forall t | RightCopy(messages, policy, seed, overrides, t) ::
                  && (t.deliveredAt.Some? ==> t.deliveredAt.value <= 253_402_300_799)
                  && (forall id | PartitionTag(id) in t.tags :: 10 + id.length <= 128))
  {
    CompilableMeaning(messages, policy, overrides);
    if DistinctKeys(overrides, CopyKey()) {
      forall t: Transmission
        ensures t in PlanOf(messages, policy, seed, overrides).transmissions <==> RightCopy(messages, policy, seed, overrides, t)
      {
        PlanIsRight(messages, policy, seed, overrides, t);
      }
      forall t: Transmission
        ensures t.Unwritable() == None <==>
                && (t.deliveredAt.Some? ==> t.deliveredAt.value <= 253_402_300_799)
                && (forall id | PartitionTag(id) in t.tags :: 10 + id.length <= 128)
      {
        WritableCopy(t);
      }
    }
  }

  lemma WritableCopy(t: Transmission)
    ensures t.Unwritable() == None <==>
            && (t.deliveredAt.Some? ==> t.deliveredAt.value <= 253_402_300_799)
            && (forall id | PartitionTag(id) in t.tags :: 10 + id.length <= 128)
  {
  }

  lemma CompilableMeaning(messages: seq<Message>, policy: Policy, overrides: seq<Override>)
    ensures Compilable(messages, policy, overrides) <==>
            && (forall i, j | 0 <= i < j < |messages| :: messages[i].slot != messages[j].slot)
            && (forall i, j | 0 <= i < j < |overrides| ::
                  overrides[i].slot != overrides[j].slot || overrides[i].copy != overrides[j].copy)
            && (forall o | o in overrides :: exists m | m in messages :: m.slot == o.slot)
            && (forall x | x in policy.withheld :: exists m | m in messages :: m.slot == x)
    ensures Compilable(messages, policy, overrides) ==> DistinctKeys(overrides, CopyKey())
    ensures (forall i, j | 0 <= i < j < |overrides| ::
               overrides[i].slot != overrides[j].slot || overrides[i].copy != overrides[j].copy) <==>
            DistinctKeys(overrides, CopyKey())
  {
  }

  ghost predicate Planned(ts: seq<Transmission>, m: Message, copy: nat) {
    exists t | t in ts :: t.message == m && t.copy == copy
  }

  /** In a compiled plan the copies of a message are numbered 0 to n-1 with n at most eight. */
  lemma PlanLaws(messages: seq<Message>, policy: Policy, seed: Seed, overrides: seq<Override>, m: Message) returns (n: nat)
    requires policy.Valid() && AllValid(overrides) && Compilable(messages, policy, overrides) && m in messages
    ensures 1 <= n <= 8
    ensures forall copy: nat :: Planned(PlanOf(messages, policy, seed, overrides).transmissions, m, copy) <==> copy < n
  {
    var plan := PlanOf(messages, policy, seed, overrides);
    n := CopyCount(m.slot, policy, seed, plan.overrides);
    SortMembers(messages, SlotKey());
    SortMembers(overrides, CopyKey());
    AtMostEightCopies(m.slot, policy, seed, plan.overrides);
    forall copy: nat
      ensures Planned(plan.transmissions, m, copy) <==> copy < n
    {
      CopyIsPlanned(messages, policy, seed, overrides, m, copy);
    }
  }

  lemma CopyIsPlanned(messages: seq<Message>, policy: Policy, seed: Seed, overrides: seq<Override>, m: Message, copy: nat)
    requires policy.Valid() && m in messages
    ensures var plan := PlanOf(messages, policy, seed, overrides);
      Planned(plan.transmissions, m, copy) <==> copy < CopyCount(m.slot, policy, seed, plan.overrides)
  {
    var plan := PlanOf(messages, policy, seed, overrides);
    var ms, os := plan.messages, plan.overrides;
    var t := Outcome(m, copy, policy, seed, Fixture(m.slot, copy, os));
    SortMembers(messages, SlotKey());
    SortMembers(TransmissionsOf(ms, policy, seed, os), IdKey());
    TransmissionsAreTheCopies(ms, policy, seed, os, t);
    assert t.message == m && t.copy == copy;
    if t' :| t' in plan.transmissions && t'.message == m && t'.copy == copy {
      TransmissionsAreTheCopies(ms, policy, seed, os, t');
    }
  }

  // ---------- contents do not matter ----------

  predicate SameHeader(m: Message, m': Message) {
    m.slot == m'.slot && m.origin == m'.origin && m.destination == m'.destination && m.sentAt == m'.sentAt
  }

  ghost predicate SameHeaders(ms: seq<Message>, ms': seq<Message>) {
    |ms| == |ms'| && forall i | 0 <= i < |ms| :: SameHeader(ms[i], ms'[i])
  }

  /** Equal but for the message carried. */
  predicate SameFate(t: Transmission, t': Transmission) {
    t' == t.(message := t'.message) && SameHeader(t.message, t'.message)
  }

  ghost predicate SameFates(ts: seq<Transmission>, ts': seq<Transmission>) {
    |ts| == |ts'| && forall i | 0 <= i < |ts| :: SameFate(ts[i], ts'[i])
  }

  lemma SettledIgnoresContents(
    m: Message, m': Message, copy: nat, policy: Policy, seed: Seed, disposition: Disposition, causes: set<Tag>, ready: Time)
    requires SameHeader(m, m')
    ensures SameFate(Settled(m, copy, policy, seed, disposition, causes, ready),
                     Settled(m', copy, policy, seed, disposition, causes, ready))
  {
    ReleaseSeesRouteOnly(Elems(policy.partitions), m, m', ready);
  }

  lemma OutcomeIgnoresContents(
    m: Message, m': Message, copy: nat, policy: Policy, seed: Seed, fixture: Option<Override>)
    requires policy.Valid() && SameHeader(m, m')
    ensures SameFate(Outcome(m, copy, policy, seed, fixture), Outcome(m', copy, policy, seed, fixture))
  {
    var disposition, causes := DispositionOf(m.slot, copy, policy, seed, fixture), CauseTags(m.slot, copy, policy, seed, fixture);
    var ready := m.sentAt + DelayOf(m.slot, copy, policy, seed, fixture);
    assert Outcome(m', copy, policy, seed, fixture) == Settled(m', copy, policy, seed, disposition, causes, ready);
    SettledIgnoresContents(m, m', copy, policy, seed, disposition, causes, ready);
  }

  lemma {:induction false} CopiesIgnoreContents(
    m: Message, m': Message, n: nat, policy: Policy, seed: Seed, overrides: seq<Override>)
    requires policy.Valid() && SameHeader(m, m')
    ensures SameFates(FirstCopies(m, n, policy, seed, overrides), FirstCopies(m', n, policy, seed, overrides))
  {
    if n > 0 {
      CopiesIgnoreContents(m, m', n - 1, policy, seed, overrides);
      OutcomeIgnoresContents(m, m', n - 1, policy, seed, Fixture(m.slot, n - 1, overrides));
    }
  }

  lemma {:induction false} TransmissionsIgnoreContents(
    ms: seq<Message>, ms': seq<Message>, policy: Policy, seed: Seed, overrides: seq<Override>)
    requires policy.Valid() && SameHeaders(ms, ms')
    ensures SameFates(TransmissionsOf(ms, policy, seed, overrides), TransmissionsOf(ms', policy, seed, overrides))
  {
    if ms != [] {
      var n := |ms| - 1;
      TransmissionsIgnoreContents(ms[..n], ms'[..n], policy, seed, overrides);
      assert SameHeader(ms[n], ms'[n]);
      CopiesIgnoreContents(ms[n], ms'[n], CopyCount(ms[n].slot, policy, seed, overrides), policy, seed, overrides);
    }
  }

  lemma {:induction false} InsertIgnoresContents(x: Message, x': Message, s: seq<Message>, s': seq<Message>)
    requires SameHeader(x, x') && SameHeaders(s, s')
    ensures SameHeaders(InsertSorted(x, s, SlotKey()), InsertSorted(x', s', SlotKey()))
  {
    if s != [] {
      assert SameHeader(s[0], s'[0]);
      InsertIgnoresContents(x, x', s[1..], s'[1..]);
    }
  }

  lemma {:induction false} SortIgnoresContents(s: seq<Message>, s': seq<Message>)
    requires SameHeaders(s, s')
    ensures SameHeaders(Sort(s, SlotKey()), Sort(s', SlotKey()))
  {
    if s != [] {
      var n := |s| - 1;
      SortIgnoresContents(s[..n], s'[..n]);
      assert SameHeader(s[n], s'[n]);
      InsertIgnoresContents(s[n], s'[n], Sort(s[..n], SlotKey()), Sort(s'[..n], SlotKey()));
    }
  }

  lemma {:induction false} InsertKeepsFates(x: Transmission, x': Transmission, s: seq<Transmission>, s': seq<Transmission>)
    requires SameFate(x, x') && SameFates(s, s')
    ensures SameFates(InsertSorted(x, s, IdKey()), InsertSorted(x', s', IdKey()))
  {
    if s != [] {
      assert SameFate(s[0], s'[0]);
      InsertKeepsFates(x, x', s[1..], s'[1..]);
    }
  }

  lemma {:induction false} SortKeepsFates(s: seq<Transmission>, s': seq<Transmission>)
    requires SameFates(s, s')
    ensures SameFates(Sort(s, IdKey()), Sort(s', IdKey()))
  {
    if s != [] {
      var n := |s| - 1;
      SortKeepsFates(s[..n], s'[..n]);
      assert SameFate(s[n], s'[n]);
      InsertKeepsFates(s[n], s'[n], Sort(s[..n], IdKey()), Sort(s'[..n], IdKey()));
    }
  }

  /** Payloads and kinds influence neither whether a schedule compiles nor the fate of any copy. */
  lemma ContentsDoNotMatter(ms: seq<Message>, ms': seq<Message>, policy: Policy, seed: Seed, overrides: seq<Override>)
    requires policy.Valid() && SameHeaders(ms, ms')
    ensures Compilable(ms, policy, overrides) <==> Compilable(ms', policy, overrides)
    ensures Compiles(ms, policy, seed, overrides) <==> Compiles(ms', policy, seed, overrides)
    ensures SameFates(PlanOf(ms, policy, seed, overrides).transmissions, PlanOf(ms', policy, seed, overrides).transmissions)
  {
    var os := Sort(overrides, CopyKey());
    SortIgnoresContents(ms, ms');
    TransmissionsIgnoreContents(Sort(ms, SlotKey()), Sort(ms', SlotKey()), policy, seed, os);
    SortKeepsFates(TransmissionsOf(Sort(ms, SlotKey()), policy, seed, os),
                   TransmissionsOf(Sort(ms', SlotKey()), policy, seed, os));
    SameWritable(PlanOf(ms, policy, seed, overrides).transmissions, PlanOf(ms', policy, seed, overrides).transmissions);
    SameSlots(ms, ms');
    SameSlots(ms', ms);
    assert forall i | 0 <= i < |ms| :: SlotKey()(ms[i]) == SlotKey()(ms'[i]) by {
      assert forall i | 0 <= i < |ms| :: SameHeader(ms[i], ms'[i]);
    }
  }

  lemma SameWritable(ts: seq<Transmission>, ts': seq<Transmission>)
    requires SameFates(ts, ts')
    ensures (forall t | t in ts :: t.Unwritable() == None) <==> (forall t | t in ts' :: t.Unwritable() == None)
  {
    forall i | 0 <= i < |ts|
      ensures ts[i].Unwritable() == ts'[i].Unwritable()
    {
      assert SameFate(ts[i], ts'[i]);
    }
    assert forall i | 0 <= i < |ts| :: ts[i] in ts;
    assert forall i | 0 <= i < |ts'| :: ts'[i] in ts';
  }

  lemma SameSlots(ms: seq<Message>, ms': seq<Message>)
    requires |ms| == |ms'| && forall i | 0 <= i < |ms| :: ms[i].slot == ms'[i].slot
    ensures SlotsOf(ms) <= SlotsOf(ms')
  {
    forall m | m in ms
      ensures m.slot in SlotsOf(ms')
    {
      var i :| 0 <= i < |ms| && ms[i] == m;
      assert ms'[i] in ms';
    }
  }
}
