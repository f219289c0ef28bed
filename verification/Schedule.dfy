/**
 The evaluator's delivery schedule: which copies of each message exist, and what becomes of each.
 The seeded hash behind the draws and the transmission identifiers is a parameter.
 */
module Schedule {
  import opened Common
  import opened Model
  import opened Sorting
  import opened Partitions

  const PARTS_PER_MILLION: nat := 1_000_000
  const MAX_PROFILE_SECONDS: nat := 31_536_000
  const MAX_COPY_INDEX: nat := 7

  datatype DrawLabel = DuplicateDraw | LossDraw | DelayDraw

  /** The hash values that the seed determines, before reduction, and the identifier of a copy. */
  datatype Seed = Seed(hash: (Id, nat, DrawLabel) -> nat, transmissionId: (Id, nat) -> int)
  {
    function Draw(slot: Id, copy: nat, drawLabel: DrawLabel, modulus: nat): nat
      requires modulus > 0
    {
      hash(slot, copy, drawLabel) % modulus
    }

    /** Transmission identifiers are content identifiers, hence injective. */
    ghost predicate Injective() {
      forall s, c, s', c' | transmissionId(s, c) == transmissionId(s', c') :: s == s' && c == c'
    }
  }

  datatype Disposition = Deliver | Lost | Withheld

  datatype Tag =
    | DuplicateCopy | ExplicitWithholding | OverrideSuppressed | FixtureOverride | StochasticLoss
    | PartitionTag(partition: PartitionId)
  {
    /** The tag, written out, is an identifier. Only the name of a partition can make it too long. */
    predicate Fits() {
      PartitionTag? ==> partition.TagFits()
    }
  }

  datatype Policy = Policy(
    minDelay: nat, maxDelay: nat, lossRate: nat, duplicateRate: nat,
    partitions: seq<Window>, withheld: set<Id>)
  {
    predicate Valid() {
      && minDelay <= maxDelay <= MAX_PROFILE_SECONDS
      && lossRate <= PARTS_PER_MILLION && duplicateRate <= PARTS_PER_MILLION
      && forall w | w in partitions :: w.Valid()
    }
  }

  datatype Override = Override(slot: Id, copy: nat, disposition: Disposition, delay: Option<nat>)
  {
    predicate Valid() {
      && copy <= MAX_COPY_INDEX
      && (delay.Some? ==> disposition == Deliver && delay.value <= MAX_PROFILE_SECONDS)
    }
  }

  datatype Transmission = Transmission(
    id: int, slot: Id, message: Message, copy: nat, disposition: Disposition,
    deliveredAt: Option<Time>, tags: set<Tag>)
  {
    /** Why no record of this outcome can be made: an instant past the calendar, or a tag too long. */
    ghost function Unwritable(): Option<DeliveryError> {
      if deliveredAt.Some? && deliveredAt.value > LAST_INSTANT then Some(DeliveryTimeOverflow)
      else if exists tag :: tag in tags && !tag.Fits() then Some(TagTooLong)
      else None
    }
  }

  datatype Plan = Plan(
    policy: Policy, messages: seq<Message>, overrides: seq<Override>, transmissions: seq<Transmission>)

  datatype DeliveryError =
    | DuplicateMessage | DuplicateSlot | UnknownOverrideSlot | DuplicateOverride | UnknownWithheldSlot
    | DeliveryTimeOverflow | TagTooLong
    | DuplicateTransmission | UnknownMessage | SlotMismatch | DeliveryBeforeSending | NotTheCompiledSchedule

  ghost predicate AllValid(overrides: seq<Override>) {
    forall o | o in overrides :: o.Valid()
  }

  function SlotKey(): Message -> Key {
    (m: Message) => (m.slot, 0)
  }

  function CopyKey(): Override -> Key {
    (o: Override) => (o.slot, o.copy)
  }

  function IdKey(): Transmission -> Key {
    (t: Transmission) => (t.id, 0)
  }

  function SlotsOf(messages: seq<Message>): set<Id> {
    set m | m in messages :: m.slot
  }

  // ---------- what becomes of one copy ----------

  function OverrideMap(overrides: seq<Override>): map<(Id, nat), Override> {
    if overrides == [] then map[]
    else
      var o := overrides[|overrides| - 1];
      OverrideMap(overrides[..|overrides| - 1])[(o.slot, o.copy) := o]
  }

  function Fixture(slot: Id, copy: nat, overrides: seq<Override>): Option<Override> {
    var chosen := OverrideMap(overrides);
    if (slot, copy) in chosen then Some(chosen[(slot, copy)]) else None
  }

  function BaseCopies(slot: Id, policy: Policy, seed: Seed): nat {
    if seed.Draw(slot, 0, DuplicateDraw, PARTS_PER_MILLION) < policy.duplicateRate then 2 else 1
  }

  /** One copy, or two when the duplicate draw says so, or as many as an override asks for. */
  function CopiesFor(slot: Id, base: nat, overrides: seq<Override>): nat {
    if overrides == [] then base
    else
      var n := |overrides| - 1;
      var earlier := CopiesFor(slot, base, overrides[..n]);
      if overrides[n].slot == slot && overrides[n].copy >= earlier then overrides[n].copy + 1 else earlier
  }

  function CopyCount(slot: Id, policy: Policy, seed: Seed, overrides: seq<Override>): nat {
    CopiesFor(slot, BaseCopies(slot, policy, seed), overrides)
  }

  function DispositionOf(slot: Id, copy: nat, policy: Policy, seed: Seed, fixture: Option<Override>): Disposition {
    if slot in policy.withheld then Withheld
    else if fixture.Some? then fixture.value.disposition
    else if seed.Draw(slot, copy, LossDraw, PARTS_PER_MILLION) < policy.lossRate then Lost
    else Deliver
  }

  function DelayOf(slot: Id, copy: nat, policy: Policy, seed: Seed, fixture: Option<Override>): nat
    requires policy.Valid()
  {
    if fixture.Some? && fixture.value.delay.Some? then fixture.value.delay.value
    else policy.minDelay + seed.Draw(slot, copy, DelayDraw, policy.maxDelay - policy.minDelay + 1)
  }

  function CauseTags(slot: Id, copy: nat, policy: Policy, seed: Seed, fixture: Option<Override>): set<Tag> {
    (if copy > 0 then {DuplicateCopy} else {}) +
    (if slot in policy.withheld then
       {ExplicitWithholding} + (if fixture.Some? then {OverrideSuppressed} else {})
     else if fixture.Some? then {FixtureOverride}
     else if DispositionOf(slot, copy, policy, seed, fixture) == Lost then {StochasticLoss}
     else {})
  }

  function PartitionTags(ids: set<PartitionId>): set<Tag> {
    set id | id in ids :: PartitionTag(id)
  }

  /** The record of a copy once its disposition, its tags so far and the instant it is ready are known. */
  ghost function Settled(
    m: Message, copy: nat, policy: Policy, seed: Seed, disposition: Disposition, causes: set<Tag>, ready: Time): Transmission
  {
    if disposition == Deliver then
      var release := Release(Elems(policy.partitions), m, ready);
      Transmission(seed.transmissionId(m.slot, copy), m.slot, m, copy, disposition,
                   Some(release.0), causes + PartitionTags(release.1))
    else
      Transmission(seed.transmissionId(m.slot, copy), m.slot, m, copy, disposition, None, causes)
  }

  ghost function Outcome(m: Message, copy: nat, policy: Policy, seed: Seed, fixture: Option<Override>): Transmission
    requires policy.Valid()
  {
    Settled(m, copy, policy, seed, DispositionOf(m.slot, copy, policy, seed, fixture),
            CauseTags(m.slot, copy, policy, seed, fixture), m.sentAt + DelayOf(m.slot, copy, policy, seed, fixture))
  }

  /** The first half of the source's loop body: what is to become of a copy, and why. */
  method DecideCopy(slot: Id, copy: nat, policy: Policy, seed: Seed, fixture: Option<Override>)
    returns (disposition: Disposition, delay: Option<nat>, tags: set<Tag>)
    requires policy.Valid() && (fixture.Some? ==> fixture.value.Valid())
    ensures disposition == DispositionOf(slot, copy, policy, seed, fixture)
    ensures tags == CauseTags(slot, copy, policy, seed, fixture)
    ensures disposition == Deliver ==> delay == Some(DelayOf(slot, copy, policy, seed, fixture))
  {
    tags := {};
    delay := None;
    if copy != 0 {
      tags := tags + {DuplicateCopy};
    }
    if slot in policy.withheld {
      disposition := Withheld;
      tags := tags + {ExplicitWithholding};
      if fixture.Some? {
        tags := tags + {OverrideSuppressed};
      }
    } else if fixture.Some? {
      disposition := fixture.value.disposition;
      delay := fixture.value.delay;
      tags := tags + {FixtureOverride};
    } else {
      var lost := seed.Draw(slot, copy, LossDraw, PARTS_PER_MILLION);
      if lost < policy.lossRate {
        disposition := Lost;
        tags := tags + {StochasticLoss};
      } else {
        disposition := Deliver;
        var width := policy.maxDelay - policy.minDelay + 1;
        delay := Some(policy.minDelay + seed.Draw(slot, copy, DelayDraw, width));
      }
    }
    if disposition == Deliver && delay.None? {
      var width := policy.maxDelay - policy.minDelay + 1;
      delay := Some(policy.minDelay + seed.Draw(slot, copy, DelayDraw, width));
    }
  }

  /** The second half: wait out the partitions and make the record, if it can be made. */
  method WriteCopy(m: Message, copy: nat, policy: Policy, seed: Seed, disposition: Disposition, causes: set<Tag>, ready: Time)
    returns (r: Result<Transmission, DeliveryError>)
    requires policy.Valid() && forall tag | tag in causes :: !tag.PartitionTag?
    ensures var t := Settled(m, copy, policy, seed, disposition, causes, ready);
      && t.Unwritable() == (if r.Ok? then None else Some(r.error))
      && (r.Ok? ==> r.value == t)
  {
    var deliveredAt: Option<Time> := None;
    var tags := causes;
    if disposition == Deliver {
      SettledWithin(m, copy, policy, seed, causes, ready);
      if ready > LAST_INSTANT {
        return Err(DeliveryTimeOverflow);
      }
      var release := PartitionRelease(m, ready, policy.partitions);
      deliveredAt := Some(release.value.0);
      TagsFit(tags, release.value.1);
      tags := tags + PartitionTags(release.value.1);
      if exists id :: id in release.value.1 && !id.TagFits() {
        return Err(TagTooLong);
      }
    }
    r := Ok(Transmission(seed.transmissionId(m.slot, copy), m.slot, m, copy, disposition, deliveredAt, tags));
  }

  /** The loop body of the source: decide, delay, wait out the partitions, and record. */
  method ScheduleCopy(m: Message, copy: nat, policy: Policy, seed: Seed, overrideMap: map<(Id, nat), Override>)
    returns (r: Result<Transmission, DeliveryError>)
    requires policy.Valid() && forall k | k in overrideMap :: overrideMap[k].Valid()
    ensures var fixture := if (m.slot, copy) in overrideMap then Some(overrideMap[(m.slot, copy)]) else None;
      var t := Outcome(m, copy, policy, seed, fixture);
      && t.Unwritable() == (if r.Ok? then None else Some(r.error))
      && (r.Ok? ==> r.value == t)
  {
    var fixture := if (m.slot, copy) in overrideMap then Some(overrideMap[(m.slot, copy)]) else None;
    var disposition, delay, causes := DecideCopy(m.slot, copy, policy, seed, fixture);
    var ready := m.sentAt + if disposition == Deliver then delay.value else 0;
    UndeliveredForgetsDelay(m, copy, policy, seed, disposition, causes, ready,
                            m.sentAt + DelayOf(m.slot, copy, policy, seed, fixture));
    r := WriteCopy(m, copy, policy, seed, disposition, causes, ready);
  }

  lemma UndeliveredForgetsDelay(m: Message, copy: nat, policy: Policy, seed: Seed, disposition: Disposition,
                                causes: set<Tag>, ready: Time, ready': Time)
    ensures disposition != Deliver || ready == ready' ==>
              Settled(m, copy, policy, seed, disposition, causes, ready) ==
              Settled(m, copy, policy, seed, disposition, causes, ready')
  {
  }

  /** A delivery is past the calendar exactly if it was before it waited. */
  lemma SettledWithin(m: Message, copy: nat, policy: Policy, seed: Seed, causes: set<Tag>, ready: Time)
    requires policy.Valid()
    ensures var t := Settled(m, copy, policy, seed, Deliver, causes, ready);
      t.deliveredAt.Some? && (t.deliveredAt.value > LAST_INSTANT <==> ready > LAST_INSTANT)
  {
    ReleaseIsFirstOpen(Elems(policy.partitions), m, ready);
    if ready <= LAST_INSTANT {
      ReleaseWithin(Elems(policy.partitions), m, ready, LAST_INSTANT);
    }
  }

  lemma TagsFit(causes: set<Tag>, ids: set<PartitionId>)
    requires forall tag | tag in causes :: !tag.PartitionTag?
    ensures (exists tag :: tag in causes + PartitionTags(ids) && !tag.Fits()) <==> exists id :: id in ids && !id.TagFits()
  {
    if id :| id in ids && !id.TagFits() {
      assert PartitionTag(id) in causes + PartitionTags(ids) && !PartitionTag(id).Fits();
    }
  }

  // ---------- every copy of every message ----------

  ghost function FirstCopies(m: Message, n: nat, policy: Policy, seed: Seed, overrides: seq<Override>): seq<Transmission>
    requires policy.Valid()
  {
    if n == 0 then []
    else FirstCopies(m, n - 1, policy, seed, overrides) +
         [Outcome(m, n - 1, policy, seed, Fixture(m.slot, n - 1, overrides))]
  }

  ghost function TransmissionsOf(messages: seq<Message>, policy: Policy, seed: Seed, overrides: seq<Override>): seq<Transmission>
    requires policy.Valid()
  {
    if messages == [] then []
    else
      var m := messages[|messages| - 1];
      TransmissionsOf(messages[..|messages| - 1], policy, seed, overrides) +
      FirstCopies(m, CopyCount(m.slot, policy, seed, overrides), policy, seed, overrides)
  }

  ghost function OverrideProblem(overrides: seq<Override>, slots: set<Id>): Option<DeliveryError> {
    if overrides == [] then None
    else
      var n := |overrides| - 1;
      var earlier := OverrideProblem(overrides[..n], slots);
      if earlier.Some? then earlier
      else if overrides[n].slot !in slots then Some(UnknownOverrideSlot)
      else if (overrides[n].slot, overrides[n].copy) in OverrideMap(overrides[..n]) then Some(DuplicateOverride)
      else None
  }

  ghost function FirstUnwritable(ts: seq<Transmission>): Option<DeliveryError> {
    if ts == [] then None
    else
      var earlier := FirstUnwritable(ts[..|ts| - 1]);
      if earlier.Some? then earlier else ts[|ts| - 1].Unwritable()
  }

  ghost function InputProblem(messages: seq<Message>, policy: Policy, overrides: seq<Override>): Option<DeliveryError> {
    if |SlotsOf(messages)| != |messages| then Some(DuplicateSlot)
    else if OverrideProblem(overrides, SlotsOf(messages)).Some? then OverrideProblem(overrides, SlotsOf(messages))
    else if !(policy.withheld <= SlotsOf(messages)) then Some(UnknownWithheldSlot)
    else None
  }

  ghost function BuildProblem(messages: seq<Message>, policy: Policy, seed: Seed, overrides: seq<Override>): Option<DeliveryError>
    requires policy.Valid()
  {
    if InputProblem(messages, policy, overrides).Some? then InputProblem(messages, policy, overrides)
    else FirstUnwritable(TransmissionsOf(messages, policy, seed, overrides))
  }

  lemma {:induction false} FirstUnwritableStays(early: seq<Transmission>, late: seq<Transmission>)
    requires early <= late && FirstUnwritable(early).Some?
    ensures FirstUnwritable(late) == FirstUnwritable(early)
    decreases |late|
  {
    if |early| == |late| {
      assert early == late;
    } else {
      FirstUnwritableStays(early, late[..|late| - 1]);
    }
  }

  lemma {:induction false} WritableMeaning(ts: seq<Transmission>)
    ensures FirstUnwritable(ts) == None <==> forall t | t in ts :: t.Unwritable() == None
  {
    if ts != [] {
      var n := |ts| - 1;
      assert ts == ts[..n] + [ts[n]];
      WritableMeaning(ts[..n]);
      assert ts[n] in ts;
    }
  }

  lemma {:induction false} FewerCopiesFirst(m: Message, c: nat, n: nat, policy: Policy, seed: Seed, overrides: seq<Override>)
    requires policy.Valid() && c <= n
    ensures FirstCopies(m, c, policy, seed, overrides) <= FirstCopies(m, n, policy, seed, overrides)
    decreases n
  {
    if c < n {
      FewerCopiesFirst(m, c, n - 1, policy, seed, overrides);
    }
  }

  lemma {:induction false} FewerMessagesFirst(messages: seq<Message>, i: nat, policy: Policy, seed: Seed, overrides: seq<Override>)
    requires policy.Valid() && i <= |messages|
    ensures TransmissionsOf(messages[..i], policy, seed, overrides) <= TransmissionsOf(messages, policy, seed, overrides)
    decreases |messages| - i
  {
    if i == |messages| {
      assert messages[..i] == messages;
    } else {
      assert messages[..i + 1][..i] == messages[..i];
      FewerMessagesFirst(messages, i + 1, policy, seed, overrides);
    }
  }

  /** The transmissions built when the loops stand at a copy of a message are the first ones of the whole. */
  lemma BuiltSoFar(messages: seq<Message>, i: nat, c: nat, policy: Policy, seed: Seed, overrides: seq<Override>)
    requires policy.Valid() && i < |messages| && c <= CopyCount(messages[i].slot, policy, seed, overrides)
    ensures TransmissionsOf(messages[..i], policy, seed, overrides) + FirstCopies(messages[i], c, policy, seed, overrides)
            <= TransmissionsOf(messages, policy, seed, overrides)
  {
    assert messages[..i + 1][..i] == messages[..i];
    FewerCopiesFirst(messages[i], c, CopyCount(messages[i].slot, policy, seed, overrides), policy, seed, overrides);
    FewerMessagesFirst(messages, i + 1, policy, seed, overrides);
  }

  method IndexOverrides(overrides: seq<Override>, slots: set<Id>)
    returns (r: Result<map<(Id, nat), Override>, DeliveryError>)
    ensures OverrideProblem(overrides, slots) == (if r.Ok? then None else Some(r.error))
    ensures r.Ok? ==> r.value == OverrideMap(overrides)
  {
    var overrideMap: map<(Id, nat), Override> := map[];
    for i := 0 to |overrides|
      invariant OverrideProblem(overrides[..i], slots) == None
      invariant overrideMap == OverrideMap(overrides[..i])
    {
      var o := overrides[i];
      var key := (o.slot, o.copy);
      assert overrides[..i + 1][..i] == overrides[..i];
      if o.slot !in slots || key in overrideMap {
        ProblemPersists(overrides, i + 1, slots);
        return Err(if o.slot !in slots then UnknownOverrideSlot else DuplicateOverride);
      }
      overrideMap := overrideMap[key := o];
    }
    assert overrides[..|overrides|] == overrides;
    r := Ok(overrideMap);
  }

  lemma {:induction false} ProblemPersists(overrides: seq<Override>, i: nat, slots: set<Id>)
    requires i <= |overrides| && OverrideProblem(overrides[..i], slots).Some?
    ensures OverrideProblem(overrides, slots) == OverrideProblem(overrides[..i], slots)
    decreases |overrides| - i
  {
    if i == |overrides| {
      assert overrides[..i] == overrides;
    } else {
      assert overrides[..i + 1][..i] == overrides[..i];
      ProblemPersists(overrides, i + 1, slots);
    }
  }

  method CountCopies(slot: Id, policy: Policy, seed: Seed, overrides: seq<Override>) returns (n: nat)
    ensures n == CopyCount(slot, policy, seed, overrides)
  {
    var duplicate := seed.Draw(slot, 0, DuplicateDraw, PARTS_PER_MILLION);
    n := if duplicate < policy.duplicateRate then 2 else 1;
    for i := 0 to |overrides|
      invariant n == CopiesFor(slot, BaseCopies(slot, policy, seed), overrides[..i])
    {
      assert overrides[..i + 1][..i] == overrides[..i];
      if overrides[i].slot == slot && overrides[i].copy + 1 > n {
        n := overrides[i].copy + 1;
      }
    }
    assert overrides[..|overrides|] == overrides;
  }

  lemma {:induction false} MapHolds(overrides: seq<Override>)
    ensures forall k | k in OverrideMap(overrides) ::
      OverrideMap(overrides)[k] in overrides && k == (OverrideMap(overrides)[k].slot, OverrideMap(overrides)[k].copy)
    ensures forall o | o in overrides :: (o.slot, o.copy) in OverrideMap(overrides)
  {
    if overrides != [] {
      var n := |overrides| - 1;
      MapHolds(overrides[..n]);
      assert overrides == overrides[..n] + [overrides[n]];
    }
  }

  /** The next copy either extends what is built without a problem or is the first problem of the whole. */
  lemma OneMoreCopy(messages: seq<Message>, i: nat, copy: nat, policy: Policy, seed: Seed, overrides: seq<Override>)
    requires policy.Valid() && i < |messages| && copy < CopyCount(messages[i].slot, policy, seed, overrides)
    requires FirstUnwritable(TransmissionsOf(messages[..i], policy, seed, overrides)
                             + FirstCopies(messages[i], copy, policy, seed, overrides)) == None
    ensures var t := Outcome(messages[i], copy, policy, seed, Fixture(messages[i].slot, copy, overrides));
      var built := TransmissionsOf(messages[..i], policy, seed, overrides)
                   + FirstCopies(messages[i], copy + 1, policy, seed, overrides);
      && built == TransmissionsOf(messages[..i], policy, seed, overrides)
                  + FirstCopies(messages[i], copy, policy, seed, overrides) + [t]
      && FirstUnwritable(built) == t.Unwritable()
      && (t.Unwritable().Some? ==> FirstUnwritable(TransmissionsOf(messages, policy, seed, overrides)) == t.Unwritable())
  {
    var m := messages[i];
    var before := TransmissionsOf(messages[..i], policy, seed, overrides) + FirstCopies(m, copy, policy, seed, overrides);
    var t := Outcome(m, copy, policy, seed, Fixture(m.slot, copy, overrides));
    BuiltSoFar(messages, i, copy + 1, policy, seed, overrides);
    NextCopy(m, copy, policy, seed, overrides);
    assert before + [t] == TransmissionsOf(messages[..i], policy, seed, overrides)
                           + FirstCopies(m, copy + 1, policy, seed, overrides);
    OneMoreRecord(before, t, TransmissionsOf(messages, policy, seed, overrides));
  }

  lemma NextCopy(m: Message, copy: nat, policy: Policy, seed: Seed, overrides: seq<Override>)
    requires policy.Valid()
    ensures FirstCopies(m, copy + 1, policy, seed, overrides) ==
            FirstCopies(m, copy, policy, seed, overrides) + [Outcome(m, copy, policy, seed, Fixture(m.slot, copy, overrides))]
  {
  }

  lemma OneMoreRecord(before: seq<Transmission>, t: Transmission, whole: seq<Transmission>)
    requires FirstUnwritable(before) == None && before + [t] <= whole
    ensures FirstUnwritable(before + [t]) == t.Unwritable()
    ensures t.Unwritable().Some? ==> FirstUnwritable(whole) == t.Unwritable()
  {
    assert (before + [t])[..|before|] == before;
    if t.Unwritable().Some? {
      FirstUnwritableStays(before + [t], whole);
    }
  }

  /** The inner loop: every copy of one message. */
  method BuildCopies(messages: seq<Message>, i: nat, policy: Policy, seed: Seed, overrides: seq<Override>,
                     overrideMap: map<(Id, nat), Override>, built: seq<Transmission>)
    returns (r: Result<seq<Transmission>, DeliveryError>)
    requires policy.Valid() && i < |messages| && overrideMap == OverrideMap(overrides)
    requires forall k | k in overrideMap :: overrideMap[k].Valid()
    requires built == TransmissionsOf(messages[..i], policy, seed, overrides) && FirstUnwritable(built) == None
    ensures r.Ok? ==> r.value == built + FirstCopies(messages[i], CopyCount(messages[i].slot, policy, seed, overrides),
                                                     policy, seed, overrides)
    ensures r.Ok? ==> FirstUnwritable(r.value) == None
    ensures r.Err? ==> FirstUnwritable(TransmissionsOf(messages, policy, seed, overrides)) == Some(r.error)
  {
    var m := messages[i];
    var transmissions := built;
    var copyCount := CountCopies(m.slot, policy, seed, overrides);
    for copy := 0 to copyCount
      invariant transmissions == built + FirstCopies(m, copy, policy, seed, overrides)
      invariant FirstUnwritable(transmissions) == None
    {
      var t := ScheduleCopy(m, copy, policy, seed, overrideMap);
      OneMoreCopy(messages, i, copy, policy, seed, overrides);
      if t.Err? {
        return Err(t.error);
      }
      transmissions := transmissions + [t.value];
    }
    r := Ok(transmissions);
  }

  method BuildTransmissions(messages: seq<Message>, policy: Policy, seed: Seed, overrides: seq<Override>)
    returns (r: Result<seq<Transmission>, DeliveryError>)
    requires policy.Valid() && AllValid(overrides)
    ensures BuildProblem(messages, policy, seed, overrides) == (if r.Ok? then None else Some(r.error))
    ensures r.Ok? ==> r.value == TransmissionsOf(messages, policy, seed, overrides)
  {
    var slots := set m | m in messages :: m.slot;
    assert slots == SlotsOf(messages);
    if |slots| != |messages| {
      return Err(DuplicateSlot);
    }
    var indexed := IndexOverrides(overrides, slots);
    if indexed.Err? {
      return Err(indexed.error);
    }
    var overrideMap := indexed.value;
    if policy.withheld - slots != {} {
      return Err(UnknownWithheldSlot);
    }
    forall x | x in policy.withheld
      ensures x in slots
    {
      assert x !in policy.withheld - slots;
    }
    MapHolds(overrides);
    assert InputProblem(messages, policy, overrides) == None;
    var transmissions := [];
    for i := 0 to |messages|
      invariant transmissions == TransmissionsOf(messages[..i], policy, seed, overrides)
      invariant FirstUnwritable(transmissions) == None
    {
      var more := BuildCopies(messages, i, policy, seed, overrides, overrideMap, transmissions);
      if more.Err? {
        return more;
      }
      transmissions := more.value;
      assert messages[..i + 1][..i] == messages[..i];
    }
    assert messages[..|messages|] == messages;
    r := Ok(transmissions);
  }

  // ---------- what the transmissions are ----------

  lemma {:induction false} CopiesAreNumbered(m: Message, n: nat, policy: Policy, seed: Seed, overrides: seq<Override>)
    requires policy.Valid()
    ensures |FirstCopies(m, n, policy, seed, overrides)| == n
    ensures forall c | 0 <= c < n ::
      FirstCopies(m, n, policy, seed, overrides)[c] == Outcome(m, c, policy, seed, Fixture(m.slot, c, overrides))
  {
    if n > 0 {
      CopiesAreNumbered(m, n - 1, policy, seed, overrides);
    }
  }

  /** `t` is what the draws, the policy and the overrides make of one due copy of one of the messages. */
  ghost predicate IsCopyOf(t: Transmission, m: Message, policy: Policy, seed: Seed, overrides: seq<Override>)
    requires policy.Valid()
  {
    && t.copy < CopyCount(m.slot, policy, seed, overrides)
    && t == Outcome(m, t.copy, policy, seed, Fixture(m.slot, t.copy, overrides))
  }

  lemma CopiesOfOne(m: Message, policy: Policy, seed: Seed, overrides: seq<Override>, t: Transmission)
    requires policy.Valid()
    ensures t in FirstCopies(m, CopyCount(m.slot, policy, seed, overrides), policy, seed, overrides) <==>
            t.message == m && IsCopyOf(t, m, policy, seed, overrides)
  {
    var count := CopyCount(m.slot, policy, seed, overrides);
    var copies := FirstCopies(m, count, policy, seed, overrides);
    CopiesAreNumbered(m, count, policy, seed, overrides);
    if t in copies {
      var c :| 0 <= c < count && copies[c] == t;
      assert t.message == m && t.copy == c;
    }
    if t.message == m && IsCopyOf(t, m, policy, seed, overrides) {
      assert copies[t.copy] == t;
    }
  }

  /** Every due copy of every message, and nothing else. */
  lemma {:induction false} TransmissionsAreTheCopies(
    messages: seq<Message>, policy: Policy, seed: Seed, overrides: seq<Override>, t: Transmission)
    requires policy.Valid()
    ensures t in TransmissionsOf(messages, policy, seed, overrides) <==>
            t.message in messages && IsCopyOf(t, t.message, policy, seed, overrides)
  {
    if messages != [] {
      var n := |messages| - 1;
      assert messages == messages[..n] + [messages[n]];
      TransmissionsAreTheCopies(messages[..n], policy, seed, overrides, t);
      CopiesOfOne(messages[n], policy, seed, overrides, t);
    }
  }

  lemma CopiesAreDistinct(m: Message, n: nat, policy: Policy, seed: Seed, overrides: seq<Override>)
    requires policy.Valid() && seed.Injective()
    ensures DistinctKeys(FirstCopies(m, n, policy, seed, overrides), IdKey())
  {
    var copies := FirstCopies(m, n, policy, seed, overrides);
    CopiesAreNumbered(m, n, policy, seed, overrides);
    forall i, j | 0 <= i < j < n
      ensures copies[i].id != copies[j].id
    {
      assert copies[i].id == seed.transmissionId(m.slot, i);
      assert copies[j].id == seed.transmissionId(m.slot, j);
    }
  }

  lemma SlotInId(messages: seq<Message>, policy: Policy, seed: Seed, overrides: seq<Override>, t: Transmission)
    requires policy.Valid() && t in TransmissionsOf(messages, policy, seed, overrides)
    ensures t.message in messages && t.id == seed.transmissionId(t.message.slot, t.copy)
  {
    TransmissionsAreTheCopies(messages, policy, seed, overrides, t);
  }

  /** No two transmissions share an identifier, as long as no two messages share a slot. */
  lemma {:induction false} TransmissionsAreDistinct(messages: seq<Message>, policy: Policy, seed: Seed, overrides: seq<Override>)
    requires policy.Valid() && seed.Injective() && DistinctKeys(messages, SlotKey())
    ensures DistinctKeys(TransmissionsOf(messages, policy, seed, overrides), IdKey())
  {
    if messages != [] {
      var n := |messages| - 1;
      var init, m := messages[..n], messages[n];
      var before := TransmissionsOf(init, policy, seed, overrides);
      var copies := FirstCopies(m, CopyCount(m.slot, policy, seed, overrides), policy, seed, overrides);
      TransmissionsAreDistinct(init, policy, seed, overrides);
      CopiesAreDistinct(m, CopyCount(m.slot, policy, seed, overrides), policy, seed, overrides);
      forall i, c | 0 <= i < |before| && 0 <= c < |copies|
        ensures before[i].id != copies[c].id
      {
        SlotInId(init, policy, seed, overrides, before[i]);
        CopiesOfOne(m, policy, seed, overrides, copies[c]);
        var k :| 0 <= k < n && messages[k] == before[i].message;
        assert SlotKey()(messages[k]) != SlotKey()(m);
      }
      DistinctAppend(before, copies, IdKey());
    }
  }

  lemma {:induction false} CopiesMeaning(slot: Id, base: nat, overrides: seq<Override>, copy: nat)
    ensures copy < CopiesFor(slot, base, overrides) <==>
            copy < base || exists o | o in overrides :: o.slot == slot && copy <= o.copy
  {
    if overrides != [] {
      var n := |overrides| - 1;
      CopiesMeaning(slot, base, overrides[..n], copy);
      assert overrides == overrides[..n] + [overrides[n]];
      assert overrides[n] in overrides;
    }
  }

  /** Copies are numbered from zero, and there are never more than eight. */
  lemma AtMostEightCopies(slot: Id, policy: Policy, seed: Seed, overrides: seq<Override>)
    requires AllValid(overrides)
    ensures 1 <= CopyCount(slot, policy, seed, overrides) <= MAX_COPY_INDEX + 1
  {
    CopiesMeaning(slot, BaseCopies(slot, policy, seed), overrides, 0);
    CopiesMeaning(slot, BaseCopies(slot, policy, seed), overrides, MAX_COPY_INDEX + 1);
  }

  /** What holds of one copy whatever the draws: withholding wins, and arrival follows sending and waits out partitions. */
  lemma OutcomeLaws(m: Message, copy: nat, policy: Policy, seed: Seed, fixture: Option<Override>)
    requires policy.Valid() && (fixture.Some? ==> fixture.value.Valid())
    ensures var t := Outcome(m, copy, policy, seed, fixture);
      && (t.disposition == Deliver <==> t.deliveredAt.Some?)
      && (m.slot in policy.withheld ==> t.disposition == Withheld)
      && (fixture.None? && m.slot !in policy.withheld ==> t.disposition != Withheld)
      && (t.disposition == Deliver ==>
            var ready := m.sentAt + DelayOf(m.slot, copy, policy, seed, fixture);
            && m.sentAt <= ready <= m.sentAt + MAX_PROFILE_SECONDS
            && IsFirstOpen(Elems(policy.partitions), m, ready, t.deliveredAt.value))
  {
    ReleaseIsFirstOpen(Elems(policy.partitions), m, m.sentAt + DelayOf(m.slot, copy, policy, seed, fixture));
  }

  // ---------- what becomes of a copy, in the terms of the policy, the override and the hash ----------

  /** The policy's own number of copies. */
  function DrawnCopies(slot: Id, policy: Policy, seed: Seed): nat {
    if seed.hash(slot, 0, DuplicateDraw) % 1_000_000 < policy.duplicateRate then 2 else 1
  }

  /** The delay that the override fixes, or else the least delay plus the hash reduced to the width of the range. */
  function Delay(slot: Id, copy: nat, policy: Policy, seed: Seed, fixture: Option<Override>): nat
    requires policy.minDelay <= policy.maxDelay
  {
    match fixture
    case Some(Override(_, _, _, Some(seconds))) => seconds
    case _ => policy.minDelay + seed.hash(slot, copy, DelayDraw) % (policy.maxDelay - policy.minDelay + 1)
  }

  /** Withholding before the override, the override before the loss draw. */
  predicate RightDisposition(slot: Id, copy: nat, policy: Policy, seed: Seed, fixture: Option<Override>, d: Disposition) {
    if slot in policy.withheld then d == Withheld
    else if fixture.Some? then d == fixture.value.disposition
    else d == if seed.hash(slot, copy, LossDraw) % 1_000_000 < policy.lossRate then Lost else Deliver
  }

  /** Delivered at the last stop of the way from sending plus delay, and nothing else is delivered. */
  ghost predicate TimedRightly(t: Transmission, policy: Policy, seed: Seed, fixture: Option<Override>, stops: seq<Time>)
    requires policy.minDelay <= policy.maxDelay
  {
    if t.disposition == Deliver then
      && AreStops(Elems(policy.partitions), t.message, t.message.sentAt + Delay(t.slot, t.copy, policy, seed, fixture), stops)
      && t.deliveredAt == Some(stops[|stops| - 1])
    else t.deliveredAt == None
  }

  /** Each tag stands for its cause, and is there if and only if the cause is. */
  ghost predicate TaggedRightly(t: Transmission, policy: Policy, fixture: Option<Override>, stops: seq<Time>) {
    var withheld := t.slot in policy.withheld;
    && (DuplicateCopy in t.tags <==> t.copy > 0)
    && (ExplicitWithholding in t.tags <==> withheld)
    && (OverrideSuppressed in t.tags <==> withheld && fixture.Some?)
    && (FixtureOverride in t.tags <==> !withheld && fixture.Some?)
    && (StochasticLoss in t.tags <==> !withheld && fixture == None && t.disposition == Lost)
    && (forall id :: PartitionTag(id) in t.tags <==>
          t.disposition == Deliver && HeldAt(Elems(policy.partitions), t.message, stops, id))
  }

  lemma DispositionMeaning(slot: Id, copy: nat, policy: Policy, seed: Seed, fixture: Option<Override>)
    ensures RightDisposition(slot, copy, policy, seed, fixture, DispositionOf(slot, copy, policy, seed, fixture))
  {
  }

  /** The tags of a copy that are not about partitions stand for their causes. */
  ghost predicate CausedRightly(causes: set<Tag>, withheld: bool, copy: nat, disposition: Disposition, fixture: Option<Override>) {
    && (DuplicateCopy in causes <==> copy > 0)
    && (ExplicitWithholding in causes <==> withheld)
    && (OverrideSuppressed in causes <==> withheld && fixture.Some?)
    && (FixtureOverride in causes <==> !withheld && fixture.Some?)
    && (StochasticLoss in causes <==> !withheld && fixture == None && disposition == Lost)
    && (forall tag | tag in causes :: !tag.PartitionTag?)
  }

  lemma CausesMeaning(slot: Id, copy: nat, policy: Policy, seed: Seed, fixture: Option<Override>)
    ensures CausedRightly(CauseTags(slot, copy, policy, seed, fixture), slot in policy.withheld, copy,
                          DispositionOf(slot, copy, policy, seed, fixture), fixture)
  {
  }

  lemma SettledTagged(m: Message, copy: nat, policy: Policy, seed: Seed, fixture: Option<Override>,
                      disposition: Disposition, causes: set<Tag>, ready: Time, stops: seq<Time>)
    requires CausedRightly(causes, m.slot in policy.withheld, copy, disposition, fixture)
    requires forall id :: id in Release(Elems(policy.partitions), m, ready).1 <==> HeldAt(Elems(policy.partitions), m, stops, id)
    ensures TaggedRightly(Settled(m, copy, policy, seed, disposition, causes, ready), policy, fixture, stops)
  {
    SettledTags(m, copy, policy, seed, disposition, causes, ready);
  }

  lemma SettledTimed(m: Message, copy: nat, policy: Policy, seed: Seed, fixture: Option<Override>,
                     disposition: Disposition, causes: set<Tag>, ready: Time, stops: seq<Time>)
    requires policy.minDelay <= policy.maxDelay && ready == m.sentAt + Delay(m.slot, copy, policy, seed, fixture)
    requires AreStops(Elems(policy.partitions), m, ready, stops)
    requires stops[|stops| - 1] == Release(Elems(policy.partitions), m, ready).0
    ensures TimedRightly(Settled(m, copy, policy, seed, disposition, causes, ready), policy, seed, fixture, stops)
  {
  }

  lemma DelayMeaning(slot: Id, copy: nat, policy: Policy, seed: Seed, fixture: Option<Override>)
    requires policy.Valid()
    ensures DelayOf(slot, copy, policy, seed, fixture) == Delay(slot, copy, policy, seed, fixture)
  {
  }

  lemma SettledTags(m: Message, copy: nat, policy: Policy, seed: Seed, disposition: Disposition, causes: set<Tag>, ready: Time)
    ensures forall tag :: tag in Settled(m, copy, policy, seed, disposition, causes, ready).tags <==>
              || tag in causes
              || (disposition == Deliver && tag.PartitionTag? && tag.partition in Release(Elems(policy.partitions), m, ready).1)
  {
  }

  /** What becomes of a copy: disposition, arrival and tags, each from its own causes. */
  lemma OutcomeMeaning(m: Message, copy: nat, policy: Policy, seed: Seed, fixture: Option<Override>) returns (stops: seq<Time>)
    requires policy.Valid()
    ensures var t := Outcome(m, copy, policy, seed, fixture);
      && t.id == seed.transmissionId(m.slot, copy) && t.slot == m.slot && t.message == m && t.copy == copy
      && RightDisposition(m.slot, copy, policy, seed, fixture, t.disposition)
      && TimedRightly(t, policy, seed, fixture, stops) && TaggedRightly(t, policy, fixture, stops)
  {
    var disposition, causes := DispositionOf(m.slot, copy, policy, seed, fixture), CauseTags(m.slot, copy, policy, seed, fixture);
    var ready := m.sentAt + DelayOf(m.slot, copy, policy, seed, fixture);
    stops := ReleaseStops(Elems(policy.partitions), m, ready);
    DelayMeaning(m.slot, copy, policy, seed, fixture);
    CausesMeaning(m.slot, copy, policy, seed, fixture);
    DispositionMeaning(m.slot, copy, policy, seed, fixture);
    SettledMeaning(m, copy, policy, seed, fixture, disposition, causes, ready, stops);
  }

  lemma SettledMeaning(m: Message, copy: nat, policy: Policy, seed: Seed, fixture: Option<Override>,
                       disposition: Disposition, causes: set<Tag>, ready: Time, stops: seq<Time>)
    requires policy.minDelay <= policy.maxDelay && ready == m.sentAt + Delay(m.slot, copy, policy, seed, fixture)
    requires RightDisposition(m.slot, copy, policy, seed, fixture, disposition)
    requires CausedRightly(causes, m.slot in policy.withheld, copy, disposition, fixture)
    requires AreStops(Elems(policy.partitions), m, ready, stops)
    requires stops[|stops| - 1] == Release(Elems(policy.partitions), m, ready).0
    requires forall id :: id in Release(Elems(policy.partitions), m, ready).1 <==> HeldAt(Elems(policy.partitions), m, stops, id)
    ensures var t := Settled(m, copy, policy, seed, disposition, causes, ready);
      && t.id == seed.transmissionId(m.slot, copy) && t.slot == m.slot && t.message == m && t.copy == copy
      && RightDisposition(m.slot, copy, policy, seed, fixture, t.disposition)
      && TimedRightly(t, policy, seed, fixture, stops) && TaggedRightly(t, policy, fixture, stops)
  {
    SettledTimed(m, copy, policy, seed, fixture, disposition, causes, ready, stops);
    SettledTagged(m, copy, policy, seed, fixture, disposition, causes, ready, stops);
  }

  /** The override of a copy, if there is one; with one override a copy there is at most one. */
  lemma FixtureMeaning(slot: Id, copy: nat, overrides: seq<Override>)
    ensures var fixture := Fixture(slot, copy, overrides);
      && (fixture == None <==> forall o | o in overrides :: o.slot != slot || o.copy != copy)
      && (fixture.Some? ==> fixture.value in overrides && fixture.value.slot == slot && fixture.value.copy == copy)
  {
    MapHolds(overrides);
  }

  /** Copy numbers are due up to the drawn number, or up to the highest an override asks for. */
  lemma CopyCountMeaning(slot: Id, policy: Policy, seed: Seed, overrides: seq<Override>, copy: nat)
    ensures copy < CopyCount(slot, policy, seed, overrides) <==>
            copy < DrawnCopies(slot, policy, seed) || exists o | o in overrides :: o.slot == slot && copy <= o.copy
  {
    CopiesMeaning(slot, BaseCopies(slot, policy, seed), overrides, copy);
  }

  // ---------- what is wrong with inputs that do not build ----------

  /** The override at this place is the first that names no slot in use, or a copy already named. */
  ghost predicate FirstBadOverride(overrides: seq<Override>, slots: set<Id>, n: nat) {
    && n < |overrides|
    && (forall k | 0 <= k < n :: overrides[k].slot in slots && !NamedBefore(overrides, k))
    && (overrides[n].slot !in slots || NamedBefore(overrides, n))
  }

  ghost predicate NamedBefore(overrides: seq<Override>, n: nat)
    requires n < |overrides|
  {
    exists j | 0 <= j < n :: overrides[j].slot == overrides[n].slot && overrides[j].copy == overrides[n].copy
  }

  lemma NamedInMap(overrides: seq<Override>, n: nat)
    requires n < |overrides|
    ensures (overrides[n].slot, overrides[n].copy) in OverrideMap(overrides[..n]) <==> NamedBefore(overrides, n)
  {
    var o := overrides[n];
    MapHolds(overrides[..n]);
    if (o.slot, o.copy) in OverrideMap(overrides[..n]) {
      var p := OverrideMap(overrides[..n])[(o.slot, o.copy)];
      var j :| 0 <= j < n && overrides[..n][j] == p;
      assert overrides[j] == p;
    }
    if j :| 0 <= j < n && overrides[j].slot == o.slot && overrides[j].copy == o.copy {
      assert overrides[..n][j] == overrides[j] && overrides[j] in overrides[..n];
    }
  }

  /** The first bad override decides which error there is, an unknown slot before a repeated copy. */
  lemma {:induction false} OverrideProblemMeaning(overrides: seq<Override>, slots: set<Id>, n: nat)
    requires n <= |overrides|
    ensures var problem := OverrideProblem(overrides[..n], slots);
      && (problem == None <==> forall k | 0 <= k < n :: overrides[k].slot in slots && !NamedBefore(overrides, k))
      && (problem.Some? ==> exists k | 0 <= k < n ::
            FirstBadOverride(overrides, slots, k)
            && problem == Some(if overrides[k].slot in slots then DuplicateOverride else UnknownOverrideSlot))
    decreases n
  {
    if n > 0 {
      OverrideProblemMeaning(overrides, slots, n - 1);
      NamedInMap(overrides, n - 1);
      assert overrides[..n][..n - 1] == overrides[..n - 1];
      assert overrides[..n][n - 1] == overrides[n - 1];
    }
  }
}
