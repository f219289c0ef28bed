/** Directional half-open partitions that buffer a message until they end. */
module Partitions {
  import opened Common
  import opened Model

  const MAX_IDENTIFIER_LENGTH: nat := 128
  const TAG_PREFIX_LENGTH: nat := 10  // of "partition:"

  /** 9999-12-31T23:59:59Z, the last instant a timestamp can name, in seconds since 1970. */
  const LAST_INSTANT: Time := 253_402_300_799

  /** An identifier whose length matters, because it becomes part of a longer one. */
  datatype PartitionId = PartitionId(name: Id, length: nat)
  {
    predicate Valid() {
      1 <= length <= MAX_IDENTIFIER_LENGTH
    }

    /** The fault tag that names the partition is an identifier too. */
    predicate TagFits() {
      TAG_PREFIX_LENGTH + length <= MAX_IDENTIFIER_LENGTH
    }
  }

  datatype Window = Window(partition: PartitionId, origin: Id, destination: Id, startsAt: Time, endsAt: Time)
  {
    predicate Valid() {
      partition.Valid() && startsAt < endsAt <= LAST_INSTANT
    }

    predicate Matches(m: Message, t: Time) {
      origin == m.origin && destination == m.destination && startsAt <= t < endsAt
    }
  }

  datatype ReleaseError = DidNotConverge

  function Matching(windows: set<Window>, m: Message, t: Time): set<Window> {
    set w | w in windows && w.Matches(m, t)
  }

  function Ids(windows: set<Window>): set<PartitionId> {
    set w | w in windows :: w.partition
  }

  ghost predicate IsLatestEnd(t: Time, windows: set<Window>) {
    (exists w | w in windows :: w.endsAt == t) && forall w | w in windows :: w.endsAt <= t
  }

  lemma {:induction false} LatestEndExists(windows: set<Window>)
    requires windows != {}
    ensures exists t :: IsLatestEnd(t, windows)
    decreases windows
  {
    var w :| w in windows;
    var rest := windows - {w};
    if rest == {} {
      assert windows == {w};
      assert IsLatestEnd(w.endsAt, windows);
    } else {
      LatestEndExists(rest);
      var t :| IsLatestEnd(t, rest);
      assert windows == rest + {w};
      assert IsLatestEnd(if w.endsAt <= t then t else w.endsAt, windows);
    }
  }

  ghost function LatestEnd(windows: set<Window>): (t: Time)
    requires windows != {}
    ensures IsLatestEnd(t, windows)
  {
    LatestEndExists(windows);
    var t :| IsLatestEnd(t, windows);
    t
  }

  /** The windows that can still hold a message up at or after `t`. */
  ghost function Ahead(windows: set<Window>, t: Time): set<Window> {
    set w | w in windows && t < w.endsAt
  }

  /** Where a message released at `t` ends up, and the partitions that held it on the way. */
  ghost function Release(windows: set<Window>, m: Message, t: Time): (Time, set<PartitionId>)
    decreases Ahead(windows, t)
  {
    var holding := Matching(windows, m, t);
    if holding == {} then (t, {})
    else
      var next := LatestEnd(holding);
      JumpPasses(windows, m, t);
      var later := Release(windows, m, next);
      (later.0, Ids(holding) + later.1)
  }

  /** One jump moves forward and leaves at least one window behind for good. */
  lemma JumpPasses(windows: set<Window>, m: Message, t: Time)
    requires Matching(windows, m, t) != {}
    ensures t < LatestEnd(Matching(windows, m, t))
    ensures Ahead(windows, LatestEnd(Matching(windows, m, t))) < Ahead(windows, t)
  {
    var holding := Matching(windows, m, t);
    var next := LatestEnd(holding);
    var w :| w in holding && w.endsAt == next;
    assert w in Ahead(windows, t) && w !in Ahead(windows, next);
  }

  lemma SubsetSize<T>(a: set<T>, b: set<T>)
    requires a <= b
    ensures |a| <= |b| && (a < b ==> |a| < |b|)
  {
    var rest := b - a;
    assert b == a + rest;
  }

  lemma {:induction false} ElemsAtMost<T>(s: seq<T>)
    ensures |Elems(s)| <= |s|
  {
    if s == [] {
      assert Elems(s) == {};
    } else {
      var n := |s| - 1;
      ElemsAtMost(s[..n]);
      assert s == s[..n] + [s[n]];
      assert Elems(s) == Elems(s[..n]) + {s[n]};
    }
  }

  method MatchesOf(partitions: seq<Window>, m: Message, t: Time) returns (matches: seq<Window>)
    ensures Elems(matches) == Matching(Elems(partitions), m, t)
  {
    matches := [];
    for i := 0 to |partitions|
      invariant Elems(matches) == Matching(Elems(partitions[..i]), m, t)
    {
      assert Elems(partitions[..i + 1]) == Elems(partitions[..i]) + {partitions[i]};
      if partitions[i].Matches(m, t) {
        assert Elems(matches + [partitions[i]]) == Elems(matches) + {partitions[i]};
        matches := matches + [partitions[i]];
      }
    }
    assert partitions[..|partitions|] == partitions;
  }

  method MaxEnd(windows: seq<Window>) returns (t: Time)
    requires windows != []
    ensures IsLatestEnd(t, Elems(windows))
  {
    t := windows[0].endsAt;
    assert windows[0] in Elems(windows);
    for i := 1 to |windows|
      invariant exists w | w in Elems(windows) :: w.endsAt == t
      invariant forall k | 0 <= k < i :: windows[k].endsAt <= t
    {
      assert windows[i] in Elems(windows);
      if windows[i].endsAt > t {
        t := windows[i].endsAt;
      }
    }
  }

  /** The source allows itself one round more than there are windows; it never needs to give up. */
  method PartitionRelease(m: Message, sent: Time, partitions: seq<Window>)
    returns (r: Result<(Time, set<PartitionId>), ReleaseError>)
    ensures r == Ok(Release(Elems(partitions), m, sent))
  {
    ghost var windows := Elems(partitions);
    var candidate := sent;
    var tags: set<PartitionId> := {};
    ElemsAtMost(partitions);
    SubsetSize(Ahead(windows, sent), windows);
    assert tags + Release(windows, m, sent).1 == Release(windows, m, sent).1;
    for i := 0 to |partitions| + 1
      invariant |Ahead(windows, candidate)| <= |partitions| - i
      invariant Release(windows, m, sent).0 == Release(windows, m, candidate).0
      invariant Release(windows, m, sent).1 == tags + Release(windows, m, candidate).1
    {
      var matches := MatchesOf(partitions, m, candidate);
      if matches == [] {
        assert Matching(windows, m, candidate) == {};
        return Ok((candidate, tags));
      }
      assert matches[0] in Matching(windows, m, candidate);
      JumpPasses(windows, m, candidate);
      var next := MaxEnd(matches);
      assert next == LatestEnd(Matching(windows, m, candidate));
      SubsetSize(Ahead(windows, next), Ahead(windows, candidate));
      var held := set w | w in matches :: w.partition;
      assert held == Ids(Matching(windows, m, candidate)) by {
        assert forall w :: w in matches <==> w in Elems(matches);
      }
      tags := tags + held;
      candidate := next;
    }
    assert false;
    r := Err(DidNotConverge);
  }

  // ---------- what the release is ----------

  /** The window is on the route of the message and has begun but not ended. */
  predicate Holds(w: Window, m: Message, t: Time) {
    w.origin == m.origin && w.destination == m.destination && w.startsAt <= t && t < w.endsAt
  }

  ghost predicate Open(windows: set<Window>, m: Message, t: Time) {
    forall w | w in windows :: !Holds(w, m, t)
  }

  /** The first instant at or after `from` that no window of the route covers. */
  ghost predicate IsFirstOpen(windows: set<Window>, m: Message, from: Time, t: Time) {
    && from <= t && Open(windows, m, t)
    && forall u | from <= u < t :: !Open(windows, m, u)
  }

  lemma {:induction false} ReleaseIsFirstOpen(windows: set<Window>, m: Message, from: Time)
    ensures IsFirstOpen(windows, m, from, Release(windows, m, from).0)
    ensures forall t :: IsFirstOpen(windows, m, from, t) ==> t == Release(windows, m, from).0
    decreases Ahead(windows, from)
  {
    var holding := Matching(windows, m, from);
    if holding != {} {
      JumpPasses(windows, m, from);
      var next := LatestEnd(holding);
      ReleaseIsFirstOpen(windows, m, next);
      var w :| w in holding && w.endsAt == next;
      assert forall u | from <= u < next :: Holds(w, m, u);
    } else {
      forall w | w in windows
        ensures !Holds(w, m, from)
      {
        assert w !in holding;
      }
    }
  }

  ghost function Jumps(windows: set<Window>, m: Message, t: Time): nat
    decreases Ahead(windows, t)
  {
    var holding := Matching(windows, m, t);
    if holding == {} then 0
    else
      JumpPasses(windows, m, t);
      1 + Jumps(windows, m, LatestEnd(holding))
  }

  lemma {:induction false} JumpsAreFew(windows: set<Window>, m: Message, t: Time)
    ensures Jumps(windows, m, t) <= |Ahead(windows, t)| <= |windows|
    decreases Ahead(windows, t)
  {
    SubsetSize(Ahead(windows, t), windows);
    if Matching(windows, m, t) != {} {
      JumpPasses(windows, m, t);
      var next := LatestEnd(Matching(windows, m, t));
      SubsetSize(Ahead(windows, next), Ahead(windows, t));
      JumpsAreFew(windows, m, next);
    }
  }

  lemma ReleaseIsMonotone(windows: set<Window>, m: Message, earlier: Time, later: Time)
    requires earlier <= later
    ensures Release(windows, m, earlier).0 <= Release(windows, m, later).0
  {
    ReleaseIsFirstOpen(windows, m, earlier);
    ReleaseIsFirstOpen(windows, m, later);
  }

  /** The instants at which a message stops: each the latest end of the windows that hold it at the one before. */
  ghost predicate AreStops(windows: set<Window>, m: Message, from: Time, stops: seq<Time>) {
    && stops != [] && stops[0] == from && Open(windows, m, stops[|stops| - 1])
    && forall j, k | 0 <= j < |stops| && k == j + 1 < |stops| ::
         && stops[j] < stops[k]
         && (exists w | w in windows :: Holds(w, m, stops[j]) && w.endsAt == stops[k])
         && (forall w | w in windows && Holds(w, m, stops[j]) :: w.endsAt <= stops[k])
  }

  lemma StopsFurther(windows: set<Window>, m: Message, from: Time, later: seq<Time>)
    requires Matching(windows, m, from) != {} && AreStops(windows, m, LatestEnd(Matching(windows, m, from)), later)
    ensures AreStops(windows, m, from, [from] + later)
  {
    var stops, holding := [from] + later, Matching(windows, m, from);
    JumpPasses(windows, m, from);
    var w :| w in holding && w.endsAt == LatestEnd(holding);
    assert w in windows && Holds(w, m, from);
    forall w' | w' in windows && Holds(w', m, from)
      ensures w'.endsAt <= later[0]
    {
      assert w' in holding;
    }
    assert stops[|stops| - 1] == later[|later| - 1];
    assert forall k | 1 <= k < |stops| :: stops[k] == later[k - 1];
  }

  ghost predicate HeldAt(windows: set<Window>, m: Message, stops: seq<Time>, id: PartitionId) {
    exists w, k | w in windows && 0 <= k < |stops| :: w.partition == id && Holds(w, m, stops[k])
  }

  lemma HeldFurther(windows: set<Window>, m: Message, from: Time, later: seq<Time>, id: PartitionId)
    ensures HeldAt(windows, m, [from] + later, id) <==>
            id in Ids(Matching(windows, m, from)) || HeldAt(windows, m, later, id)
  {
    var stops := [from] + later;
    if w, k :| w in windows && 0 <= k < |stops| && w.partition == id && Holds(w, m, stops[k]) {
      assert k > 0 ==> stops[k] == later[k - 1];
      assert k == 0 ==> w in Matching(windows, m, from);
    }
    if id in Ids(Matching(windows, m, from)) {
      var w :| w in Matching(windows, m, from) && w.partition == id;
      assert Holds(w, m, stops[0]);
    }
    if w, k :| w in windows && 0 <= k < |later| && w.partition == id && Holds(w, m, later[k]) {
      assert stops[k + 1] == later[k];
    }
  }

  /** A message waits from stop to stop until it is free, and the partitions named are exactly those that hold it at a stop. */
  lemma {:induction false} ReleaseStops(windows: set<Window>, m: Message, from: Time) returns (stops: seq<Time>)
    ensures AreStops(windows, m, from, stops) && stops[|stops| - 1] == Release(windows, m, from).0
    ensures forall id :: id in Release(windows, m, from).1 <==> HeldAt(windows, m, stops, id)
    decreases Ahead(windows, from)
  {
    var holding := Matching(windows, m, from);
    ReleaseIsFirstOpen(windows, m, from);
    if holding == {} {
      stops := [from];
    } else {
      JumpPasses(windows, m, from);
      var later := ReleaseStops(windows, m, LatestEnd(holding));
      stops := [from] + later;
      StopsFurther(windows, m, from, later);
      forall id
        ensures id in Release(windows, m, from).1 <==> HeldAt(windows, m, stops, id)
      {
        HeldFurther(windows, m, from, later, id);
      }
    }
  }

  /** There is only one such way to wait. */
  lemma {:induction false} StopsUnique(windows: set<Window>, m: Message, from: Time, stops: seq<Time>, stops': seq<Time>)
    requires AreStops(windows, m, from, stops) && AreStops(windows, m, from, stops')
    ensures stops == stops'
    decreases |stops|
  {
    OneStop(windows, m, from, stops);
    OneStop(windows, m, from, stops');
    if |stops| > 1 {
      NextStop(windows, m, from, stops);
      NextStop(windows, m, from, stops');
      assert stops[1] == stops'[1];
      StopsUnique(windows, m, stops[1], stops[1..], stops'[1..]);
    }
  }

  lemma OneStop(windows: set<Window>, m: Message, from: Time, stops: seq<Time>)
    requires AreStops(windows, m, from, stops)
    ensures |stops| == 1 <==> Open(windows, m, from)
  {
    if |stops| > 1 {
      NextStop(windows, m, from, stops);
    }
  }

  lemma NextStop(windows: set<Window>, m: Message, from: Time, stops: seq<Time>)
    requires AreStops(windows, m, from, stops) && |stops| > 1
    ensures AreStops(windows, m, stops[1], stops[1..])
    ensures exists w | w in windows :: Holds(w, m, from) && w.endsAt == stops[1]
    ensures forall w | w in windows && Holds(w, m, from) :: w.endsAt <= stops[1]
  {
    var later := stops[1..];
    assert later[|later| - 1] == stops[|stops| - 1];
    forall j, k | 0 <= j < |later| && k == j + 1 < |later|
      ensures later[j] == stops[j + 1] && later[k] == stops[k + 1]
    {
    }
    assert forall w | w in windows && Holds(w, m, stops[0]) :: w.endsAt <= stops[1];
  }

  /** A partition is named only if it did hold the message at an instant before the release. */
  lemma TagsHeldTheMessage(windows: set<Window>, m: Message, from: Time, id: PartitionId)
    requires id in Release(windows, m, from).1
    ensures exists w, u | w in windows :: w.partition == id && from <= u < Release(windows, m, from).0 && Holds(w, m, u)
  {
    var stops := ReleaseStops(windows, m, from);
    var w, k :| w in windows && 0 <= k < |stops| && w.partition == id && Holds(w, m, stops[k]);
    StopsAscend(windows, m, from, stops, 0, k);
    StopsAscend(windows, m, from, stops, k, |stops| - 1);
  }

  lemma {:induction false} StopsAscend(windows: set<Window>, m: Message, from: Time, stops: seq<Time>, j: nat, k: nat)
    requires AreStops(windows, m, from, stops) && j <= k < |stops|
    ensures stops[j] <= stops[k] && (j < k ==> stops[j] < stops[k])
    decreases k
  {
    if j < k {
      StopsAscend(windows, m, from, stops, j, k - 1);
    }
  }

  /** Only the route of a message and the set of windows matter. */
  lemma {:induction false} ReleaseSeesRouteOnly(windows: set<Window>, m: Message, m': Message, t: Time)
    requires m.origin == m'.origin && m.destination == m'.destination
    ensures Release(windows, m, t) == Release(windows, m', t)
    decreases Ahead(windows, t)
  {
    assert Matching(windows, m, t) == Matching(windows, m', t);
    if Matching(windows, m, t) != {} {
      JumpPasses(windows, m, t);
      ReleaseSeesRouteOnly(windows, m, m', LatestEnd(Matching(windows, m, t)));
    }
  }

  /** Waiting never goes past the last end of a window. */
  lemma {:induction false} ReleaseWithin(windows: set<Window>, m: Message, from: Time, bound: Time)
    requires from <= bound && forall w | w in windows :: w.endsAt <= bound
    ensures Release(windows, m, from).0 <= bound
    decreases Ahead(windows, from)
  {
    var holding := Matching(windows, m, from);
    if holding != {} {
      JumpPasses(windows, m, from);
      ReleaseWithin(windows, m, LatestEnd(holding), bound);
    }
  }
}
