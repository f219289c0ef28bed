/** Filing views by interaction and walking from a leaf up to its root. */
module ChainWalk {
  import opened Common
  import opened Model

  /** The views filed under an interaction, in order. */
  function Filed(views: seq<PolicyView>, i: Id): (r: seq<PolicyView>)
    ensures forall v :: v in r <==> v in views && v.handoff.interaction == i
  {
    if views == [] then []
    else
      var n := |views| - 1;
      assert views == views[..n] + [views[n]];
      Filed(views[..n], i) + if views[n].handoff.interaction == i then [views[n]] else []
  }

  function Ids(views: seq<PolicyView>): set<Id> {
    set v | v in views :: v.handoff.interaction
  }

  ghost predicate OnePerInteraction(views: seq<PolicyView>) {
    forall j, k | 0 <= j < k < |views| :: views[j].handoff.interaction != views[k].handoff.interaction
  }

  lemma {:induction false} FiledNowhere(views: seq<PolicyView>, i: Id)
    requires forall k | 0 <= k < |views| :: views[k].handoff.interaction != i
    ensures Filed(views, i) == []
  {
    if views != [] {
      FiledNowhere(views[..|views| - 1], i);
    }
  }

  lemma {:induction false} FiledAlone(views: seq<PolicyView>, v: PolicyView)
    requires OnePerInteraction(views) && v in views
    ensures Filed(views, v.handoff.interaction) == [v]
  {
    var n := |views| - 1;
    if views[n] == v {
      FiledNowhere(views[..n], v.handoff.interaction);
    } else {
      FiledAlone(views[..n], v);
    }
  }

  /** `v` is at one place among the views, and no other place holds a view of its interaction. */
  ghost predicate AloneUnder(views: seq<PolicyView>, v: PolicyView) {
    exists n | 0 <= n < |views| ::
      views[n] == v && forall m | 0 <= m < |views| && m != n :: views[m].handoff.interaction != v.handoff.interaction
  }

  lemma AloneInMore(views: seq<PolicyView>, last: PolicyView, v: PolicyView)
    ensures AloneUnder(views + [last], v) <==>
            if last.handoff.interaction == v.handoff.interaction
            then last == v && forall m | 0 <= m < |views| :: views[m].handoff.interaction != v.handoff.interaction
            else AloneUnder(views, v)
  {
    var all, count := views + [last], |views|;
    assert all[count] == last && forall m | 0 <= m < count :: all[m] == views[m];
    if n :| 0 <= n <= count && all[n] == v && forall m | 0 <= m <= count && m != n :: all[m].handoff.interaction != v.handoff.interaction {
      assert n < count ==> views[n] == v && last.handoff.interaction != v.handoff.interaction;
      assert forall m | 0 <= m < count && m != n :: views[m].handoff.interaction != v.handoff.interaction;
    }
    if n :| 0 <= n < count && views[n] == v && forall m | 0 <= m < count && m != n :: views[m].handoff.interaction != v.handoff.interaction {
      assert all[n] == v;
    }
  }

  /** What is filed under an interaction is one view exactly if that view is alone there. */
  lemma {:induction false} FiledOnce(views: seq<PolicyView>, v: PolicyView)
    ensures Filed(views, v.handoff.interaction) == [v] <==> AloneUnder(views, v)
  {
    if views != [] {
      var n := |views| - 1;
      var init, last := views[..n], views[n];
      assert views == init + [last];
      FiledOnce(init, v);
      AloneInMore(init, last, v);
      if last.handoff.interaction == v.handoff.interaction {
        FiledEmpty(init, v.handoff.interaction);
      }
    }
  }

  lemma FiledEmpty(views: seq<PolicyView>, i: Id)
    ensures Filed(views, i) == [] <==> forall m | 0 <= m < |views| :: views[m].handoff.interaction != i
  {
    if forall m | 0 <= m < |views| :: views[m].handoff.interaction != i {
      FiledNowhere(views, i);
    } else {
      var m :| 0 <= m < |views| && views[m].handoff.interaction == i;
      assert views[m] in Filed(views, i);
    }
  }

  /** The view is an intent of the expected action. */
  predicate Intends(v: PolicyView, expected: Digest) {
    v.handoff.event == ActionIntent && v.handoff.requestHash == expected
  }

  function LeavesIn(views: seq<PolicyView>, expected: Digest): (r: seq<PolicyView>)
    ensures forall v :: v in r <==> v in views && Intends(v, expected)
  {
    if views == [] then []
    else
      var n := |views| - 1;
      assert views == views[..n] + [views[n]];
      LeavesIn(views[..n], expected) + if Intends(views[n], expected) then [views[n]] else []
  }

  lemma {:induction false} LeavesAreDistinct(views: seq<PolicyView>, expected: Digest)
    requires OnePerInteraction(views)
    ensures OnePerInteraction(LeavesIn(views, expected))
  {
    if views != [] {
      var n := |views| - 1;
      LeavesAreDistinct(views[..n], expected);
      forall k | 0 <= k < |LeavesIn(views[..n], expected)|
        ensures LeavesIn(views[..n], expected)[k].handoff.interaction != views[n].handoff.interaction
      {
        var v := LeavesIn(views[..n], expected)[k];
        assert v in views[..n];
      }
    }
  }

  datatype WalkEnd = AtRoot | Cycle | Missing | Ambiguous

  /** The views from `current` upwards, and how the walk ends. */
  function WalkUp(views: seq<PolicyView>, current: PolicyView, visited: set<Id>): (r: (seq<PolicyView>, WalkEnd))
    requires current in views
    decreases Ids(views) - visited
  {
    var i := current.handoff.interaction;
    if i in visited then ([], Cycle)
    else match current.handoff.previous
      case None => ([current], AtRoot)
      case Some(p) =>
        var parents := Filed(views, p);
        if parents == [] then ([current], Missing)
        else if |parents| != 1 then ([current], Ambiguous)
        else
          assert parents[0] in views;
          var (rest, end) := WalkUp(views, parents[0], visited + {i});
          ([current] + rest, end)
  }

  function Reverse(s: seq<PolicyView>): (r: seq<PolicyView>)
    ensures |r| == |s| && forall k | 0 <= k < |s| :: r[k] == s[|s| - 1 - k]
  {
    if s == [] then [] else Reverse(s[1..]) + [s[0]]
  }

  type Filing = map<Id, seq<PolicyView>>

  function Lookup(filing: Filing, i: Id): seq<PolicyView> {
    if i in filing then filing[i] else []
  }

  ghost predicate Files(filing: Filing, views: seq<PolicyView>) {
    forall i {:trigger Lookup(filing, i)} :: Lookup(filing, i) == Filed(views, i)
  }

  /** `by_interaction`: every view filed under its interaction. */
  method FileViews(views: seq<PolicyView>) returns (filing: Filing)
    ensures Files(filing, views)
  {
    filing := map[];
    var k := 0;
    while k < |views|
      invariant 0 <= k <= |views|
      invariant Files(filing, views[..k])
    {
      var i := views[k].handoff.interaction;
      assert views[..k + 1][..k] == views[..k];
      assert forall j {:trigger Lookup(filing, j)} :: Lookup(filing, j) == Filed(views[..k], j);
      ghost var before := filing;
      filing := filing[i := Lookup(filing, i) + [views[k]]];
      forall j: Id
        ensures Lookup(filing, j) == Filed(views[..k + 1], j)
      {
        assert Lookup(before, j) == Filed(views[..k], j);
      }
      k := k + 1;
    }
    assert views[..k] == views;
  }

  /** Where a step up from a view with one filed parent leads. */
  lemma WalkStep(views: seq<PolicyView>, current: PolicyView, visited: set<Id>, parent: PolicyView)
    requires current in views && current.handoff.interaction !in visited && current.handoff.previous.Some?
    requires Filed(views, current.handoff.previous.value) == [parent]
    ensures parent in views && current.handoff.interaction in Ids(views)
    ensures var above := WalkUp(views, parent, visited + {current.handoff.interaction});
      WalkUp(views, current, visited).0 == [current] + above.0 && WalkUp(views, current, visited).1 == above.1
  {
    assert parent in [parent];
  }

  /** Where a walk that goes no further ends. */
  lemma WalkEnds(views: seq<PolicyView>, current: PolicyView, visited: set<Id>)
    requires current in views
    ensures current.handoff.interaction in visited ==> WalkUp(views, current, visited) == ([], Cycle)
    ensures current.handoff.interaction !in visited ==>
              match current.handoff.previous
              case None => WalkUp(views, current, visited) == ([current], AtRoot)
              case Some(p) =>
                && (Filed(views, p) == [] ==> WalkUp(views, current, visited) == ([current], Missing))
                && (|Filed(views, p)| > 1 ==> WalkUp(views, current, visited) == ([current], Ambiguous))
  {
  }

  /** The gate's `while True` loop: collect the chain upwards until it ends. */
  method WalkChain(views: seq<PolicyView>, filing: Filing, leaf: PolicyView)
    returns (reverse: seq<PolicyView>, end: WalkEnd)
    requires leaf in views && Files(filing, views)
    ensures reverse == WalkUp(views, leaf, {}).0 && end == WalkUp(views, leaf, {}).1
  {
    reverse := [];
    var visited: set<Id> := {};
    var current := leaf;
    ghost var (whole, finally) := WalkUp(views, leaf, {});
    ghost var ahead := whole;
    while true
      invariant current in views
      invariant WalkUp(views, current, visited).0 == ahead && WalkUp(views, current, visited).1 == finally
      invariant whole == reverse + ahead
      decreases Ids(views) - visited
    {
      var i := current.handoff.interaction;
      WalkEnds(views, current, visited);
      if i in visited {
        assert ahead == [] && whole == reverse;
        return reverse, Cycle;
      }
      reverse := reverse + [current];
      ahead := ahead[1..];
      if current.handoff.previous == None {
        return reverse, AtRoot;
      }
      var parents := Lookup(filing, current.handoff.previous.value);
      if parents == [] {
        return reverse, Missing;
      }
      if |parents| != 1 {
        return reverse, Ambiguous;
      }
      assert parents == [parents[0]];
      WalkStep(views, current, visited, parents[0]);
      visited := visited + {i};
      current := parents[0];
    }
  }

  // ---------- what a completed walk is ----------

  /** The child names the parent, which is the only view filed under that name. */
  ghost predicate Linked(views: seq<PolicyView>, parent: PolicyView, child: PolicyView) {
    child.handoff.previous == Some(parent.handoff.interaction) && Filed(views, parent.handoff.interaction) == [parent]
  }

  /** A chain, root first, each view linked to the one before it. */
  ghost predicate LinearIn(views: seq<PolicyView>, ch: seq<PolicyView>) {
    && ch != [] && (forall k | 0 <= k < |ch| :: ch[k] in views)
    && ch[0].handoff.previous == None
    && forall j, k | 0 <= j < |ch| && k == j + 1 < |ch| :: Linked(views, ch[j], ch[k])
  }

  lemma {:induction false} WalkIsLinear(views: seq<PolicyView>, current: PolicyView, visited: set<Id>)
    requires current in views && WalkUp(views, current, visited).1 == AtRoot
    ensures var ch := Reverse(WalkUp(views, current, visited).0); LinearIn(views, ch) && ch[|ch| - 1] == current
    ensures forall v | v in WalkUp(views, current, visited).0 :: v.handoff.interaction !in visited
    decreases Ids(views) - visited
  {
    if current.handoff.previous.Some? {
      var i := current.handoff.interaction;
      var parent := Filed(views, current.handoff.previous.value)[0];
      assert parent in Filed(views, current.handoff.previous.value);
      WalkIsLinear(views, parent, visited + {i});
      var rest := WalkUp(views, parent, visited + {i}).0;
      assert Reverse([current] + rest) == Reverse(rest) + [current] by { assert ([current] + rest)[1..] == rest; }
    }
  }

  /** The positions of a linear chain carry different interactions. */
  lemma {:induction false} LinearDistinct(views: seq<PolicyView>, ch: seq<PolicyView>, a: nat, b: nat)
    requires LinearIn(views, ch) && a < b < |ch|
    ensures ch[a].handoff.interaction != ch[b].handoff.interaction
    decreases a
  {
    if a > 0 {
      LinearDistinct(views, ch, a - 1, b - 1);
      assert Linked(views, ch[a - 1], ch[a]);
    }
    assert Linked(views, ch[b - 1], ch[b]) && Linked(views, ch[a], ch[a + 1]);
    assert ch[b] in Filed(views, ch[b].handoff.interaction);
  }

  lemma {:induction false} LinearWalks(views: seq<PolicyView>, ch: seq<PolicyView>, n: nat, visited: set<Id>)
    requires LinearIn(views, ch) && n < |ch|
    requires forall k | 0 <= k <= n :: ch[k].handoff.interaction !in visited
    ensures WalkUp(views, ch[n], visited) == (Reverse(ch[..n + 1]), AtRoot)
    decreases n
  {
    if n > 0 {
      assert Linked(views, ch[n - 1], ch[n]);
      forall k | 0 <= k < n
        ensures ch[k].handoff.interaction != ch[n].handoff.interaction
      {
        LinearDistinct(views, ch, k, n);
      }
      LinearWalks(views, ch, n - 1, visited + {ch[n].handoff.interaction});
      WalkStep(views, ch[n], visited, ch[n - 1]);
      assert Reverse(ch[..n + 1]) == [ch[n]] + Reverse(ch[..n]);
    } else {
      WalkEnds(views, ch[0], visited);
      assert Reverse(ch[..1]) == [ch[0]];
    }
  }

  /** The walk from a leaf reaches a root exactly when a linear chain ends in the leaf; the chain is then unique. */
  lemma WalkFindsTheChain(views: seq<PolicyView>, leaf: PolicyView, ch: seq<PolicyView>)
    requires leaf in views
    ensures (WalkUp(views, leaf, {}).1 == AtRoot && ch == Reverse(WalkUp(views, leaf, {}).0))
            <==> (LinearIn(views, ch) && ch[|ch| - 1] == leaf)
  {
    if LinearIn(views, ch) && ch[|ch| - 1] == leaf {
      LinearWalks(views, ch, |ch| - 1, {});
      assert ch[..|ch|] == ch;
      assert Reverse(Reverse(ch)) == ch;
    }
    if WalkUp(views, leaf, {}).1 == AtRoot {
      WalkIsLinear(views, leaf, {});
    }
  }

  // ---------- how a walk ends, seen from the views alone ----------

  ghost predicate SomeUnder(views: seq<PolicyView>, i: Id) {
    exists m | 0 <= m < |views| :: views[m].handoff.interaction == i
  }

  ghost predicate SeveralUnder(views: seq<PolicyView>, i: Id) {
    exists m, n | 0 <= m < n < |views| :: views[m].handoff.interaction == i && views[n].handoff.interaction == i
  }

  /** The climb never skips, never repeats an interaction, and never has a choice of parent. */
  ghost predicate IsClimb(views: seq<PolicyView>, visited: set<Id>, up: seq<PolicyView>) {
    && (forall k | 0 <= k < |up| :: up[k] in views && up[k].handoff.interaction !in visited)
    && (forall j, k | 0 <= j < k < |up| :: up[j].handoff.interaction != up[k].handoff.interaction)
    && (forall j, k | 0 <= j < |up| && k == j + 1 < |up| ::
          up[j].handoff.previous == Some(up[k].handoff.interaction) && AloneUnder(views, up[k]))
  }

  /** What there is above the last view of a climb. */
  ghost predicate EndsAs(views: seq<PolicyView>, visited: set<Id>, up: seq<PolicyView>, end: WalkEnd)
    requires up != []
  {
    match up[|up| - 1].handoff.previous
    case None => end == AtRoot
    case Some(p) =>
      if !SomeUnder(views, p) then end == Missing
      else if SeveralUnder(views, p) then end == Ambiguous
      else end == Cycle && (p in visited || exists k | 0 <= k < |up| :: up[k].handoff.interaction == p)
  }

  lemma FiledSeveral(views: seq<PolicyView>, i: Id)
    ensures Filed(views, i) == [] <==> !SomeUnder(views, i)
    ensures |Filed(views, i)| > 1 <==> SeveralUnder(views, i)
  {
    FiledEmpty(views, i);
    var filed := Filed(views, i);
    if |filed| == 1 {
      assert filed[0] in filed && filed == [filed[0]];
      FiledOnce(views, filed[0]);
    }
    if |filed| > 1 && !SeveralUnder(views, i) {
      var m :| 0 <= m < |views| && views[m].handoff.interaction == i;
      assert AloneUnder(views, views[m]);
      FiledOnce(views, views[m]);
    }
  }

  lemma ClimbFurther(views: seq<PolicyView>, visited: set<Id>, current: PolicyView, above: seq<PolicyView>, end: WalkEnd)
    requires current in views && current.handoff.interaction !in visited && above != []
    requires current.handoff.previous == Some(above[0].handoff.interaction) && AloneUnder(views, above[0])
    requires IsClimb(views, visited + {current.handoff.interaction}, above)
    requires EndsAs(views, visited + {current.handoff.interaction}, above, end)
    ensures IsClimb(views, visited, [current] + above) && EndsAs(views, visited, [current] + above, end)
  {
    ClimbOnTop(views, visited, current, above);
    EndOnTop(views, visited, current, above, end);
  }

  lemma ClimbOnTop(views: seq<PolicyView>, visited: set<Id>, current: PolicyView, above: seq<PolicyView>)
    requires current in views && current.handoff.interaction !in visited && above != []
    requires current.handoff.previous == Some(above[0].handoff.interaction) && AloneUnder(views, above[0])
    requires IsClimb(views, visited + {current.handoff.interaction}, above)
    ensures IsClimb(views, visited, [current] + above)
  {
    var up := [current] + above;
    forall k | 0 <= k < |above|
      ensures up[k + 1] == above[k] && above[k] in views && above[k].handoff.interaction !in visited + {current.handoff.interaction}
    {
    }
    assert forall k | 1 <= k < |up| :: up[k] == above[k - 1];
  }

  lemma EndOnTop(views: seq<PolicyView>, visited: set<Id>, current: PolicyView, above: seq<PolicyView>, end: WalkEnd)
    requires above != [] && EndsAs(views, visited + {current.handoff.interaction}, above, end)
    ensures EndsAs(views, visited, [current] + above, end)
  {
    var up := [current] + above;
    assert up[|up| - 1] == above[|above| - 1] && up[0] == current;
    assert forall k | 0 <= k < |above| :: up[k + 1] == above[k];
  }

  /** Every walk is such a climb, and it ends for the reason it says. */
  lemma {:induction false} WalkMeaning(views: seq<PolicyView>, current: PolicyView, visited: set<Id>)
    requires current in views && current.handoff.interaction !in visited
    ensures var up := WalkUp(views, current, visited).0;
      up != [] && up[0] == current && IsClimb(views, visited, up) && EndsAs(views, visited, up, WalkUp(views, current, visited).1)
    decreases Ids(views) - visited
  {
    var i := current.handoff.interaction;
    if current.handoff.previous.Some? {
      var p := current.handoff.previous.value;
      FiledSeveral(views, p);
      if |Filed(views, p)| == 1 {
        var parent := Filed(views, p)[0];
        assert parent in Filed(views, p) && Filed(views, p) == [parent];
        FiledOnce(views, parent);
        WalkStep(views, current, visited, parent);
        if p in visited + {i} {
          assert WalkUp(views, current, visited).0 == [current] + [];
        } else {
          WalkMeaning(views, parent, visited + {i});
          ClimbFurther(views, visited, current, WalkUp(views, parent, visited + {i}).0, WalkUp(views, parent, visited + {i}).1);
        }
      }
    }
  }
}
