/** Strict assembly of one complete chain from all the views of an audit. */
module StrictChain {
  import opened Common
  import opened Model
  import opened ChainWalk
  import Gate

  datatype Defect =
    | DuplicateInteraction | LeafMissing | AmbiguousLeaf | ChainCycle | ParentMissing | RootInvalid
    | IntermediateInvalid | ExtraOrDisconnectedHandoff

  datatype Assembly = Complete(interactionIds: seq<Id>) | Unresolved(reason: Defect)

  function InteractionIds(ch: seq<PolicyView>): (r: seq<Id>)
    ensures |r| == |ch| && forall k | 0 <= k < |ch| :: r[k] == ch[k].handoff.interaction
  {
    seq(|ch|, k requires 0 <= k < |ch| => ch[k].handoff.interaction)
  }

  /**
   All of the views, each once, in one line: a parentless delegation, delegations each naming the
   one before, and at the end the intent of the expected action.
   */
  ghost predicate FormsChain(views: seq<PolicyView>, expected: Digest, ch: seq<PolicyView>) {
    && OnePerInteraction(views) && OnePerInteraction(ch) && Elems(ch) == Elems(views) && |ch| >= 2
    && ch[0].handoff.previous == None
    && (forall j, k | 0 <= j < |ch| && k == j + 1 < |ch| :: ch[k].handoff.previous == Some(ch[j].handoff.interaction))
    && (forall k | 0 <= k < |ch| - 1 :: ch[k].handoff.event == Delegation)
    && ch[|ch| - 1].handoff.event == ActionIntent && ch[|ch| - 1].handoff.requestHash == expected
  }

  // ---------- the loops ----------

  ghost predicate FilesById(byId: map<Id, PolicyView>, views: seq<PolicyView>) {
    && (forall v | v in views :: v.handoff.interaction in byId)
    && (forall i | i in byId :: byId[i] in views && byId[i].handoff.interaction == i)
  }

  lemma OneMore(views: seq<PolicyView>, byId: map<Id, PolicyView>, v: PolicyView)
    requires FilesById(byId, views)
    ensures OnePerInteraction(views + [v]) <==> OnePerInteraction(views) && v.handoff.interaction !in byId
  {
    var all := views + [v];
    var n := |views|;
    if v.handoff.interaction in byId {
      var j :| 0 <= j < n && views[j] == byId[v.handoff.interaction];
      assert all[j] == views[j] && all[n] == v;
    } else {
      forall j | 0 <= j < n
        ensures all[j].handoff.interaction != v.handoff.interaction
      {
        assert views[j] in views;
      }
      assert forall j | 0 <= j < n :: all[j] == views[j];
    }
  }

  lemma OneMoreFiled(views: seq<PolicyView>, byId: map<Id, PolicyView>, v: PolicyView)
    requires FilesById(byId, views)
    ensures FilesById(byId[v.handoff.interaction := v], views + [v])
    ensures |byId[v.handoff.interaction := v]| == |byId| + if v.handoff.interaction in byId then 0 else 1
  {
    var i := v.handoff.interaction;
    var more := byId[i := v];
    assert more.Keys == byId.Keys + {i};
    assert |byId.Keys| == |byId| && |more.Keys| == |more|;
    if i in byId {
      assert more.Keys == byId.Keys;
    }
    forall j | j in more
      ensures more[j] in views + [v] && more[j].handoff.interaction == j
    {
      assert j != i ==> more[j] == byId[j];
    }
  }

  function ById(views: seq<PolicyView>): map<Id, PolicyView> {
    if views == [] then map[]
    else
      var v := views[|views| - 1];
      ById(views[..|views| - 1])[v.handoff.interaction := v]
  }

  lemma {:induction false} ByIdFiles(views: seq<PolicyView>)
    ensures FilesById(ById(views), views)
    ensures |ById(views)| <= |views| && (|ById(views)| == |views| <==> OnePerInteraction(views))
  {
    if views == [] {
    } else {
      var init, v := views[..|views| - 1], views[|views| - 1];
      assert views == init + [v];
      ByIdFiles(init);
      OneMore(init, ById(init), v);
      OneMoreFiled(init, ById(init), v);
    }
  }

  /** The dict comprehension `by_id`; later views overwrite earlier ones, and its size shows it. */
  method FileById(views: seq<PolicyView>) returns (byId: map<Id, PolicyView>)
    ensures FilesById(byId, views)
    ensures |byId| == |views| <==> OnePerInteraction(views)
  {
    byId := map[];
    for k := 0 to |views|
      invariant byId == ById(views[..k])
    {
      assert views[..k + 1][..k] == views[..k];
      byId := byId[views[k].handoff.interaction := views[k]];
    }
    assert views[..|views|] == views;
    ByIdFiles(views);
  }

  function FindById(byId: map<Id, PolicyView>, p: Id): seq<PolicyView> {
    if p in byId then [byId[p]] else []
  }

  ghost predicate FindsEverything(byId: map<Id, PolicyView>, views: seq<PolicyView>) {
    forall p {:trigger FindById(byId, p)} :: FindById(byId, p) == Filed(views, p)
  }

  lemma DistinctFindsEverything(byId: map<Id, PolicyView>, views: seq<PolicyView>)
    requires OnePerInteraction(views) && FilesById(byId, views)
    ensures FindsEverything(byId, views)
  {
    forall p: Id
      ensures FindById(byId, p) == Filed(views, p)
    {
      if p in byId {
        FiledAlone(views, byId[p]);
      } else {
        FiledNowhere(views, p);
      }
    }
  }

  /** The interactions on a walk's record of what it has seen, when it ends. */
  function SeenAtEnd(views: seq<PolicyView>, current: PolicyView, seen: set<Id>): set<Id>
    requires current in views
    decreases Ids(views) - seen
  {
    var i := current.handoff.interaction;
    if i in seen then seen
    else match current.handoff.previous
      case None => seen + {i}
      case Some(p) =>
        var parents := Filed(views, p);
        if |parents| != 1 then seen + {i}
        else
          assert parents[0] in views;
          SeenAtEnd(views, parents[0], seen + {i})
  }

  lemma SeenStep(views: seq<PolicyView>, current: PolicyView, seen: set<Id>, parent: PolicyView)
    requires current in views && current.handoff.interaction !in seen && current.handoff.previous.Some?
    requires parent in views && Filed(views, current.handoff.previous.value) == [parent]
    ensures SeenAtEnd(views, current, seen) == SeenAtEnd(views, parent, seen + {current.handoff.interaction})
  {
  }

  lemma {:induction false} SeenAreTheWalked(views: seq<PolicyView>, current: PolicyView, seen: set<Id>)
    requires current in views
    ensures SeenAtEnd(views, current, seen) == seen + Ids(WalkUp(views, current, seen).0)
    decreases Ids(views) - seen
  {
    var i := current.handoff.interaction;
    var walked := WalkUp(views, current, seen).0;
    if i in seen {
      assert Ids(walked) == {};
    } else {
      assert walked == [current] + walked[1..];
      assert Ids(walked) == {i} + Ids(walked[1..]) by {
        forall v | v in walked[1..]
          ensures v in walked
        {
        }
      }
      if current.handoff.previous != None && |Filed(views, current.handoff.previous.value)| == 1 {
        var parent := Filed(views, current.handoff.previous.value)[0];
        assert parent in views;
        SeenAreTheWalked(views, parent, seen + {i});
      } else {
        assert Ids(walked[1..]) == {};
      }
    }
  }

  /** The `while True` loop: upwards through `by_id` until the root, a repeat, or a missing parent. */
  method WalkById(ghost views: seq<PolicyView>, byId: map<Id, PolicyView>, leaf: PolicyView)
    returns (reverse: seq<PolicyView>, seen: set<Id>, end: WalkEnd)
    requires FindsEverything(byId, views) && leaf in views
    ensures reverse == WalkUp(views, leaf, {}).0 && end == WalkUp(views, leaf, {}).1 && end != Ambiguous
    ensures seen == SeenAtEnd(views, leaf, {})
  {
    reverse, seen := [], {};
    var current := leaf;
    ghost var (whole, finally) := WalkUp(views, leaf, {});
    ghost var ahead := whole;
    while true
      invariant current in views && SeenAtEnd(views, current, seen) == SeenAtEnd(views, leaf, {})
      invariant WalkUp(views, current, seen).0 == ahead && WalkUp(views, current, seen).1 == finally
      invariant whole == reverse + ahead
      decreases Ids(views) - seen
    {
      var i := current.handoff.interaction;
      WalkEnds(views, current, seen);
      if i in seen {
        assert ahead == [] && whole == reverse;
        return reverse, seen, Cycle;
      }
      assert i in Ids(views);
      ghost var before := seen;
      seen := seen + {i};
      reverse := reverse + [current];
      ahead := ahead[1..];
      if current.handoff.previous == None {
        return reverse, seen, AtRoot;
      }
      var p := current.handoff.previous.value;
      assert FindById(byId, p) == Filed(views, p);
      if p !in byId {
        return reverse, seen, Missing;
      }
      WalkStep(views, current, before, byId[p]);
      SeenStep(views, current, before, byId[p]);
      current := byId[p];
    }
  }

  method FindLeaves(views: seq<PolicyView>, expected: Digest) returns (leaves: seq<PolicyView>)
    ensures leaves == LeavesIn(views, expected)
  {
    leaves := [];
    for k := 0 to |views|
      invariant leaves == LeavesIn(views[..k], expected)
    {
      assert views[..k + 1][..k] == views[..k];
      if Intends(views[k], expected) {
        leaves := leaves + [views[k]];
      }
    }
    assert views[..|views|] == views;
  }

  // ---------- which defect is reported ----------

  /** What is wrong with the chain that ends in the only leaf, in the order in which it is noticed. */
  ghost function DefectFrom(views: seq<PolicyView>, leaf: PolicyView): Option<Defect>
    requires leaf in views
  {
    var up, end := WalkUp(views, leaf, {}).0, WalkUp(views, leaf, {}).1;
    if end == Cycle then Some(ChainCycle)
    else if end != AtRoot then Some(Defect.ParentMissing)
    else
      WalkIsLinear(views, leaf, {});
      var ch := Reverse(up);
      if ch[0].handoff.event != Delegation then Some(Defect.RootInvalid)
      else if exists k :: 0 <= k < |ch| - 1 && ch[k].handoff.event != Delegation then Some(IntermediateInvalid)
      else if Ids(ch) != Ids(views) then Some(ExtraOrDisconnectedHandoff)
      else None
  }

  ghost function DefectOf(views: seq<PolicyView>, expected: Digest): Option<Defect> {
    var leaves := LeavesIn(views, expected);
    if !OnePerInteraction(views) then Some(DuplicateInteraction)
    else if leaves == [] then Some(LeafMissing)
    else if |leaves| != 1 then Some(AmbiguousLeaf)
    else
      assert leaves[0] in leaves;
      DefectFrom(views, leaves[0])
  }

  predicate IntendsIt(v: PolicyView, expected: Digest) {
    v.handoff.event == ActionIntent && v.handoff.requestHash == expected
  }

  /** Before any walk: two views of one interaction, or no view that intends the action, or several. */
  lemma DefectBeforeTheWalk(views: seq<PolicyView>, expected: Digest)
    ensures DefectOf(views, expected) == Some(DuplicateInteraction) <==>
            exists i, j :: 0 <= i < j < |views| && views[i].handoff.interaction == views[j].handoff.interaction
    ensures OnePerInteraction(views) ==>
              && (DefectOf(views, expected) == Some(LeafMissing) <==> forall k | 0 <= k < |views| :: !IntendsIt(views[k], expected))
              && (DefectOf(views, expected) == Some(AmbiguousLeaf) <==>
                    exists i, j :: 0 <= i < j < |views| && IntendsIt(views[i], expected) && IntendsIt(views[j], expected))
  {
    if OnePerInteraction(views) {
      LeavesCounted(views, expected);
    }
  }

  lemma LeavesCounted(views: seq<PolicyView>, expected: Digest)
    requires OnePerInteraction(views)
    ensures LeavesIn(views, expected) == [] <==> forall k | 0 <= k < |views| :: !IntendsIt(views[k], expected)
    ensures |LeavesIn(views, expected)| > 1 <==>
            exists i, j :: 0 <= i < j < |views| && IntendsIt(views[i], expected) && IntendsIt(views[j], expected)
  {
    var leaves := LeavesIn(views, expected);
    if leaves != [] {
      assert leaves[0] in leaves;
    }
    if k :| 0 <= k < |views| && IntendsIt(views[k], expected) {
      assert views[k] in leaves;
    }
    if |leaves| > 1 {
      var i, j := TwoIntents(views, expected, leaves);
    }
    if i, j :| 0 <= i < j < |views| && IntendsIt(views[i], expected) && IntendsIt(views[j], expected) {
      TwoLeaves(views, expected, leaves, i, j);
    }
  }

  lemma TwoIntents(views: seq<PolicyView>, expected: Digest, leaves: seq<PolicyView>) returns (i: nat, j: nat)
    requires OnePerInteraction(views) && leaves == LeavesIn(views, expected) && |leaves| > 1
    ensures i < j < |views| && IntendsIt(views[i], expected) && IntendsIt(views[j], expected)
  {
    LeavesAreDistinct(views, expected);
    assert leaves[0] in leaves && leaves[1] in leaves && leaves[0] != leaves[1];
    i :| 0 <= i < |views| && views[i] == leaves[0];
    j :| 0 <= j < |views| && views[j] == leaves[1];
    if j < i {
      i, j := j, i;
    }
  }

  lemma TwoLeaves(views: seq<PolicyView>, expected: Digest, leaves: seq<PolicyView>, i: nat, j: nat)
    requires OnePerInteraction(views) && leaves == LeavesIn(views, expected)
    requires i < j < |views| && IntendsIt(views[i], expected) && IntendsIt(views[j], expected)
    ensures |leaves| > 1
  {
    assert views[i] in views && views[j] in views;
    assert views[i] in leaves && views[j] in leaves && views[i] != views[j];
  }

  /** What is wrong, if anything, with the climb from the only leaf, in the order in which it is noticed. */
  ghost predicate DefectOnClimb(views: seq<PolicyView>, up: seq<PolicyView>, defect: Option<Defect>)
    requires up != []
  {
    var top := up[|up| - 1].handoff;
    match top.previous
    case Some(p) => defect == Some(if SomeUnder(views, p) then ChainCycle else Defect.ParentMissing)
    case None =>
      if top.event != Delegation then defect == Some(Defect.RootInvalid)
      else if exists k :: 0 < k < |up| && up[k].handoff.event != Delegation then defect == Some(IntermediateInvalid)
      else if exists v :: v in views && v !in up then defect == Some(ExtraOrDisconnectedHandoff)
      else defect == None
  }

  /** What the assembly makes of a climb that reached a root. */
  ghost function RootDefect(views: seq<PolicyView>, ch: seq<PolicyView>): Option<Defect>
    requires ch != []
  {
    if ch[0].handoff.event != Delegation then Some(Defect.RootInvalid)
    else if exists k :: 0 <= k < |ch| - 1 && ch[k].handoff.event != Delegation then Some(IntermediateInvalid)
    else if Ids(ch) != Ids(views) then Some(ExtraOrDisconnectedHandoff)
    else None
  }

  lemma RootDefectMeaning(views: seq<PolicyView>, up: seq<PolicyView>)
    requires OnePerInteraction(views) && up != [] && up[|up| - 1].handoff.previous == None
    requires forall k | 0 <= k < |up| :: up[k] in views
    ensures DefectOnClimb(views, up, RootDefect(views, Reverse(up)))
  {
    ReverseIds(up);
    EveryViewClimbed(views, up);
    ReversedDelegations(up, Reverse(up));
  }

  lemma DefectFromWalk(views: seq<PolicyView>, leaf: PolicyView)
    requires leaf in views
    ensures var up, end := WalkUp(views, leaf, {}).0, WalkUp(views, leaf, {}).1;
      if end == AtRoot then up != [] && DefectFrom(views, leaf) == RootDefect(views, Reverse(up))
      else DefectFrom(views, leaf) == Some(if end == Cycle then ChainCycle else Defect.ParentMissing)
  {
    if WalkUp(views, leaf, {}).1 == AtRoot {
      WalkIsLinear(views, leaf, {});
    }
  }

  /** From the only leaf, the walk's findings decide. */
  lemma DefectOfTheWalk(views: seq<PolicyView>, expected: Digest, leaf: PolicyView) returns (up: seq<PolicyView>)
    requires OnePerInteraction(views) && leaf in views && LeavesIn(views, expected) == [leaf]
    ensures up != [] && up[0] == leaf && IsClimb(views, {}, up) && DefectOnClimb(views, up, DefectOf(views, expected))
  {
    up := WalkUp(views, leaf, {}).0;
    var end := WalkUp(views, leaf, {}).1;
    WalkMeaning(views, leaf, {});
    DefectFromWalk(views, leaf);
    ClimbsDefect(views, up, end, DefectFrom(views, leaf));
  }

  lemma ClimbsDefect(views: seq<PolicyView>, up: seq<PolicyView>, end: WalkEnd, defect: Option<Defect>)
    requires OnePerInteraction(views) && up != [] && IsClimb(views, {}, up) && EndsAs(views, {}, up, end)
    requires if end == AtRoot then defect == RootDefect(views, Reverse(up))
             else defect == Some(if end == Cycle then ChainCycle else Defect.ParentMissing)
    ensures DefectOnClimb(views, up, defect)
  {
    match up[|up| - 1].handoff.previous
    case None => RootDefectMeaning(views, up);
    case Some(p) => NeverSeveral(views, p);
  }

  lemma NeverSeveral(views: seq<PolicyView>, i: Id)
    requires OnePerInteraction(views)
    ensures !SeveralUnder(views, i)
  {
  }

  lemma EveryViewClimbed(views: seq<PolicyView>, up: seq<PolicyView>)
    requires OnePerInteraction(views) && forall k | 0 <= k < |up| :: up[k] in views
    ensures Ids(up) == Ids(views) <==> forall v | v in views :: v in up
  {
    if Ids(up) == Ids(views) {
      SameIdsSameViews(views, up);
      forall v | v in views
        ensures v in up
      {
        assert v in Elems(views);
      }
    }
  }

  lemma ReversedDelegations(up: seq<PolicyView>, ch: seq<PolicyView>)
    requires |ch| == |up| && forall k | 0 <= k < |ch| :: ch[k] == up[|up| - 1 - k]
    ensures (exists k :: 0 <= k < |ch| - 1 && ch[k].handoff.event != Delegation) <==>
            exists k :: 0 < k < |up| && up[k].handoff.event != Delegation
  {
    if forall k | 0 < k < |up| :: up[k].handoff.event == Delegation {
      forall k | 0 <= k < |ch| - 1
        ensures ch[k].handoff.event == Delegation
      {
      }
    } else {
      var k :| 0 < k < |up| && up[k].handoff.event != Delegation;
      var j := |up| - 1 - k;
      assert ch[j] == up[k];
    }
  }

  // ---------- when the assembly is complete ----------

  lemma LeafIsLast(views: seq<PolicyView>, expected: Digest, ch: seq<PolicyView>, v: PolicyView)
    requires FormsChain(views, expected, ch) && v in views && Intends(v, expected)
    ensures v == ch[|ch| - 1]
  {
    assert v in Elems(ch);
    var k :| 0 <= k < |ch| && ch[k] == v;
  }

  lemma FormedChainFiles(views: seq<PolicyView>, expected: Digest, ch: seq<PolicyView>, k: nat)
    requires FormsChain(views, expected, ch) && k < |ch|
    ensures ch[k] in views && Filed(views, ch[k].handoff.interaction) == [ch[k]]
  {
    assert ch[k] in Elems(ch);
    FiledAlone(views, ch[k]);
  }

  lemma FormedChainIsLinear(views: seq<PolicyView>, expected: Digest, ch: seq<PolicyView>)
    requires FormsChain(views, expected, ch)
    ensures LinearIn(views, ch)
  {
    forall k | 0 <= k < |ch|
      ensures ch[k] in views
    {
      FormedChainFiles(views, expected, ch, k);
    }
    forall j, k | 0 <= j < |ch| && k == j + 1 < |ch|
      ensures Linked(views, ch[j], ch[k])
    {
      FormedChainFiles(views, expected, ch, j);
    }
  }

  /** A chain of all the views is linear among them, so the walk from its leaf is the chain reversed. */
  lemma FormedChainIsWalked(views: seq<PolicyView>, expected: Digest, ch: seq<PolicyView>)
    requires FormsChain(views, expected, ch)
    ensures ch[|ch| - 1] in views && WalkUp(views, ch[|ch| - 1], {}) == (Reverse(ch), AtRoot)
  {
    FormedChainIsLinear(views, expected, ch);
    LinearWalks(views, ch, |ch| - 1, {});
    assert ch[..|ch|] == ch;
  }

  lemma ReverseIds(s: seq<PolicyView>)
    ensures Ids(Reverse(s)) == Ids(s)
  {
    forall k | 0 <= k < |s|
      ensures s[k] in Reverse(s)
    {
      assert Reverse(s)[|s| - 1 - k] == s[k];
    }
  }

  lemma SameIdsSameViews(views: seq<PolicyView>, ch: seq<PolicyView>)
    requires OnePerInteraction(views) && (forall k | 0 <= k < |ch| :: ch[k] in views) && Ids(ch) == Ids(views)
    ensures Elems(ch) == Elems(views)
  {
    forall v | v in views
      ensures v in ch
    {
      assert v.handoff.interaction in Ids(views);
      var w :| w in ch && w.handoff.interaction == v.handoff.interaction;
      var j :| 0 <= j < |views| && views[j] == v;
      var k :| 0 <= k < |views| && views[k] == w;
    }
  }

  /** A linear chain that has every view on it, with the right events along it, is a chain of all of them. */
  lemma LinearFormsChain(views: seq<PolicyView>, expected: Digest, ch: seq<PolicyView>)
    requires OnePerInteraction(views) && LinearIn(views, ch) && Ids(ch) == Ids(views)
    requires Intends(ch[|ch| - 1], expected)
    requires ch[0].handoff.event == Delegation && forall k | 0 <= k < |ch| - 1 :: ch[k].handoff.event == Delegation
    ensures FormsChain(views, expected, ch)
  {
    forall j, k | 0 <= j < k < |ch|
      ensures ch[j].handoff.interaction != ch[k].handoff.interaction
    {
      LinearDistinct(views, ch, j, k);
    }
    forall j, k | 0 <= j < |ch| && k == j + 1 < |ch|
      ensures ch[k].handoff.previous == Some(ch[j].handoff.interaction)
    {
      assert Linked(views, ch[j], ch[k]);
    }
    SameIdsSameViews(views, ch);
  }

  lemma ChainHasOneLeaf(views: seq<PolicyView>, expected: Digest, leaves: seq<PolicyView>, ch: seq<PolicyView>)
    requires FormsChain(views, expected, ch) && OnePerInteraction(leaves)
    requires forall v :: v in leaves <==> v in views && Intends(v, expected)
    ensures leaves == [ch[|ch| - 1]]
  {
    var last := ch[|ch| - 1];
    assert last in Elems(ch);
    forall k | 0 <= k < |leaves|
      ensures leaves[k] == last
    {
      LeafIsLast(views, expected, ch, leaves[k]);
    }
    assert |leaves| > 1 ==> leaves[0].handoff.interaction != leaves[1].handoff.interaction;
    assert last in leaves;
  }

  /** A chain of all the views, seen from the walk that must find it. */
  lemma ChainIsWalked(views: seq<PolicyView>, expected: Digest, reverse: seq<PolicyView>, end: WalkEnd, leaf: PolicyView, ch: seq<PolicyView>)
    requires FormsChain(views, expected, ch) && ch[|ch| - 1] == leaf && leaf in views
    requires reverse == WalkUp(views, leaf, {}).0 && end == WalkUp(views, leaf, {}).1
    ensures end == AtRoot && Reverse(reverse) == ch && Ids(ch) == Ids(views)
  {
    FormedChainIsWalked(views, expected, ch);
    assert Reverse(Reverse(ch)) == ch;
    forall v | v in views
      ensures v in ch
    {
      assert v in Elems(ch);
    }
    forall v | v in ch
      ensures v in views
    {
      assert v in Elems(views);
    }
  }

  /** A chain of all the views that ends in the leaf leaves no defect to find. */
  lemma FormedChainHasNoDefect(views: seq<PolicyView>, expected: Digest, leaf: PolicyView, ch: seq<PolicyView>)
    requires FormsChain(views, expected, ch) && leaf in views && ch[|ch| - 1] == leaf
    ensures DefectFrom(views, leaf) == None
  {
    ChainIsWalked(views, expected, WalkUp(views, leaf, {}).0, WalkUp(views, leaf, {}).1, leaf, ch);
  }

  /** The walk from the only leaf, and the checks on what it found. */
  method AssembleFrom(views: seq<PolicyView>, expected: Digest, byId: map<Id, PolicyView>, leaf: PolicyView)
    returns (r: Assembly, ghost chain: seq<PolicyView>)
    requires OnePerInteraction(views) && FilesById(byId, views) && leaf in views && Intends(leaf, expected)
    ensures r.Complete? ==> FormsChain(views, expected, chain) && r.interactionIds == InteractionIds(chain)
    ensures DefectFrom(views, leaf) == if r.Unresolved? then Some(r.reason) else None
  {
    chain := [];
    DistinctFindsEverything(byId, views);
    assert byId.Keys == Ids(views);
    var reverse, seen, end := WalkById(views, byId, leaf);
    assert seen == Ids(reverse) by {
      SeenAreTheWalked(views, leaf, {});
    }
    if end == Cycle {
      return Unresolved(ChainCycle), chain;
    }
    if end != AtRoot {
      return Unresolved(Defect.ParentMissing), chain;
    }
    WalkIsLinear(views, leaf, {});
    ReverseIds(reverse);
    var ordered := Reverse(reverse);
    if ordered[0].handoff.event != Delegation {
      return Unresolved(Defect.RootInvalid), chain;
    }
    if exists k :: 0 <= k < |ordered| - 1 && ordered[k].handoff.event != Delegation {
      return Unresolved(IntermediateInvalid), chain;
    }
    if seen != byId.Keys {
      return Unresolved(ExtraOrDisconnectedHandoff), chain;
    }
    LinearFormsChain(views, expected, ordered);
    return Complete(InteractionIds(ordered)), ordered;
  }

  lemma ChainHasNoDefect(views: seq<PolicyView>, expected: Digest, ch: seq<PolicyView>)
    requires FormsChain(views, expected, ch)
    ensures DefectOf(views, expected) == None
  {
    var leaves, last := LeavesIn(views, expected), ch[|ch| - 1];
    LeavesAreDistinct(views, expected);
    ChainHasOneLeaf(views, expected, leaves, ch);
    assert last in [last];
    FormedChainHasNoDefect(views, expected, last, ch);
  }

  lemma DefectExcludesChain(views: seq<PolicyView>, expected: Digest)
    ensures DefectOf(views, expected).Some? ==> forall ch :: !FormsChain(views, expected, ch)
  {
    forall ch | FormsChain(views, expected, ch)
      ensures DefectOf(views, expected) == None
    {
      ChainHasNoDefect(views, expected, ch);
    }
  }

  /** `assemble_strict_chain`: complete exactly when all the views form one chain, and then it is that chain. */
  method AssembleStrictChain(views: seq<PolicyView>, expected: Digest) returns (r: Assembly, ghost chain: seq<PolicyView>)
    ensures r.Complete? ==> FormsChain(views, expected, chain) && r.interactionIds == InteractionIds(chain)
    ensures r.Unresolved? ==> forall ch :: !FormsChain(views, expected, ch)
    ensures DefectOf(views, expected) == if r.Unresolved? then Some(r.reason) else None
  {
    chain := [];
    DefectExcludesChain(views, expected);
    var byId := FileById(views);
    if |byId| != |views| {
      return Unresolved(DuplicateInteraction), chain;
    }
    var leaves := FindLeaves(views, expected);
    if leaves == [] {
      return Unresolved(LeafMissing), chain;
    }
    if |leaves| != 1 {
      return Unresolved(AmbiguousLeaf), chain;
    }
    assert leaves[0] in leaves;
    r, chain := AssembleFrom(views, expected, byId, leaves[0]);
  }

  lemma ReverseTwice(s: seq<PolicyView>, s': seq<PolicyView>)
    ensures Reverse(s) == Reverse(s') ==> s == s'
  {
    assert Reverse(Reverse(s)) == s && Reverse(Reverse(s')) == s';
  }

  /** The chain depends on the set of views alone, not on their order. */
  lemma FormedChainUnique(views: seq<PolicyView>, views': seq<PolicyView>, expected: Digest, ch: seq<PolicyView>, ch': seq<PolicyView>)
    requires FormsChain(views, expected, ch) && FormsChain(views', expected, ch') && Elems(views) == Elems(views')
    ensures ch == ch'
  {
    assert FormsChain(views, expected, ch');
    FormedChainIsWalked(views, expected, ch);
    FormedChainIsWalked(views, expected, ch');
    LeafIsLast(views, expected, ch, ch'[|ch'| - 1]);
    ReverseTwice(ch, ch');
  }

  /** On views that form a strict chain, the gate's own walk from its own leaf yields the same sequence. */
  lemma GateWalksTheSameChain(views: seq<PolicyView>, a: Action, ch: seq<PolicyView>)
    requires FormsChain(views, ActionDigest(a), ch)
    ensures Gate.Leaves(views, a) == [ch[|ch| - 1]]
    ensures WalkUp(views, ch[|ch| - 1], {}) == (Reverse(ch), AtRoot)
  {
    FormedChainIsWalked(views, ActionDigest(a), ch);
    LeavesAreDistinct(views, ActionDigest(a));
    ChainHasOneLeaf(views, ActionDigest(a), LeavesIn(views, ActionDigest(a)), ch);
  }
}
