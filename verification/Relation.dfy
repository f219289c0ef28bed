/**
 Parent relations: the memoised loop that decides them, against their recursive meaning, and
 the emission of exactly the candidates whose whole ancestry is in order.
 */
module Relation {
  import opened Common
  import opened Model
  import opened ParentGraph

  type Candidates = map<Id, Candidate>

  function ParentsOf(c: Candidates): Parents {
    map i | i in c :: c[i].handoff.previous
  }

  /** Candidates are filed under their own interaction id. */
  ghost predicate Keyed(c: Candidates) {
    forall i | i in c :: c[i].handoff.interaction == i
  }

  ghost function Ancestry(p: Parents, x: Id): set<Id> {
    set y | y in p && Reaches(p, x, y)
  }

  lemma AncestryShrinks(p: Parents, x: Id)
    requires !OnCycle(p, x) && Step(p, x).Some?
    ensures Ancestry(p, Step(p, x).value) < Ancestry(p, x)
  {
    var y := Step(p, x).value;
    forall z | z in Ancestry(p, y)
      ensures z in Ancestry(p, x)
    {
      var n: nat :| Walk(p, y, n) == Some(z);
      assert Walk(p, x, n + 1) == Some(z);
    }
    assert Walk(p, x, 0) == Some(x);
    assert x in Ancestry(p, x);
    forall n: nat
      ensures Walk(p, y, n) != Some(x)
    {
      assert Walk(p, x, n + 1) == Walk(p, y, n);
    }
  }

  /** What is wrong between a candidate and a parent that is itself in order. */
  function LinkFailure(parent: Candidate, child: Candidate, skew: nat): Option<IssueCode> {
    if parent.decision != Accept || parent.handoff.event != Delegation then Some(ParentInvalid)
    else if ExceedsWithSkew(parent.decidedAt, child.handoff.createdAt, skew) then Some(ParentTimeInvalid)
    else if parent.handoff.receiver != child.handoff.sender then Some(PartyContinuityInvalid)
    else None
  }

  /** The recursive meaning of a parent relation; `None` is "in order all the way to the root". */
  ghost function Failure(c: Candidates, invalid: set<Id>, skew: nat, x: Id): Option<IssueCode>
    requires x in c
    decreases Ancestry(ParentsOf(c), x)
  {
    if OnCycle(ParentsOf(c), x) then Some(ParentCycle)
    else match c[x].handoff.previous
      case None => if c[x].handoff.event == Delegation then None else Some(RootInvalid)
      case Some(y) =>
        if y !in c then Some(if y in invalid then ParentInvalid else ParentMissing)
        else
          AncestryShrinks(ParentsOf(c), x);
          if Failure(c, invalid, skew, y).Some? then Some(ParentInvalid)
          else LinkFailure(c[y], c[x], skew)
  }

  ghost predicate MemoSound(c: Candidates, invalid: set<Id>, skew: nat, memo: map<Id, Option<IssueCode>>) {
    && (forall x | x in memo :: x in c && memo[x] == Failure(c, invalid, skew, x))
    && (forall x | x in c && OnCycle(ParentsOf(c), x) :: x in memo)
  }

  lemma MemoAdd(c: Candidates, invalid: set<Id>, skew: nat, memo: map<Id, Option<IssueCode>>, x: Id, f: Option<IssueCode>)
    requires MemoSound(c, invalid, skew, memo) && x in c && f == Failure(c, invalid, skew, x)
    ensures MemoSound(c, invalid, skew, memo[x := f])
  {
  }

  /** What the parent's failure makes of the child's, off the cycles. */
  lemma FailureBelow(c: Candidates, invalid: set<Id>, skew: nat, child: Id, parent: Id)
    requires child in c && parent in c && !OnCycle(ParentsOf(c), child) && c[child].handoff.previous == Some(parent)
    ensures Failure(c, invalid, skew, child) ==
            if Failure(c, invalid, skew, parent).Some? then Some(ParentInvalid) else LinkFailure(c[parent], c[child], skew)
  {
  }

  /** A memoised parent settles its child. */
  lemma MemoAddBelow(c: Candidates, invalid: set<Id>, skew: nat, memo: map<Id, Option<IssueCode>>, child: Id, parent: Id)
    requires MemoSound(c, invalid, skew, memo) && parent in memo && parent in c
    requires child in c && !OnCycle(ParentsOf(c), child) && c[child].handoff.previous == Some(parent)
    ensures MemoSound(c, invalid, skew,
                      memo[child := if memo[parent].Some? then Some(ParentInvalid) else LinkFailure(c[parent], c[child], skew)])
  {
    FailureBelow(c, invalid, skew, child, parent);
  }

  /** Steps of the walk up from `x`: each off the cycles, and each the child of the next, `current` last. */
  ghost predicate IsClimb(c: Candidates, x: Id, chain: seq<Id>, current: Id) {
    && current in c && (chain + [current])[0] == x
    && (forall j | 0 <= j < |chain| :: chain[j] in c && !OnCycle(ParentsOf(c), chain[j]))
    && (forall j | 0 <= j < |chain| :: Step(ParentsOf(c), chain[j]) == Some((chain + [current])[j + 1]))
  }

  lemma ClimbOn(c: Candidates, x: Id, chain: seq<Id>, current: Id, parent: Id)
    requires IsClimb(c, x, chain, current) && !OnCycle(ParentsOf(c), current)
    requires parent in c && c[current].handoff.previous == Some(parent)
    ensures IsClimb(c, x, chain + [current], parent)
  {
    var longer := chain + [current];
    forall j | 0 <= j < |longer|
      ensures longer[j] in c && !OnCycle(ParentsOf(c), longer[j])
      ensures Step(ParentsOf(c), longer[j]) == Some((longer + [parent])[j + 1])
    {
      assert j < |chain| ==> longer[j] == chain[j] && (longer + [parent])[j + 1] == (chain + [current])[j + 1];
    }
  }

  /** The first loop of `relation_failure`: up to a memoised ancestor, or to one that settles itself. */
  method ClimbToSettled(c: Candidates, invalid: set<Id>, skew: nat, memo: map<Id, Option<IssueCode>>, x: Id)
    returns (memo': map<Id, Option<IssueCode>>, chain: seq<Id>, current: Id)
    requires x in c && MemoSound(c, invalid, skew, memo)
    ensures MemoSound(c, invalid, skew, memo') && memo.Keys <= memo'.Keys
    ensures IsClimb(c, x, chain, current) && current in memo'
  {
    memo' := memo;
    chain := [];
    current := x;
    while current !in memo'
      invariant MemoSound(c, invalid, skew, memo') && memo.Keys <= memo'.Keys
      invariant IsClimb(c, x, chain, current)
      decreases Ancestry(ParentsOf(c), current), if current in memo' then 0 else 1
    {
      match c[current].handoff.previous
      case None =>
        var failureAtRoot := if c[current].handoff.event == Delegation then None else Some(RootInvalid);
        MemoAdd(c, invalid, skew, memo', current, failureAtRoot);
        memo' := memo'[current := failureAtRoot];
      case Some(previous) =>
        if previous !in c {
          var absent := Some(if previous in invalid then ParentInvalid else ParentMissing);
          MemoAdd(c, invalid, skew, memo', current, absent);
          memo' := memo'[current := absent];
        } else {
          AncestryShrinks(ParentsOf(c), current);
          ClimbOn(c, x, chain, current, previous);
          chain := chain + [current];
          current := previous;
        }
    }
  }

  /** The second loop: back down, settling each child from its parent. */
  method SettleDown(c: Candidates, invalid: set<Id>, skew: nat, memo: map<Id, Option<IssueCode>>, chain: seq<Id>, current: Id, ghost x: Id)
    returns (memo': map<Id, Option<IssueCode>>)
    requires MemoSound(c, invalid, skew, memo) && IsClimb(c, x, chain, current) && current in memo
    ensures MemoSound(c, invalid, skew, memo') && memo.Keys <= memo'.Keys && x in memo'
  {
    memo' := memo;
    var i := |chain|;
    while i > 0
      invariant 0 <= i <= |chain|
      invariant MemoSound(c, invalid, skew, memo') && memo.Keys <= memo'.Keys
      invariant (chain + [current])[i] in memo'
    {
      i := i - 1;
      var child := chain[i];
      assert Step(ParentsOf(c), child) == Some((chain + [current])[i + 1]);
      var previous := c[child].handoff.previous.value;
      var link := if memo'[previous].Some? then Some(ParentInvalid) else LinkFailure(c[previous], c[child], skew);
      MemoAddBelow(c, invalid, skew, memo', child, previous);
      memo' := memo'[child := link];
    }
  }

  /**
   `relation_failure`. The walk up terminates because every node on a cycle is already in the
   memo; the walk back down fills the memo with the recursive meaning.
   */
  method RelationFailure(c: Candidates, invalid: set<Id>, skew: nat, memo: map<Id, Option<IssueCode>>, x: Id)
    returns (memo': map<Id, Option<IssueCode>>, failure: Option<IssueCode>)
    requires x in c && MemoSound(c, invalid, skew, memo)
    ensures MemoSound(c, invalid, skew, memo') && memo.Keys <= memo'.Keys
    ensures failure == Failure(c, invalid, skew, x)
  {
    var climbed, chain, current := ClimbToSettled(c, invalid, skew, memo, x);
    memo' := SettleDown(c, invalid, skew, climbed, chain, current, x);
    failure := memo'[x];
  }

  ghost function Emitted(c: Candidates, invalid: set<Id>, skew: nat): set<Id> {
    set x | x in c && Failure(c, invalid, skew, x) == None
  }

  ghost function RelationIssues(c: Candidates, invalid: set<Id>, skew: nat): set<Issue> {
    set x | x in c && Failure(c, invalid, skew, x).Some? :: Issue(Failure(c, invalid, skew, x).value, Some(x))
  }

  /** The handoffs that survive, and the issues raised, along a given order of interactions. */
  ghost function EmitAlong(rep: Representation, c: Candidates, invalid: set<Id>, skew: nat, order: seq<Id>)
    : (r: (seq<ValidatedHandoff>, set<Issue>))
    requires forall x | x in order :: x in c
  {
    if order == [] then ([], {})
    else
      var last := order[|order| - 1];
      var (before, issues) := EmitAlong(rep, c, invalid, skew, order[..|order| - 1]);
      match Failure(c, invalid, skew, last)
      case Some(code) => (before, issues + {Issue(code, Some(last))})
      case None => (before + [ValidatedHandoff(rep, c[last])], issues)
  }

  ghost predicate EmitsExactly(rep: Representation, c: Candidates, ids: set<Id>, result: seq<ValidatedHandoff>) {
    && (forall v :: v in result <==> v.candidate.handoff.interaction in ids
                                     && v.candidate.handoff.interaction in c
                                     && v == ValidatedHandoff(rep, c[v.candidate.handoff.interaction]))
    && (forall j, k | 0 <= j < k < |result| ::
          result[j].candidate.handoff.interaction < result[k].candidate.handoff.interaction)
  }

  lemma EmitsOneMore(rep: Representation, c: Candidates, ids: set<Id>, result: seq<ValidatedHandoff>, x: Id)
    requires Keyed(c) && EmitsExactly(rep, c, ids, result) && x in c && forall y | y in ids :: y < x
    ensures EmitsExactly(rep, c, ids + {x}, result + [ValidatedHandoff(rep, c[x])])
  {
    forall j | 0 <= j < |result|
      ensures result[j].candidate.handoff.interaction < x
    {
      assert result[j] in result;
    }
  }

  lemma {:induction false} EmitAlongViews(rep: Representation, c: Candidates, invalid: set<Id>, skew: nat, order: seq<Id>)
    requires Keyed(c) && Ascending(order) && forall x | x in order :: x in c
    ensures EmitsExactly(rep, c, Emitted(c, invalid, skew) * Elems(order), EmitAlong(rep, c, invalid, skew, order).0)
  {
    if order != [] {
      var init, x := order[..|order| - 1], order[|order| - 1];
      var emitted := Emitted(c, invalid, skew);
      assert order == init + [x];
      assert forall y | y in init :: y < x;
      EmitAlongViews(rep, c, invalid, skew, init);
      if Failure(c, invalid, skew, x) == None {
        EmitsOneMore(rep, c, emitted * Elems(init), EmitAlong(rep, c, invalid, skew, init).0, x);
        assert emitted * Elems(order) == emitted * Elems(init) + {x};
      } else {
        assert emitted * Elems(order) == emitted * Elems(init);
      }
    }
  }

  lemma {:induction false} EmitAlongIssues(rep: Representation, c: Candidates, invalid: set<Id>, skew: nat, order: seq<Id>)
    requires forall x | x in order :: x in c
    ensures forall e :: e in EmitAlong(rep, c, invalid, skew, order).1 <==>
              && e.interaction.Some? && e.interaction.value in order
              && Failure(c, invalid, skew, e.interaction.value) == Some(e.code)
  {
    if order != [] {
      var n := |order| - 1;
      assert order == order[..n] + [order[n]];
      EmitAlongIssues(rep, c, invalid, skew, order[..n]);
    }
  }

  lemma EmitStep(rep: Representation, c: Candidates, invalid: set<Id>, skew: nat, order: seq<Id>, i: nat)
    requires i < |order| && forall x | x in order :: x in c
    ensures var (before, issues) := EmitAlong(rep, c, invalid, skew, order[..i]);
      EmitAlong(rep, c, invalid, skew, order[..i + 1]) ==
      match Failure(c, invalid, skew, order[i])
      case Some(code) => (before, issues + {Issue(code, Some(order[i]))})
      case None => (before + [ValidatedHandoff(rep, c[order[i]])], issues)
  {
    assert order[..i + 1][..i] == order[..i];
  }

  /** The loop of `_emit_validated` over a memo seeded with the cycles. */
  method EmitLoop(rep: Representation, c: Candidates, invalid: set<Id>, skew: nat,
                  seeded: map<Id, Option<IssueCode>>, order: seq<Id>, issues: set<Issue>)
    returns (result: seq<ValidatedHandoff>, issues': set<Issue>)
    requires MemoSound(c, invalid, skew, seeded)
    requires forall x | x in order :: x in c
    ensures result == EmitAlong(rep, c, invalid, skew, order).0
    ensures issues' == issues + EmitAlong(rep, c, invalid, skew, order).1
  {
    result, issues' := [], issues;
    var memo := seeded;
    var i := 0;
    while i < |order|
      invariant 0 <= i <= |order|
      invariant MemoSound(c, invalid, skew, memo)
      invariant result == EmitAlong(rep, c, invalid, skew, order[..i]).0
      invariant issues' == issues + EmitAlong(rep, c, invalid, skew, order[..i]).1
    {
      var x := order[i];
      EmitStep(rep, c, invalid, skew, order, i);
      var failure;
      memo, failure := RelationFailure(c, invalid, skew, memo, x);
      if failure.Some? {
        issues' := issues' + {Issue(failure.value, Some(x))};
      } else {
        result := result + [ValidatedHandoff(rep, c[x])];
      }
      i := i + 1;
    }
    assert order[..i] == order;
  }

  lemma EverythingEmitted(rep: Representation, c: Candidates, invalid: set<Id>, skew: nat, order: seq<Id>)
    requires Keyed(c) && Ascending(order) && forall x :: x in order <==> x in c
    ensures EmitsExactly(rep, c, Emitted(c, invalid, skew), EmitAlong(rep, c, invalid, skew, order).0)
    ensures EmitAlong(rep, c, invalid, skew, order).1 == RelationIssues(c, invalid, skew)
  {
    EmitAlongViews(rep, c, invalid, skew, order);
    EmitAlongIssues(rep, c, invalid, skew, order);
    assert Emitted(c, invalid, skew) * Elems(order) == Emitted(c, invalid, skew);
  }

  /** `_emit_validated`: the candidates in order, in ascending interaction order. */
  method EmitValidated(rep: Representation, c: Candidates, invalid: set<Id>, skew: nat, issues: set<Issue>)
    returns (result: seq<ValidatedHandoff>, issues': set<Issue>)
    requires Keyed(c)
    ensures EmitsExactly(rep, c, Emitted(c, invalid, skew), result)
    ensures issues' == issues + RelationIssues(c, invalid, skew)
  {
    var order := Sorted(c.Keys);
    assert Elems(order) == c.Keys;
    var cycles, _ := CycleNodes(ParentsOf(c), order);
    var seeded: map<Id, Option<IssueCode>> := map x | x in cycles :: Some(ParentCycle);
    result, issues' := EmitLoop(rep, c, invalid, skew, seeded, order, issues);
    EverythingEmitted(rep, c, invalid, skew, order);
  }

  // ---------- what emission means, without the memo or the cycle search ----------

  /** The parent is a delegation that its receiver accepted, in time, before handing on. */
  predicate Hangs(parent: Candidate, child: Candidate, skew: nat) {
    && parent.decision == Accept && parent.handoff.event == Delegation
    && parent.decidedAt <= child.handoff.createdAt + skew
    && parent.handoff.receiver == child.handoff.sender
  }

  /** A path down from a parentless delegation, every link of it in order. */
  ghost predicate RootedPath(c: Candidates, skew: nat, path: seq<Id>) {
    && path != [] && (forall i | 0 <= i < |path| :: path[i] in c)
    && c[path[0]].handoff.previous == None && c[path[0]].handoff.event == Delegation
    && (forall i | 1 <= i < |path| ::
          c[path[i]].handoff.previous == Some(path[i - 1]) && Hangs(c[path[i - 1]], c[path[i]], skew))
  }

  /** The loop's test of a link, and which of its three ways to fail comes first. */
  lemma LinkMeaning(parent: Candidate, child: Candidate, skew: nat)
    ensures var failure := LinkFailure(parent, child, skew);
      && (failure == None <==> Hangs(parent, child, skew))
      && (failure == Some(ParentInvalid) <==> parent.decision == Reject || parent.handoff.event == ActionIntent)
      && (failure == Some(ParentTimeInvalid) <==>
            && parent.decision == Accept && parent.handoff.event == Delegation
            && parent.decidedAt > child.handoff.createdAt + skew)
      && (failure == Some(PartyContinuityInvalid) <==>
            && parent.decision == Accept && parent.handoff.event == Delegation
            && parent.decidedAt <= child.handoff.createdAt + skew && parent.handoff.receiver != child.handoff.sender)
  {
  }

  /** The issue a candidate is reported with: what is wrong with its own parent reference, or that its parent is out of order. */
  lemma FailureMeaning(c: Candidates, invalid: set<Id>, skew: nat, x: Id)
    requires x in c
    ensures var failure := Failure(c, invalid, skew, x);
      if OnCycle(ParentsOf(c), x) then failure == Some(ParentCycle)
      else match c[x].handoff.previous
        case None => failure == (if c[x].handoff.event == ActionIntent then Some(RootInvalid) else None)
        case Some(y) =>
          if y !in c then failure == Some(if y in invalid then ParentInvalid else ParentMissing)
          else if y !in Emitted(c, invalid, skew) || c[y].decision == Reject || c[y].handoff.event == ActionIntent
          then failure == Some(ParentInvalid)
          else if c[y].decidedAt > c[x].handoff.createdAt + skew then failure == Some(ParentTimeInvalid)
          else if c[y].handoff.receiver != c[x].handoff.sender then failure == Some(PartyContinuityInvalid)
          else failure == None
  {
    if !OnCycle(ParentsOf(c), x) && c[x].handoff.previous.Some? && c[x].handoff.previous.value in c {
      var y := c[x].handoff.previous.value;
      LinkMeaning(c[y], c[x], skew);
      FailureBelow(c, invalid, skew, x, y);
    }
  }

  lemma {:induction false} CycleNeverEnds(p: Parents, x: Id, m: nat)
    requires OnCycle(p, x)
    ensures Walk(p, x, m).Some?
    decreases m
  {
    if m > 0 {
      var n: nat :| n >= 1 && Walk(p, x, n) == Some(x);
      var y := Step(p, x).value;
      WalkCompose(p, y, n - 1, 1);
      assert Walk(p, x, 1) == Some(y) by { assert Walk(p, y, 0) == Some(y); }
      assert Walk(p, y, n) == Some(y);
      CycleNeverEnds(p, y, m - 1);
    }
  }

  lemma {:induction false} RootedPathWalk(c: Candidates, skew: nat, path: seq<Id>, i: nat)
    requires RootedPath(c, skew, path) && i < |path|
    ensures Walk(ParentsOf(c), path[i], i + 1) == None
    decreases i
  {
    if i > 0 {
      RootedPathWalk(c, skew, path, i - 1);
    }
  }

  lemma {:induction false} RootedIsEmitted(c: Candidates, invalid: set<Id>, skew: nat, path: seq<Id>, i: nat)
    requires RootedPath(c, skew, path) && i < |path|
    ensures path[i] in Emitted(c, invalid, skew)
    decreases i
  {
    if OnCycle(ParentsOf(c), path[i]) {
      CycleNeverEnds(ParentsOf(c), path[i], i + 1);
      RootedPathWalk(c, skew, path, i);
      assert false;
    }
    if i > 0 {
      RootedIsEmitted(c, invalid, skew, path, i - 1);
    }
  }

  lemma {:induction false} EmittedIsRooted(c: Candidates, invalid: set<Id>, skew: nat, x: Id) returns (path: seq<Id>)
    requires x in Emitted(c, invalid, skew)
    ensures RootedPath(c, skew, path) && path[|path| - 1] == x
    ensures forall i | 0 <= i < |path| :: path[i] in Emitted(c, invalid, skew)
    decreases Ancestry(ParentsOf(c), x)
  {
    match c[x].handoff.previous
    case None => path := [x];
    case Some(y) =>
      AncestryShrinks(ParentsOf(c), x);
      var above := EmittedIsRooted(c, invalid, skew, y);
      path := above + [x];
  }

  /** A candidate is emitted exactly when it hangs, link by sound link, from a parentless delegation. */
  lemma EmittedIffRooted(c: Candidates, invalid: set<Id>, skew: nat, x: Id)
    ensures x in Emitted(c, invalid, skew) <==>
            exists path :: RootedPath(c, skew, path) && path[|path| - 1] == x
  {
    if x in Emitted(c, invalid, skew) {
      var path := EmittedIsRooted(c, invalid, skew, x);
    }
    forall path | RootedPath(c, skew, path) && path[|path| - 1] == x
      ensures x in Emitted(c, invalid, skew)
    {
      RootedIsEmitted(c, invalid, skew, path, |path| - 1);
    }
  }

  /** The emitted set is closed under parents, and what has a parent was delegated by it. */
  lemma EmittedClosed(c: Candidates, invalid: set<Id>, skew: nat, x: Id)
    requires x in Emitted(c, invalid, skew)
    ensures match c[x].handoff.previous
            case None => c[x].handoff.event == Delegation
            case Some(y) =>
              && y in Emitted(c, invalid, skew)
              && c[y].decision == Accept && c[y].handoff.event == Delegation
              && c[y].handoff.receiver == c[x].handoff.sender
              && c[y].decidedAt <= c[x].handoff.createdAt + skew
  {
    var path := EmittedIsRooted(c, invalid, skew, x);
    if |path| > 1 {
      assert path[|path| - 2] in Emitted(c, invalid, skew);
    }
  }
}
