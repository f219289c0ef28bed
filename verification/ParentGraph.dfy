/**
 The parent graph of a set of candidates, and the iterative cycle search over it.
 Every node has at most one parent, which need not itself be a node.
 */
module ParentGraph {
  import opened Common

  type Parents = map<Id, Option<Id>>

  /** The parent of `x`, when `x` and its parent are both nodes. */
  function Step(p: Parents, x: Id): Option<Id> {
    if x in p && p[x].Some? && p[x].value in p then p[x] else None
  }

  /** The node `n` parent steps above `x`. */
  ghost function Walk(p: Parents, x: Id, n: nat): Option<Id>
    decreases n
  {
    if n == 0 then Some(x)
    else match Step(p, x)
      case None => None
      case Some(y) => Walk(p, y, n - 1)
  }

  ghost predicate Reaches(p: Parents, x: Id, y: Id) {
    exists n: nat :: Walk(p, x, n) == Some(y)
  }

  /** `x` comes back to itself after one or more parent steps. */
  ghost predicate OnCycle(p: Parents, x: Id) {
    exists n: nat :: n >= 1 && Walk(p, x, n) == Some(x)
  }

  ghost predicate Closed(p: Parents, s: set<Id>) {
    forall x | x in s && Step(p, x).Some? :: Step(p, x).value in s
  }

  lemma {:induction false} WalkCompose(p: Parents, x: Id, m: nat, n: nat)
    requires Walk(p, x, m).Some?
    ensures Walk(p, x, m + n) == Walk(p, Walk(p, x, m).value, n)
    decreases m
  {
    if m > 0 {
      WalkCompose(p, Step(p, x).value, m - 1, n);
    }
  }

  lemma {:induction false} ClosedContainsWalks(p: Parents, s: set<Id>, x: Id, n: nat)
    requires Closed(p, s) && x in s && Walk(p, x, n).Some?
    ensures Walk(p, x, n).value in s
    decreases n
  {
    if n > 0 {
      ClosedContainsWalks(p, s, Step(p, x).value, n - 1);
    }
  }

  /** A node whose step leads into a closed set that leaves it out never comes back. */
  lemma EscapesForever(p: Parents, s: set<Id>, x: Id)
    requires Closed(p, s) && x !in s
    requires Step(p, x).Some? ==> Step(p, x).value in s
    ensures !OnCycle(p, x)
  {
    forall n: nat | n >= 1 && Walk(p, x, n).Some?
      ensures Walk(p, x, n) != Some(x)
    {
      ClosedContainsWalks(p, s, Step(p, x).value, n - 1);
    }
  }

  ghost predicate IsPath(p: Parents, path: seq<Id>) {
    && (forall i | 0 <= i < |path| :: path[i] in p)
    && (forall i | 0 <= i < |path| - 1 :: Step(p, path[i]) == Some(path[i + 1]))
  }

  lemma {:induction false} PathIsWalk(p: Parents, path: seq<Id>, i: nat, j: nat)
    requires IsPath(p, path) && i <= j < |path|
    ensures Walk(p, path[i], j - i) == Some(path[j])
    decreases j - i
  {
    if i < j {
      PathIsWalk(p, path, i + 1, j);
    }
  }

  /** A path whose last node steps back to its own position `k` closes a cycle from there on. */
  lemma PathCloses(p: Parents, path: seq<Id>, k: nat, i: nat)
    requires IsPath(p, path) && k <= i < |path|
    requires Step(p, path[|path| - 1]) == Some(path[k])
    ensures OnCycle(p, path[i])
  {
    var last := |path| - 1;
    PathIsWalk(p, path, i, last);
    assert Walk(p, path[last], 1) == Some(path[k]) by {
      assert Walk(p, path[k], 0) == Some(path[k]);
    }
    WalkCompose(p, path[i], last - i, 1);
    PathIsWalk(p, path, k, i);
    WalkCompose(p, path[i], last - i + 1, i - k);
    assert Walk(p, path[i], last - i + 1 + (i - k)) == Some(path[i]);
  }

  /** The nodes of a finished path that lie on a cycle are those from the closing position on. */
  lemma PathCycles(p: Parents, path: seq<Id>, finished: set<Id>, current: Option<Id>, k: nat)
    requires IsPath(p, path) && Distinct(path) && |path| > 0
    requires Closed(p, finished) && forall i | 0 <= i < |path| :: path[i] !in finished
    requires p[path[|path| - 1]] == current
    requires k <= |path|
    requires k < |path| ==> current == Some(path[k])
    requires k == |path| ==> current.Some? ==> current.value !in p || current.value in finished
    ensures forall i | 0 <= i < |path| :: OnCycle(p, path[i]) <==> k <= i
    ensures Closed(p, finished + Elems(path))
  {
    var all := finished + Elems(path);
    forall x | x in all && Step(p, x).Some?
      ensures Step(p, x).value in all
    {
      if x !in finished {
        var j :| 0 <= j < |path| && path[j] == x;
        if j + 1 < |path| {
          assert Step(p, x) == Some(path[j + 1]);
        }
      }
    }
    forall i | 0 <= i < |path|
      ensures OnCycle(p, path[i]) <==> k <= i
    {
      if k <= i {
        PathCloses(p, path, k, i);
      } else {
        var s := finished + Elems(path[i + 1..]);
        forall x | x in s && Step(p, x).Some?
          ensures Step(p, x).value in s
        {
          if x !in finished {
            var j :| 0 <= j < |path[i + 1..]| && path[i + 1..][j] == x;
            assert path[i + 1 + j] == x;
            if i + 2 + j < |path| {
              assert Step(p, x) == Some(path[i + 1..][j + 1]);
            } else if k < |path| {
              assert Step(p, x) == Some(path[i + 1..][k - i - 1]);
            }
          }
        }
        assert i + 1 < |path| ==> path[i + 1..][0] == path[i + 1];
        EscapesForever(p, s, path[i]);
      }
    }
  }

  /** One walk of `_cycle_nodes`; `closing` is where it met itself, or its length if it did not. */
  method WalkFrom(p: Parents, start: Id, finished: set<Id>) returns (path: seq<Id>, closing: nat)
    requires start in p && start !in finished
    ensures IsPath(p, path) && Distinct(path) && path != [] && path[0] == start
    ensures forall j | 0 <= j < |path| :: path[j] !in finished
    ensures closing <= |path|
    ensures closing < |path| ==> p[path[|path| - 1]] == Some(path[closing])
    ensures closing == |path| ==>
              var last := p[path[|path| - 1]];
              last.Some? ==> last.value !in p || last.value in finished
  {
    path := [];
    var localIndex: map<Id, nat> := map[];
    var current: Option<Id> := Some(start);
    while current.Some? && current.value in p && current.value !in finished && current.value !in localIndex
      invariant IsPath(p, path) && Distinct(path)
      invariant path == [] ==> current == Some(start)
      invariant path != [] ==> path[0] == start && p[path[|path| - 1]] == current
      invariant forall x :: x in localIndex <==> x in path
      invariant forall x | x in localIndex :: localIndex[x] < |path| && path[localIndex[x]] == x
      invariant forall j | 0 <= j < |path| :: path[j] !in finished
      decreases p.Keys - localIndex.Keys
    {
      var x := current.value;
      assert path != [] ==> Step(p, path[|path| - 1]) == Some(x);
      assert x in p.Keys - localIndex.Keys;
      localIndex := localIndex[x := |path|];
      assert x !in p.Keys - localIndex.Keys;
      path := path + [x];
      current := p[x];
    }
    closing := if current.Some? && current.value in localIndex then localIndex[current.value] else |path|;
  }

  /**
   `_cycle_nodes`: walk from every start until a finished node, a node already on this walk, or
   the edge of the graph; a walk that meets itself has found a cycle. The source starts from the
   nodes in ascending order; any enumeration of them gives the same set. The ghost result lists
   every step of every walk: each node is walked exactly once.
   */
  method CycleNodes(p: Parents, order: seq<Id>) returns (cycles: set<Id>, ghost walked: seq<Id>)
    requires Elems(order) == p.Keys
    ensures forall x :: x in cycles <==> x in p && OnCycle(p, x)
    ensures Distinct(walked) && Elems(walked) == p.Keys
  {
    cycles := {};
    walked := [];
    var finished: set<Id> := {};
    var i := 0;
    while i < |order|
      invariant 0 <= i <= |order|
      invariant finished <= p.Keys && forall j | 0 <= j < i :: order[j] in finished
      invariant Closed(p, finished)
      invariant forall x :: x in cycles <==> x in finished && OnCycle(p, x)
      invariant Distinct(walked) && Elems(walked) == finished
    {
      var start := order[i];
      assert start in Elems(order);
      if start !in finished {
        var path, closing := WalkFrom(p, start, finished);
        PathCycles(p, path, finished, p[path[|path| - 1]], closing);
        CycleTail(p, path, closing);
        cycles := cycles + Elems(path[closing..]);
        AppendFresh(walked, path);
        walked := walked + path;
        finished := finished + Elems(path);
      }
      i := i + 1;
    }
    assert p.Keys <= finished;
  }

  lemma CycleTail(p: Parents, path: seq<Id>, closing: nat)
    requires closing <= |path| && Distinct(path)
    requires forall i | 0 <= i < |path| :: OnCycle(p, path[i]) <==> closing <= i
    ensures forall x :: x in Elems(path[closing..]) <==> x in Elems(path) && OnCycle(p, x)
  {
    forall x
      ensures x in Elems(path[closing..]) <==> x in Elems(path) && OnCycle(p, x)
    {
      if x in path {
        var i :| 0 <= i < |path| && path[i] == x;
        if closing <= i {
          assert path[closing..][i - closing] == x;
        }
      }
    }
  }

  lemma AppendFresh(s: seq<Id>, t: seq<Id>)
    requires Distinct(s) && Distinct(t) && forall j | 0 <= j < |t| :: t[j] !in Elems(s)
    ensures Distinct(s + t) && Elems(s + t) == Elems(s) + Elems(t)
  {
    forall x | x in Elems(s) + Elems(t)
      ensures x in s + t
    {
    }
  }
}
