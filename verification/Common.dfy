/** Small value types shared by every module, and the sorting of finite sets of identifiers. */
module Common {

  datatype Option<+T> = None | Some(value: T)

  datatype Result<+T, +E> = Ok(value: T) | Err(error: E)

  const MAX_SAFE_INTEGER: int := 0x1F_FFFF_FFFF_FFFF

  /** A bounded identifier of the protocol. Only equality and a total order matter. */
  type Id = nat

  /** A UTC instant in whole seconds. */
  type Time = int

  function Elems<T>(s: seq<T>): set<T> {
    set x | x in s
  }

  ghost predicate Distinct<T(!new)>(s: seq<T>) {
    forall i, j | 0 <= i < j < |s| :: s[i] != s[j]
  }

  ghost predicate Ascending(s: seq<Id>) {
    forall i, j | 0 <= i < j < |s| :: s[i] < s[j]
  }

  ghost predicate IsMinimum(m: Id, s: set<Id>) {
    m in s && forall x | x in s :: m <= x
  }

  lemma {:induction false} MinimumExists(s: set<Id>)
    requires s != {}
    ensures exists m :: IsMinimum(m, s)
    decreases |s|
  {
    var a :| a in s;
    var others := s - {a};
    var least := a;
    if others != {} {
      MinimumExists(others);
      var m :| IsMinimum(m, others);
      least := if a <= m then a else m;
    }
    forall x | x in s
      ensures least <= x
    {
      assert x == a || x in others;
    }
    assert IsMinimum(least, s);
  }

  function Minimum(s: set<Id>): (m: Id)
    requires s != {}
    ensures IsMinimum(m, s)
  {
    MinimumExists(s);
    var m :| m in s && forall x | x in s :: m <= x;
    m
  }

  /** `sorted(set)`: the ascending enumeration of a finite set of identifiers. */
  function Sorted(s: set<Id>): (r: seq<Id>)
    ensures Ascending(r) && |r| == |s|
    ensures forall x :: x in r <==> x in s
    decreases |s|
  {
    if s == {} then []
    else
      var m := Minimum(s);
      [m] + Sorted(s - {m})
  }
}
