/** Sender-sequence equivocation: one (principal, key, sequence) claimed by several interactions. */
module Sequence {
  import opened Common
  import opened Model

  /** A sender's claim that a sequence number belongs to an interaction. */
  type Claim = (SequenceKey, Id)

  ghost predicate Contested(claims: set<Claim>, interaction: Id) {
    exists k: SequenceKey, other: Id :: (k, interaction) in claims && (k, other) in claims && other != interaction
  }

  /** The interactions whose sequence number is also claimed for another interaction. */
  ghost function Conflicts(claims: set<Claim>): set<Id> {
    set c | c in claims && Contested(claims, c.1) :: c.1
  }

  ghost predicate GroupsOf(groups: map<SequenceKey, set<Id>>, claims: set<Claim>) {
    && (forall c | c in claims :: c.0 in groups && c.1 in groups[c.0])
    && (forall k, i | k in groups && i in groups[k] :: (k, i) in claims)
  }

  method GroupBySequence(claims: set<Claim>) returns (groups: map<SequenceKey, set<Id>>)
    ensures GroupsOf(groups, claims)
  {
    groups := map[];
    var todo := claims;
    while todo != {}
      invariant todo <= claims && GroupsOf(groups, claims - todo)
    {
      var claim :| claim in todo;
      var (key, interaction) := claim;
      groups := groups[key := (if key in groups then groups[key] else {}) + {interaction}];
      todo := todo - {claim};
    }
    assert claims - todo == claims;
  }

  /** The scan of `sequence_groups`: every group with more than one interaction is in conflict. */
  method FindConflicts(claims: set<Claim>) returns (conflicts: set<Id>)
    ensures conflicts == Conflicts(claims)
  {
    var groups := GroupBySequence(claims);
    conflicts := {};
    var keys := groups.Keys;
    while keys != {}
      invariant keys <= groups.Keys
      invariant forall i :: i in conflicts <==> exists k :: k in groups && k !in keys && i in groups[k] && |groups[k]| > 1
    {
      var key :| key in keys;
      if |groups[key]| > 1 {
        conflicts := conflicts + groups[key];
      }
      keys := keys - {key};
    }
    forall i
      ensures i in conflicts <==> i in Conflicts(claims)
    {
      if i in conflicts {
        var k :| k in groups && i in groups[k] && |groups[k]| > 1;
        var other := AnotherMember(groups[k], i);
        assert (k, i) in claims && (k, other) in claims;
      }
      if i in Conflicts(claims) {
        var k, other :| (k, i) in claims && (k, other) in claims && other != i;
        assert (k, i).0 in groups && (k, other).1 in groups[k];
        TwoMembers(groups[k], i, other);
      }
    }
  }

  lemma SharedSlotConflicts(claims: set<Claim>, a: Claim, b: Claim)
    requires a in claims && b in claims && a.1 != b.1
    ensures a.0 == b.0 ==> a.1 in Conflicts(claims)
  {
    if a.0 == b.0 {
      assert Contested(claims, a.1) by { assert (a.0, b.1) == b; }
    }
  }

  lemma AnotherMember<T>(s: set<T>, x: T) returns (y: T)
    requires x in s && |s| > 1
    ensures y in s && y != x
  {
    assert |s - {x}| > 0;
    y :| y in s - {x};
  }

  lemma TwoMembers<T>(s: set<T>, x: T, y: T)
    requires x in s && y in s && x != y
    ensures |s| > 1
  {
    assert |s - {x}| > 0 by { assert y in s - {x}; }
  }

  lemma Singleton<T>(s: set<T>, x: T)
    requires x in s && |s| == 1
    ensures s == {x}
  {
    forall y | y in s
      ensures y == x
    {
      if y != x { TwoMembers(s, x, y); }
    }
  }
}
