/** Consequences of ALLOW: bounded delegation, one controlling expiry, deny-overriding authority. */
module AllowConsequences {
  import opened Common
  import opened Model
  import opened ChainWalk
  import opened Gate
  import opened GateLaws

  // ---------- delegation depth and expiry ----------

  lemma {:induction false} RedelegationsSpent(ch: seq<PolicyView>, k: nat)
    requires AttenuatedThroughout(ch) && k < |ch|
    ensures ch[k].handoff.scope.redelegations + k <= ch[0].handoff.scope.redelegations
    decreases k
  {
    if k > 0 {
      RedelegationsSpent(ch, k - 1);
      assert ch[k].handoff.scope.redelegations < ch[k - 1].handoff.scope.redelegations;
    }
  }

  /** An allowed chain is no longer than its root permits, which is 33 handoffs at the very most. */
  lemma DelegationIsBounded(cfg: Config, input: Input, a: Action, tool: Id, ch: seq<PolicyView>, st: Status)
    requires Authorised(cfg, input, a, tool, ch, st)
    ensures |ch| <= ch[0].handoff.scope.redelegations + 1
    ensures ch[0].handoff.Valid() ==> |ch| <= 33
  {
    RedelegationsSpent(ch, |ch| - 1);
  }

  lemma LeafExpiresFirst(ch: seq<PolicyView>)
    requires ch != [] && AttenuatedThroughout(ch)
    ensures MinNotAfter(ch) == ch[|ch| - 1].handoff.scope.notAfter
  {
    var n := |ch| - 1;
    var k :| 0 <= k < |ch| && MinNotAfter(ch) == ch[k].handoff.scope.notAfter;
    if k < n {
      assert ch[n].handoff.scope.notAfter <= ch[k].handoff.scope.notAfter;
    }
  }

  /** The permit lives until the lifetime, the status or the leaf's scope runs out, whichever is first. */
  lemma ExpiryIsLeafBound(cfg: Config, input: Input, a: Action, tool: Id, ch: seq<PolicyView>, st: Status)
    requires Authorised(cfg, input, a, tool, ch, st)
    ensures var e := Expiry(cfg.ttl, input.decisionTime, st, ch);
            && e <= input.decisionTime + cfg.ttl && e <= st.freshUntil && e <= ch[|ch| - 1].handoff.scope.notAfter
            && (e == input.decisionTime + cfg.ttl || e == st.freshUntil || e == ch[|ch| - 1].handoff.scope.notAfter)
  {
    LeafExpiresFirst(ch);
  }

  // ---------- authority is deny-overriding ----------

  /** The same input with other statuses delivered. */
  function WithStatuses(input: Input, statuses: seq<Status>): Input {
    input.(statuses := statuses)
  }

  /** The order and repetition of status messages never matter. */
  lemma StatusOrderIrrelevant(cfg: Config, input: Input, a: Action, tool: Id, statuses: seq<Status>)
    requires Elems(statuses) == Elems(input.statuses)
    ensures Verdict(cfg, WithStatuses(input, statuses), a, tool) == Verdict(cfg, input, a, tool)
  {
    assert EarlyReasons(cfg, WithStatuses(input, statuses), a, tool) == EarlyReasons(cfg, input, a, tool);
  }

  lemma GovernsFewer(statuses: set<Status>, fewer: set<Status>, ch: seq<PolicyView>, t: Time, st: Status)
    requires ch != [] && Governs(statuses, ch, t, st) && fewer <= statuses && st in fewer
    ensures Governs(fewer, ch, t, st)
  {
  }

  /** The status an ALLOW names in its grant. */
  ghost predicate ControlledBy(cfg: Config, input: Input, a: Action, tool: Id, control: Status) {
    Verdict(cfg, input, a, tool).Allow? && Verdict(cfg, input, a, tool).grant.status == StatusDigest(control)
  }

  /** Withholding any statuses but the controlling one leaves an ALLOW exactly as it was. */
  lemma RemovingOthersKeepsAllow(cfg: Config, input: Input, a: Action, tool: Id, control: Status, statuses: seq<Status>)
    requires cfg.Valid() && ControlledBy(cfg, input, a, tool, control)
    requires Elems(statuses) <= Elems(input.statuses) && control in statuses
    ensures Verdict(cfg, WithStatuses(input, statuses), a, tool) == Verdict(cfg, input, a, tool)
  {
    var ch, st := AllowAuthorised(cfg, input, a, tool);
    GovernsFewer(Elems(input.statuses), Elems(statuses), ch, input.decisionTime, st);
    var input' := WithStatuses(input, statuses);
    assert Admissible(cfg, input', a, tool) && DelegatedChain(input'.views, a, ch);
    assert Authorised(cfg, input', a, tool, ch, st);
    AuthorisedAllows(cfg, input', a, tool, ch, st);
  }

  lemma GoverningHasNoRival(statuses: set<Status>, ch: seq<PolicyView>, t: Time, st: Status, control: Status, rival: Status)
    requires ch != [] && Governs(statuses, ch, t, st) && control in statuses && rival in statuses
    requires OfLineage(control, ch[0].handoff.lineage) && OfLineage(rival, ch[0].handoff.lineage)
    requires control.version == ch[0].handoff.version && rival.version >= control.version
    ensures rival == control
  {
  }

  /** If more statuses are still authorised, none of them rivals the controlling one. */
  lemma StillAuthorised(cfg: Config, input: Input, a: Action, tool: Id, statuses: seq<Status>,
                        ch: seq<PolicyView>, st: Status, ch': seq<PolicyView>, st': Status, rival: Status)
    requires Authorised(cfg, input, a, tool, ch, st)
    requires Authorised(cfg, WithStatuses(input, statuses), a, tool, ch', st')
    requires Elems(input.statuses) <= Elems(statuses) && rival in statuses
    requires OfLineage(rival, ch[0].handoff.lineage) && rival.version >= st.version
    ensures rival == st
  {
    SameChain(input.views, a, ch, ch');
    assert st in Elems(input.statuses) && rival in Elems(statuses);
    GoverningHasNoRival(Elems(statuses), ch, input.decisionTime, st', st, rival);
  }

  /** Delivering one more status of the same or a higher version in the lineage turns an ALLOW into a PAUSE. */
  lemma RivalForcesPause(cfg: Config, input: Input, a: Action, tool: Id, control: Status, statuses: seq<Status>, rival: Status)
    requires cfg.Valid() && ControlledBy(cfg, input, a, tool, control)
    requires Elems(input.statuses) <= Elems(statuses) && rival in statuses
    requires rival != control && OfLineage(rival, Lineage(control.issuer, control.subject, control.subjectKey))
    requires rival.version >= control.version
    ensures !Verdict(cfg, WithStatuses(input, statuses), a, tool).Allow?
  {
    var ch, st := AllowAuthorised(cfg, input, a, tool);
    if Verdict(cfg, WithStatuses(input, statuses), a, tool).Allow? {
      var ch', st' := AllowAuthorised(cfg, WithStatuses(input, statuses), a, tool);
      StillAuthorised(cfg, input, a, tool, statuses, ch, st, ch', st', rival);
      assert false;
    }
  }

  /** The statuses of the lineage that an ALLOW saw: one per version, the highest alone in control and active. */
  lemma AllowedAuthority(cfg: Config, input: Input, a: Action, tool: Id)
    requires Verdict(cfg, input, a, tool).Allow?
    ensures exists st, ch ::
              && Authorised(cfg, input, a, tool, ch, st)
              && StatusDigest(st) == Verdict(cfg, input, a, tool).grant.status
              && OnePerVersion(Elems(input.statuses), Lineage(st.issuer, st.subject, st.subjectKey))
  {
    var ch, st := AllowAuthorised(cfg, input, a, tool);
  }

  /** There is only one delegated chain for an action in a set of views. */
  lemma SameChain(views: seq<PolicyView>, a: Action, ch: seq<PolicyView>, ch': seq<PolicyView>)
    requires DelegatedChain(views, a, ch) && DelegatedChain(views, a, ch')
    ensures ch == ch'
  {
    DelegatedMeaning(views, a, ch);
    DelegatedMeaning(views, a, ch');
    var leaf := ch[|ch| - 1];
    assert [leaf][0] == [ch'[|ch'| - 1]][0];
    WalkFindsTheChain(views, leaf, ch);
    WalkFindsTheChain(views, leaf, ch');
  }

  // ---------- the order of the evidence does not matter ----------

  lemma FiledForgetsOrder(views: seq<PolicyView>, views': seq<PolicyView>, i: Id)
    requires OnePerInteraction(views) && OnePerInteraction(views') && Elems(views) == Elems(views')
    ensures Filed(views, i) == Filed(views', i)
  {
    if k :| 0 <= k < |views| && views[k].handoff.interaction == i {
      assert views[k] in Elems(views);
      FiledAlone(views, views[k]);
      FiledAlone(views', views[k]);
    } else {
      forall k | 0 <= k < |views'|
        ensures views'[k].handoff.interaction != i
      {
        assert views'[k] in Elems(views);
      }
      FiledNowhere(views, i);
      FiledNowhere(views', i);
    }
  }

  lemma {:induction false} WalkForgetsOrder(
    views: seq<PolicyView>, views': seq<PolicyView>, current: PolicyView, visited: set<Id>)
    requires OnePerInteraction(views) && OnePerInteraction(views') && Elems(views) == Elems(views')
    requires current in views && current in views'
    ensures WalkUp(views, current, visited) == WalkUp(views', current, visited)
    decreases Ids(views) - visited
  {
    var i := current.handoff.interaction;
    if i !in visited && current.handoff.previous.Some? {
      var parents := Filed(views, current.handoff.previous.value);
      FiledForgetsOrder(views, views', current.handoff.previous.value);
      if |parents| == 1 {
        assert parents[0] in parents;
        assert parents[0] in views && parents[0] in views';
        WalkForgetsOrder(views, views', parents[0], visited + {i});
      }
    }
  }

  lemma SameLeaf(views: seq<PolicyView>, views': seq<PolicyView>, a: Action, v: PolicyView)
    requires Elems(views) == Elems(views')
    ensures v in Leaves(views, a) <==> v in Leaves(views', a)
  {
    assert v in Elems(views) <==> v in Elems(views');
  }

  /** Distinct views that are all the same one are one view. */
  lemma OnlyOne(s: seq<PolicyView>, v: PolicyView)
    requires OnePerInteraction(s) && v in s && forall k | 0 <= k < |s| :: s[k] == v
    ensures s == [v]
  {
    assert |s| > 1 ==> s[0].handoff.interaction != s[1].handoff.interaction;
  }

  lemma NoLeafForgetsOrder(views: seq<PolicyView>, views': seq<PolicyView>, a: Action)
    requires Elems(views) == Elems(views') && Leaves(views, a) == []
    ensures Leaves(views', a) == []
  {
    var leaves' := Leaves(views', a);
    if leaves' != [] {
      var v := leaves'[0];
      assert v in leaves';
      SameLeaf(views, views', a, v);
      assert false;
    }
  }

  /** A single leaf is the single leaf of any arrangement. */
  lemma LeafForgetsOrder(views: seq<PolicyView>, views': seq<PolicyView>, a: Action, leaf: PolicyView)
    requires OnePerInteraction(views') && Elems(views) == Elems(views') && Leaves(views, a) == [leaf]
    ensures Leaves(views', a) == [leaf]
  {
    var leaves' := Leaves(views', a);
    assert leaf in [leaf];
    SameLeaf(views, views', a, leaf);
    LeavesAreDistinct(views', ActionDigest(a));
    forall k | 0 <= k < |leaves'|
      ensures leaves'[k] == leaf
    {
      assert leaves'[k] in leaves';
      SameLeaf(views, views', a, leaves'[k]);
    }
    OnlyOne(leaves', leaf);
  }

  lemma LeavesForgetOrder(views: seq<PolicyView>, views': seq<PolicyView>, a: Action)
    requires OnePerInteraction(views) && OnePerInteraction(views') && Elems(views) == Elems(views')
    ensures Leaves(views, a) == [] <==> Leaves(views', a) == []
    ensures |Leaves(views, a)| == 1 <==> |Leaves(views', a)| == 1
    ensures |Leaves(views, a)| == 1 ==> Leaves(views', a) == Leaves(views, a)
  {
    var leaves, leaves' := Leaves(views, a), Leaves(views', a);
    if leaves == [] {
      NoLeafForgetsOrder(views, views', a);
    } else if leaves' == [] {
      NoLeafForgetsOrder(views', views, a);
    }
    if |leaves| == 1 {
      assert leaves == [leaves[0]];
      LeafForgetsOrder(views, views', a, leaves[0]);
    } else if |leaves'| == 1 {
      assert leaves' == [leaves'[0]];
      LeafForgetsOrder(views', views, a, leaves'[0]);
    }
  }

  /** The order of the views never matters, as long as no interaction has two. */
  lemma ViewOrderIrrelevant(cfg: Config, input: Input, a: Action, tool: Id, views: seq<PolicyView>)
    requires OnePerInteraction(input.views) && OnePerInteraction(views) && Elems(views) == Elems(input.views)
    ensures Verdict(cfg, input.(views := views), a, tool) == Verdict(cfg, input, a, tool)
  {
    assert EarlyReasons(cfg, input.(views := views), a, tool) == EarlyReasons(cfg, input, a, tool);
    LeavesForgetOrder(input.views, views, a);
    var leaves := Leaves(input.views, a);
    if |leaves| == 1 {
      assert leaves[0] in leaves && leaves[0] in Leaves(views, a);
      WalkForgetsOrder(input.views, views, leaves[0], {});
    }
  }

  /** The verdict does not look at the permit store. */
  lemma RevisionIrrelevant(cfg: Config, input: Input, a: Action, tool: Id, revision: nat)
    ensures Verdict(cfg, input.(revision := revision), a, tool) == Verdict(cfg, input, a, tool)
  {
    assert EarlyReasons(cfg, input.(revision := revision), a, tool) == EarlyReasons(cfg, input, a, tool);
  }

  /** The same instant, stores, views, statuses and preparation reasons. */
  ghost predicate SameFacts(input: Input, input': Input) {
    && OnePerInteraction(input.views) && OnePerInteraction(input'.views) && Elems(input.views) == Elems(input'.views)
    && Elems(input.statuses) == Elems(input'.statuses)
    && input' == input.(views := input'.views, statuses := input'.statuses, revision := input'.revision)
  }

  /** Inputs with the same facts lead to one verdict, however the facts are arranged. */
  lemma SameFactsSameVerdict(cfg: Config, input: Input, input': Input, a: Action, tool: Id)
    requires SameFacts(input, input')
    ensures Verdict(cfg, input, a, tool) == Verdict(cfg, input', a, tool)
  {
    var rearranged := input.(views := input'.views);
    ViewOrderIrrelevant(cfg, input, a, tool, input'.views);
    StatusOrderIrrelevant(cfg, rearranged, a, tool, input'.statuses);
    assert WithStatuses(rearranged, input'.statuses) == input'.(revision := input.revision);
    RevisionIrrelevant(cfg, input', a, tool, input.revision);
  }
}
