/** What ALLOW means: an exact condition stated without the gate's own loops, and its consequences. */
module GateLaws {
  import opened Common
  import opened Model
  import opened ChainWalk
  import opened Gate

  // ---------- the exact condition ----------

  /** The verifier, its stores and its tool are bound, and preparation found nothing wrong. */
  ghost predicate Admissible(cfg: Config, input: Input, a: Action, tool: Id) {
    && a.amount <= 9_007_199_254_740_991
    && cfg.permitStore == input.permitStore
    && input.verifier in cfg.verifiers
    && cfg.verifiers[input.verifier].evidenceStore == input.evidenceStore
    && cfg.verifiers[input.verifier].permitStore == input.permitStore
    && tool in cfg.verifiers[input.verifier].tools
    && input.reasons == {}
  }

  ghost predicate FullyAgreed(v: PolicyView) {
    v.senderAuthenticated && v.receiverAuthenticated && v.bilateral && v.decision == Accept && v.parentValid && v.conflictFree
  }

  /** At one place, and one place only, is there a view that intends this action, and it is `v`. */
  ghost predicate OnlyIntent(views: seq<PolicyView>, a: Action, v: PolicyView) {
    && v.handoff.event == ActionIntent && v.handoff.requestHash == ActionDigest(a)
    && exists n | 0 <= n < |views| ::
         views[n] == v
         && forall m | 0 <= m < |views| && m != n ::
              views[m].handoff.event != ActionIntent || views[m].handoff.requestHash != ActionDigest(a)
  }

  /**
   Delegations all the way from a parentless root down to the one handoff that intends this
   action; each names its parent, which no other view shares its interaction with.
   */
  ghost predicate DelegatedChain(views: seq<PolicyView>, a: Action, ch: seq<PolicyView>) {
    && |ch| >= 2 && OnlyIntent(views, a, ch[|ch| - 1])
    && ch[0].handoff.previous == None
    && (forall k | 0 <= k < |ch| - 1 :: ch[k].handoff.event == Delegation && AloneUnder(views, ch[k]))
    && (forall j, k | 0 <= j < |ch| && k == j + 1 < |ch| :: ch[k].handoff.previous == Some(ch[j].handoff.interaction))
  }

  ghost predicate OneAuthority(ch: seq<PolicyView>)
    requires ch != []
  {
    var root := ch[0].handoff;
    && root.lineage == Lineage(root.sender.principal, root.receiver.principal, root.receiver.key)
    && forall k | 0 <= k < |ch| :: ch[k].handoff.lineage == root.lineage && ch[k].handoff.version == root.version
  }

  /** Signed in time, in force at `t`, and handed on by the party it was handed to. */
  ghost predicate TimelyChain(skew: nat, t: Time, ch: seq<PolicyView>) {
    && (forall k | 0 <= k < |ch| ::
          && ch[k].handoff.createdAt <= ch[k].decidedAt <= t
          && ch[k].handoff.scope.notBefore <= t < ch[k].handoff.scope.notAfter)
    && (forall j, k | 0 <= j < |ch| && k == j + 1 < |ch| ::
          ch[j].handoff.receiver == ch[k].handoff.sender && ch[j].decidedAt <= ch[k].handoff.createdAt + skew)
  }

  /** Every descendant narrows every ancestor, not only its parent. */
  ghost predicate AttenuatedThroughout(ch: seq<PolicyView>) {
    forall j, k | 0 <= j < k < |ch| ::
      var ancestor, descendant := ch[j].handoff.scope, ch[k].handoff.scope;
      && descendant.operations <= ancestor.operations && descendant.resources <= ancestor.resources
      && descendant.currency == ancestor.currency && descendant.maxAmount <= ancestor.maxAmount
      && ancestor.notBefore <= descendant.notBefore && descendant.notAfter <= ancestor.notAfter
      && descendant.redelegations < ancestor.redelegations
  }

  /** Every scope of the chain covers the action, not only the leaf's. */
  ghost predicate CoveredThroughout(ch: seq<PolicyView>, a: Action) {
    forall k | 0 <= k < |ch| ::
      var scope := ch[k].handoff.scope;
      a.operation in scope.operations && a.resource in scope.resources
      && a.currency == scope.currency && a.amount <= scope.maxAmount
  }

  ghost predicate OfLineage(s: Status, l: Lineage) {
    s.issuer == l.issuer && s.subject == l.subject && s.subjectKey == l.subjectKey
  }

  /** The status of the lineage that stands above all its others. */
  ghost predicate Tops(statuses: set<Status>, l: Lineage, st: Status) {
    && st in statuses && OfLineage(st, l)
    && forall s | s in statuses && OfLineage(s, l) :: s == st || s.version < st.version
  }

  ghost predicate OnePerVersion(statuses: set<Status>, l: Lineage) {
    forall s, s' | s in statuses && s' in statuses && OfLineage(s, l) && OfLineage(s', l) && s.version == s'.version :: s == s'
  }

  /** The lineage's highest version: unopposed, active, fresh, and the one that every handoff was made under. */
  ghost predicate Governs(statuses: set<Status>, ch: seq<PolicyView>, t: Time, st: Status)
    requires ch != []
  {
    && Tops(statuses, ch[0].handoff.lineage, st) && OnePerVersion(statuses, ch[0].handoff.lineage)
    && st.version == ch[0].handoff.version && st.state == Active
    && st.issuedAt <= t < st.freshUntil
    && forall k | 0 <= k < |ch| :: ch[k].handoff.statusId == StatusDigest(st) && st.issuedAt <= ch[k].handoff.createdAt
  }

  ghost predicate Authorised(cfg: Config, input: Input, a: Action, tool: Id, ch: seq<PolicyView>, st: Status) {
    && Admissible(cfg, input, a, tool)
    && DelegatedChain(input.views, a, ch)
    && (forall k | 0 <= k < |ch| :: FullyAgreed(ch[k]))
    && OneAuthority(ch)
    && TimelyChain(cfg.skew, input.decisionTime, ch)
    && AttenuatedThroughout(ch)
    && CoveredThroughout(ch, a)
    && Governs(Elems(input.statuses), ch, input.decisionTime, st)
  }

  // ---------- each group of reasons is empty exactly when its condition holds ----------

  lemma {:induction false} NoPolicyReasons(ch: seq<PolicyView>, n: nat)
    requires n <= |ch|
    ensures UpToPolicy(ch, n) == {} <==> forall k | 0 <= k < n :: FullyAgreed(ch[k])
    decreases n
  {
    if n > 0 {
      NoPolicyReasons(ch, n - 1);
    }
  }

  lemma {:induction false} NoPositionReasons(skew: nat, t: Time, ch: seq<PolicyView>, n: nat)
    requires n <= |ch|
    ensures UpToPosition(skew, t, ch, n) == {} <==> forall k | 0 <= k < n :: PositionReasons(skew, t, ch, k) == {}
    decreases n
  {
    if n > 0 {
      NoPositionReasons(skew, t, ch, n - 1);
    }
  }

  lemma PositionMeaning(skew: nat, t: Time, ch: seq<PolicyView>, k: nat)
    requires k < |ch|
    ensures PositionReasons(skew, t, ch, k) == {} <==>
            && ch[k].handoff.createdAt <= ch[k].decidedAt <= t
            && ch[k].handoff.scope.notBefore <= t < ch[k].handoff.scope.notAfter
            && (k > 0 ==>
                  && ch[k - 1].handoff.receiver == ch[k].handoff.sender
                  && ch[k - 1].decidedAt <= ch[k].handoff.createdAt + skew
                  && Attenuated(ch[k - 1].handoff.scope, ch[k].handoff.scope))
  {
  }

  lemma TimelyMeaning(skew: nat, t: Time, ch: seq<PolicyView>)
    ensures (forall k | 0 <= k < |ch| :: PositionReasons(skew, t, ch, k) == {})
            <==> TimelyChain(skew, t, ch)
                 && forall j, k | 0 <= j < |ch| && k == j + 1 < |ch| :: Attenuated(ch[j].handoff.scope, ch[k].handoff.scope)
  {
    if forall k | 0 <= k < |ch| :: PositionReasons(skew, t, ch, k) == {} {
      forall k | 0 <= k < |ch|
        ensures PositionReasons(skew, t, ch, k) == {}
        ensures ch[k].handoff.createdAt <= ch[k].decidedAt <= t
        ensures ch[k].handoff.scope.notBefore <= t < ch[k].handoff.scope.notAfter
      {
        PositionMeaning(skew, t, ch, k);
      }
      forall j, k | 0 <= j < |ch| && k == j + 1 < |ch|
        ensures ch[j].handoff.receiver == ch[k].handoff.sender && ch[j].decidedAt <= ch[k].handoff.createdAt + skew
        ensures Attenuated(ch[j].handoff.scope, ch[k].handoff.scope)
      {
        PositionMeaning(skew, t, ch, k);
      }
    } else {
      var k :| 0 <= k < |ch| && PositionReasons(skew, t, ch, k) != {};
      PositionMeaning(skew, t, ch, k);
      if k > 0 {
        var j := k - 1;
        assert !(ch[j].handoff.receiver == ch[k].handoff.sender && ch[j].decidedAt <= ch[k].handoff.createdAt + skew
                 && Attenuated(ch[j].handoff.scope, ch[k].handoff.scope))
               || !(ch[k].handoff.createdAt <= ch[k].decidedAt <= t
                    && ch[k].handoff.scope.notBefore <= t < ch[k].handoff.scope.notAfter);
      }
    }
  }

  lemma {:induction false} AttenuationComposes(ch: seq<PolicyView>, j: nat, k: nat)
    requires j < k < |ch|
    requires forall i, i' | 0 <= i < |ch| && i' == i + 1 < |ch| :: Attenuated(ch[i].handoff.scope, ch[i'].handoff.scope)
    ensures Attenuated(ch[j].handoff.scope, ch[k].handoff.scope)
    decreases k
  {
    assert Attenuated(ch[k - 1].handoff.scope, ch[k].handoff.scope);
    if j < k - 1 {
      AttenuationComposes(ch, j, k - 1);
    }
  }

  lemma LinksAttenuateThroughout(ch: seq<PolicyView>)
    ensures AttenuatedThroughout(ch) <==>
            forall i, i' | 0 <= i < |ch| && i' == i + 1 < |ch| :: Attenuated(ch[i].handoff.scope, ch[i'].handoff.scope)
  {
    if forall i, i' | 0 <= i < |ch| && i' == i + 1 < |ch| :: Attenuated(ch[i].handoff.scope, ch[i'].handoff.scope) {
      forall j, k | 0 <= j < k < |ch|
        ensures Attenuated(ch[j].handoff.scope, ch[k].handoff.scope)
      {
        AttenuationComposes(ch, j, k);
      }
    }
  }

  /** Under attenuation, being within every scope of the chain is being within the leaf's. */
  lemma WithinLeafIsWithinAll(ch: seq<PolicyView>, a: Action)
    requires ch != [] && AttenuatedThroughout(ch)
    ensures CoveredThroughout(ch, a) <==>
            var leaf := ch[|ch| - 1].handoff.scope;
            a.operation in leaf.operations && a.resource in leaf.resources && a.currency == leaf.currency && a.amount <= leaf.maxAmount
  {
  }

  /** The gate's own test at one position is the four comparisons. */
  lemma RequestMeaning(ch: seq<PolicyView>, a: Action)
    requires ch != []
    ensures RequestReasons(ch, a) == {} <==>
            ch[|ch| - 1].handoff.requestHash == ActionDigest(a) && CoveredThroughout(ch, a)
  {
    if exists k :: 0 <= k < |ch| && !Within(a, ch[k].handoff.scope) {
      assert ActionOutOfScope in RequestReasons(ch, a);
    } else {
      forall k | 0 <= k < |ch|
        ensures Within(a, ch[k].handoff.scope)
      {
      }
    }
  }

  lemma ShapeMeaning(ch: seq<PolicyView>)
    requires ch != [] && ch[0].handoff.previous == None
    ensures ShapeReasons(ch) == {} <==>
            && (forall k | 0 <= k < |ch| - 1 :: ch[k].handoff.event == Delegation)
            && |ch| >= 2 && ch[|ch| - 1].handoff.event == ActionIntent
  {
  }

  lemma AuthorityMeaning(ch: seq<PolicyView>)
    requires ch != []
    ensures AuthorityReasons(ch) == {} <==> OneAuthority(ch)
  {
  }

  lemma ChainMeaning(cfg: Config, input: Input, a: Action, ch: seq<PolicyView>)
    requires LinearIn(input.views, ch) && IsLeaf(ch[|ch| - 1], a)
    ensures ChainReasons(cfg.skew, input.decisionTime, a, ch) == {} <==>
            && (forall k | 0 <= k < |ch| - 1 :: ch[k].handoff.event == Delegation) && |ch| >= 2
            && (forall k | 0 <= k < |ch| :: FullyAgreed(ch[k]))
            && OneAuthority(ch) && TimelyChain(cfg.skew, input.decisionTime, ch)
            && AttenuatedThroughout(ch) && CoveredThroughout(ch, a)
  {
    NoPolicyReasons(ch, |ch|);
    ShapeMeaning(ch);
    AuthorityMeaning(ch);
    NoPositionReasons(cfg.skew, input.decisionTime, ch, |ch|);
    TimelyMeaning(cfg.skew, input.decisionTime, ch);
    LinksAttenuateThroughout(ch);
    RequestMeaning(ch, a);
  }

  lemma ControlMeaning(st: Status, ch: seq<PolicyView>, t: Time)
    requires ch != []
    ensures ControlReasons(st, ch, t) == {} <==>
            && st.version == ch[0].handoff.version && st.state == Active && st.issuedAt <= t < st.freshUntil
            && forall k | 0 <= k < |ch| :: ch[k].handoff.statusId == StatusDigest(st) && st.issuedAt <= ch[k].handoff.createdAt
  {
  }

  lemma ControllingIsTop(rel: set<Status>, st: Status)
    ensures Controlling(rel) == Some(st) <==> st in rel && forall s | s in rel :: s == st || s.version < st.version
  {
    if st in rel && forall s | s in rel :: s == st || s.version < st.version {
      HighestUnique(rel, st.version, Highest(rel));
      assert AtVersion(rel, st.version) == {st};
    }
    if Controlling(rel) == Some(st) {
      forall s | s in rel
        ensures s == st || s.version < st.version
      {
        if s.version == st.version { assert s in AtVersion(rel, st.version); }
      }
      assert st in AtVersion(rel, st.version);
    }
  }

  lemma StatusMeaning(statuses: set<Status>, ch: seq<PolicyView>, t: Time, st: Status)
    requires ch != []
    ensures var rel := Relevant(statuses, ch[0].handoff.lineage);
            Controlling(rel) == Some(st) && StatusReasons(rel, ch, t) == {} <==> Governs(statuses, ch, t, st)
  {
    var rel := Relevant(statuses, ch[0].handoff.lineage);
    ControllingIsTop(rel, st);
    ControlMeaning(st, ch, t);
  }

  lemma ContestedTopConflicts(rel: set<Status>)
    requires rel != {} && Controlling(rel) == None
    ensures Conflicting(rel)
  {
    var top := AtVersion(rel, Highest(rel));
    var s :| s in rel && s.version == Highest(rel);
    assert s in top && |top - {s}| == |top| - 1;
    var s' :| s' in top - {s};
    assert s in rel && s' in rel;
  }

  /** A scan that raises nothing has found its controlling status: the gate never pauses without a reason. */
  lemma SilentScanControls(rel: set<Status>, ch: seq<PolicyView>, t: Time)
    requires ch != [] && StatusReasons(rel, ch, t) == {}
    ensures Controlling(rel).Some?
  {
    if Controlling(rel) == None {
      ContestedTopConflicts(rel);
      assert false;
    }
  }

  // ---------- the chain, from the views alone ----------

  ghost predicate IntendsIt(a: Action, v: PolicyView) {
    v.handoff.event == ActionIntent && v.handoff.requestHash == ActionDigest(a)
  }

  lemma NoLeaves(views: seq<PolicyView>, a: Action)
    ensures Leaves(views, a) == [] <==> forall m | 0 <= m < |views| :: !IntendsIt(a, views[m])
  {
    if m :| 0 <= m < |views| && IntendsIt(a, views[m]) {
      assert views[m] in Leaves(views, a);
    }
    if Leaves(views, a) != [] {
      assert Leaves(views, a)[0] in Leaves(views, a);
    }
  }

  lemma OnlyIntentOfMore(views: seq<PolicyView>, last: PolicyView, a: Action, v: PolicyView)
    ensures OnlyIntent(views + [last], a, v) <==>
            if IntendsIt(a, last) then last == v && forall m | 0 <= m < |views| :: !IntendsIt(a, views[m])
            else OnlyIntent(views, a, v)
  {
    var all, count := views + [last], |views|;
    assert all[count] == last && forall m | 0 <= m < count :: all[m] == views[m];
    if OnlyIntent(all, a, v) {
      var n :| 0 <= n <= count && all[n] == v && forall m | 0 <= m <= count && m != n :: !IntendsIt(a, all[m]);
      assert forall m | 0 <= m < count && m != n :: !IntendsIt(a, views[m]) by {
        assert forall m | 0 <= m < count && m != n :: !IntendsIt(a, all[m]);
      }
      assert n < count ==> views[n] == v && !IntendsIt(a, last);
    }
    if n :| 0 <= n < count && views[n] == v && IntendsIt(a, v)
            && forall m | 0 <= m < count && m != n :: !IntendsIt(a, views[m]) {
      assert all[n] == v;
    }
  }

  /** The search finds one leaf exactly if one place holds an intent of the action. */
  lemma {:induction false} OneLeaf(views: seq<PolicyView>, a: Action, v: PolicyView)
    ensures Leaves(views, a) == [v] <==> OnlyIntent(views, a, v)
  {
    if views != [] {
      var n := |views| - 1;
      var init, last := views[..n], views[n];
      assert views == init + [last];
      OneLeaf(init, a, v);
      NoLeaves(init, a);
      OnlyIntentOfMore(init, last, a, v);
    }
  }

  /** What the filing and the search for leaves make of a delegated chain. */
  lemma DelegatedMeaning(views: seq<PolicyView>, a: Action, ch: seq<PolicyView>)
    ensures DelegatedChain(views, a, ch) <==>
            && LinearIn(views, ch) && Leaves(views, a) == [ch[|ch| - 1]]
            && (forall k | 0 <= k < |ch| - 1 :: ch[k].handoff.event == Delegation) && |ch| >= 2
  {
    if |ch| >= 2 {
      OneLeaf(views, a, ch[|ch| - 1]);
      forall k | 0 <= k < |ch|
        ensures Filed(views, ch[k].handoff.interaction) == [ch[k]] <==> AloneUnder(views, ch[k])
      {
        FiledOnce(views, ch[k]);
      }
      if LinearIn(views, ch) {
        LinkedAreAlone(views, ch);
      }
      if DelegatedChain(views, a, ch) {
        AloneAreLinked(views, ch);
      }
    }
  }

  lemma ChainIsInView(views: seq<PolicyView>, a: Action, ch: seq<PolicyView>)
    requires DelegatedChain(views, a, ch)
    ensures forall k | 0 <= k < |ch| :: ch[k] in views
  {
    forall k | 0 <= k < |ch| - 1
      ensures ch[k] in views
    {
      assert AloneUnder(views, ch[k]);
    }
  }

  lemma LinkedAreAlone(views: seq<PolicyView>, ch: seq<PolicyView>)
    requires LinearIn(views, ch)
    requires forall k | 0 <= k < |ch| :: Filed(views, ch[k].handoff.interaction) == [ch[k]] <==> AloneUnder(views, ch[k])
    ensures forall k | 0 <= k < |ch| - 1 :: AloneUnder(views, ch[k])
    ensures forall j, k | 0 <= j < |ch| && k == j + 1 < |ch| :: ch[k].handoff.previous == Some(ch[j].handoff.interaction)
  {
    forall k | 0 <= k < |ch| - 1
      ensures AloneUnder(views, ch[k])
    {
      assert Linked(views, ch[k], ch[k + 1]);
    }
    forall j, k | 0 <= j < |ch| && k == j + 1 < |ch|
      ensures ch[k].handoff.previous == Some(ch[j].handoff.interaction)
    {
      assert Linked(views, ch[j], ch[k]);
    }
  }

  lemma AloneAreLinked(views: seq<PolicyView>, ch: seq<PolicyView>)
    requires ch != [] && ch[|ch| - 1] in views && ch[0].handoff.previous == None
    requires forall k | 0 <= k < |ch| - 1 :: AloneUnder(views, ch[k])
    requires forall j, k | 0 <= j < |ch| && k == j + 1 < |ch| :: ch[k].handoff.previous == Some(ch[j].handoff.interaction)
    requires forall k | 0 <= k < |ch| :: Filed(views, ch[k].handoff.interaction) == [ch[k]] <==> AloneUnder(views, ch[k])
    ensures LinearIn(views, ch)
  {
    forall k | 0 <= k < |ch|
      ensures ch[k] in views
    {
      if k < |ch| - 1 {
        assert AloneUnder(views, ch[k]);
      }
    }
    forall j, k | 0 <= j < |ch| && k == j + 1 < |ch|
      ensures Linked(views, ch[j], ch[k])
    {
      assert AloneUnder(views, ch[j]);
    }
  }

  // ---------- the verdict ----------

  lemma EarlyMeaning(cfg: Config, input: Input, a: Action, tool: Id)
    ensures EarlyReasons(cfg, input, a, tool) == {} <==> Admissible(cfg, input, a, tool)
  {
    if p :| p in input.reasons {
      assert Prepared(p) in Inherited(input.reasons);
    }
  }

  /** Every expiry the gate can compute on an authorised chain is in the future, so its own EXPIRED branch is dead. */
  lemma ExpiryAhead(cfg: Config, input: Input, a: Action, tool: Id, ch: seq<PolicyView>, st: Status)
    requires cfg.Valid() && Authorised(cfg, input, a, tool, ch, st)
    ensures Expiry(cfg.ttl, input.decisionTime, st, ch) > input.decisionTime
  {
  }

  lemma AuthorisedAllows(cfg: Config, input: Input, a: Action, tool: Id, ch: seq<PolicyView>, st: Status)
    requires cfg.Valid() && Authorised(cfg, input, a, tool, ch, st)
    ensures Verdict(cfg, input, a, tool) == Allow(GrantFor(cfg.ttl, input.decisionTime, st, ch))
  {
    EarlyMeaning(cfg, input, a, tool);
    DelegatedMeaning(input.views, a, ch);
    var leaf := ch[|ch| - 1];
    assert leaf in Leaves(input.views, a);
    WalkFindsTheChain(input.views, leaf, ch);
    ChainMeaning(cfg, input, a, ch);
    StatusMeaning(Elems(input.statuses), ch, input.decisionTime, st);
    ExpiryAhead(cfg, input, a, tool, ch, st);
  }

  /** The chain the gate assembles when it gets that far. */
  ghost function GateChain(input: Input, a: Action): (ch: seq<PolicyView>)
    requires |Leaves(input.views, a)| == 1
  {
    var leaf := Leaves(input.views, a)[0];
    assert leaf in Leaves(input.views, a);
    Reverse(WalkUp(input.views, leaf, {}).0)
  }

  /** The four ways a verdict comes about. */
  lemma VerdictCases(cfg: Config, input: Input, a: Action, tool: Id)
    ensures var early, leaves := EarlyReasons(cfg, input, a, tool), Leaves(input.views, a);
            if early != {} then Verdict(cfg, input, a, tool) == Pause(early)
            else if leaves == [] then Verdict(cfg, input, a, tool) == Pause({LeafMissing})
            else if |leaves| != 1 then Verdict(cfg, input, a, tool) == Pause({LeafAmbiguous})
            else
              && leaves[0] in input.views
              && var (up, end) := WalkUp(input.views, leaves[0], {});
                 if end != AtRoot then Verdict(cfg, input, a, tool) == Pause(EndReasons(end))
                 else up != [] && Verdict(cfg, input, a, tool)
                                  == ChainVerdict(cfg, input.decisionTime, Elems(input.statuses), a, Reverse(up))
  {
    var leaves := Leaves(input.views, a);
    if |leaves| == 1 {
      assert leaves[0] in leaves;
      if WalkUp(input.views, leaves[0], {}).1 == AtRoot {
        WalkIsLinear(input.views, leaves[0], {});
      }
    }
  }

  /** An ALLOW got past the early tests, found one leaf, and walked up to a root. */
  lemma AllowReachesRoot(cfg: Config, input: Input, a: Action, tool: Id) returns (leaf: PolicyView)
    requires Verdict(cfg, input, a, tool).Allow?
    ensures EarlyReasons(cfg, input, a, tool) == {} && Leaves(input.views, a) == [leaf] && leaf in input.views
    ensures var (up, end) := WalkUp(input.views, leaf, {});
      && end == AtRoot && up != []
      && Verdict(cfg, input, a, tool) == ChainVerdict(cfg, input.decisionTime, Elems(input.statuses), a, Reverse(up))
  {
    VerdictCases(cfg, input, a, tool);
    leaf := Leaves(input.views, a)[0];
  }

  lemma AllowComesFromChain(cfg: Config, input: Input, a: Action, tool: Id)
    requires Verdict(cfg, input, a, tool).Allow?
    ensures Admissible(cfg, input, a, tool) && |Leaves(input.views, a)| == 1
    ensures var ch := GateChain(input, a);
            && LinearIn(input.views, ch) && Leaves(input.views, a) == [ch[|ch| - 1]]
            && Verdict(cfg, input, a, tool) == ChainVerdict(cfg, input.decisionTime, Elems(input.statuses), a, ch)
  {
    EarlyMeaning(cfg, input, a, tool);
    var leaf := AllowReachesRoot(cfg, input, a, tool);
    WalkIsLinear(input.views, leaf, {});
  }

  lemma ChainVerdictAllows(cfg: Config, t: Time, statuses: set<Status>, a: Action, ch: seq<PolicyView>)
    requires ch != [] && ChainVerdict(cfg, t, statuses, a, ch).Allow?
    ensures var rel := Relevant(statuses, ch[0].handoff.lineage);
            && ChainReasons(cfg.skew, t, a, ch) == {} && StatusReasons(rel, ch, t) == {} && Controlling(rel).Some?
            && ChainVerdict(cfg, t, statuses, a, ch) == Allow(GrantFor(cfg.ttl, t, Controlling(rel).value, ch))
  {
  }

  /** A chain that is not allowed pauses for its own faults, for the dead EXPIRED branch, or not at all silently. */
  lemma ChainVerdictPauses(cfg: Config, t: Time, statuses: set<Status>, a: Action, ch: seq<PolicyView>)
    requires ch != [] && ChainVerdict(cfg, t, statuses, a, ch).Pause?
    ensures var reasons := ChainVerdict(cfg, t, statuses, a, ch).reasons;
            || reasons == {Expired}
            || reasons == ChainReasons(cfg.skew, t, a, ch) + StatusReasons(Relevant(statuses, ch[0].handoff.lineage), ch, t)
  {
    var rel := Relevant(statuses, ch[0].handoff.lineage);
    if StatusReasons(rel, ch, t) == {} {
      SilentScanControls(rel, ch, t);
    }
  }

  lemma FaultlessChainAuthorised(cfg: Config, input: Input, a: Action, tool: Id, ch: seq<PolicyView>, st: Status)
    requires Admissible(cfg, input, a, tool)
    requires LinearIn(input.views, ch) && Leaves(input.views, a) == [ch[|ch| - 1]]
    requires ChainReasons(cfg.skew, input.decisionTime, a, ch) == {}
    requires Governs(Elems(input.statuses), ch, input.decisionTime, st)
    ensures Authorised(cfg, input, a, tool, ch, st)
  {
    assert ch[|ch| - 1] in Leaves(input.views, a);
    ChainMeaning(cfg, input, a, ch);
    DelegatedMeaning(input.views, a, ch);
  }

  lemma AllowedChainAuthorised(cfg: Config, input: Input, a: Action, tool: Id, ch: seq<PolicyView>) returns (st: Status)
    requires Admissible(cfg, input, a, tool)
    requires LinearIn(input.views, ch) && Leaves(input.views, a) == [ch[|ch| - 1]]
    requires ChainVerdict(cfg, input.decisionTime, Elems(input.statuses), a, ch).Allow?
    ensures Authorised(cfg, input, a, tool, ch, st)
    ensures ChainVerdict(cfg, input.decisionTime, Elems(input.statuses), a, ch)
            == Allow(GrantFor(cfg.ttl, input.decisionTime, st, ch))
  {
    ChainVerdictAllows(cfg, input.decisionTime, Elems(input.statuses), a, ch);
    st := Controlling(Relevant(Elems(input.statuses), ch[0].handoff.lineage)).value;
    StatusMeaning(Elems(input.statuses), ch, input.decisionTime, st);
    FaultlessChainAuthorised(cfg, input, a, tool, ch, st);
  }

  lemma AllowAuthorised(cfg: Config, input: Input, a: Action, tool: Id) returns (ch: seq<PolicyView>, st: Status)
    requires Verdict(cfg, input, a, tool).Allow?
    ensures Authorised(cfg, input, a, tool, ch, st)
    ensures Verdict(cfg, input, a, tool) == Allow(GrantFor(cfg.ttl, input.decisionTime, st, ch))
  {
    AllowComesFromChain(cfg, input, a, tool);
    ch := GateChain(input, a);
    st := AllowedChainAuthorised(cfg, input, a, tool, ch);
  }

  /** ALLOW is given exactly when some chain and some status satisfy the declarative condition. */
  lemma AllowIffAuthorised(cfg: Config, input: Input, a: Action, tool: Id)
    requires cfg.Valid()
    ensures Verdict(cfg, input, a, tool).Allow? <==> exists ch, st :: Authorised(cfg, input, a, tool, ch, st)
  {
    if Verdict(cfg, input, a, tool).Allow? {
      var ch, st := AllowAuthorised(cfg, input, a, tool);
    }
    if ch, st :| Authorised(cfg, input, a, tool, ch, st) {
      AuthorisedAllows(cfg, input, a, tool, ch, st);
    }
  }

  /**
   A pause on a complete chain always names a fault of the chain or of its statuses: it is never
   the bare internal error, and never the gate's own "expiry already past" branch.
   */
  lemma EveryPauseHasCause(cfg: Config, input: Input, a: Action, tool: Id, ch: seq<PolicyView>)
    requires cfg.Valid() && Admissible(cfg, input, a, tool)
    requires LinearIn(input.views, ch) && Leaves(input.views, a) == [ch[|ch| - 1]]
    requires Verdict(cfg, input, a, tool).Pause?
    ensures var faults := ChainReasons(cfg.skew, input.decisionTime, a, ch)
                          + StatusReasons(Relevant(Elems(input.statuses), ch[0].handoff.lineage), ch, input.decisionTime);
            Verdict(cfg, input, a, tool).reasons == faults && faults != {}
  {
    EarlyMeaning(cfg, input, a, tool);
    var leaf, statuses, t := ch[|ch| - 1], Elems(input.statuses), input.decisionTime;
    WalkFindsTheChain(input.views, leaf, ch);
    var rel := Relevant(statuses, ch[0].handoff.lineage);
    if ChainReasons(cfg.skew, t, a, ch) == {} && StatusReasons(rel, ch, t) == {} {
      SilentScanControls(rel, ch, t);
      StatusMeaning(statuses, ch, t, Controlling(rel).value);
      FaultlessChainAuthorised(cfg, input, a, tool, ch, Controlling(rel).value);
      AuthorisedAllows(cfg, input, a, tool, ch, Controlling(rel).value);
      assert false;
    }
  }
}
