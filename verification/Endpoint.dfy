/**
 Validation of endpoint records (SL and CR): what one message establishes, what a set of
 admitted records establishes about each interaction, and the loops that compute it.
 */
module Endpoint {
  import opened Common
  import opened Model
  import opened Sequence
  import opened Relation

  datatype Outcome = Refused(issue: Issue) | OutOfProfile(interaction: Id) | Admitted(record: EndpointRecord)

  predicate ProfileOk(rep: Representation, body: EndpointBody) {
    if rep == CR && body.role == Receiver then body.senderRecord.Some? else body.senderRecord == None
  }

  /** The checks on one message, in the source's order. A profile violation counts only once authenticated. */
  function Judge(rep: Representation, env: Environment, m: Message): Outcome {
    if !m.payload.EndpointPayload? || !m.payload.record.WellFormed() then Refused(Issue(MalformedEvidence, None))
    else
      var r := m.payload.record;
      var body := r.body;
      var i := body.handoff.interaction;
      match env.ReceiptKey(body.holder)
      case None => Refused(Issue(UnknownSigner, Some(i)))
      case Some(key) =>
        if r.signature != EndpointSignature(key, body) then Refused(Issue(SignatureInvalid, Some(i)))
        else if !env.StoreBound(m.origin, body.holder.principal, body.role) then Refused(Issue(StoreBindingInvalid, Some(i)))
        else if !ProfileOk(rep, body) then OutOfProfile(i)
        else if ExceedsWithSkew(body.handoff.createdAt, m.sentAt, env.skew) then Refused(Issue(TemporalInconsistency, Some(i)))
        else if body.role == Receiver && ExceedsWithSkew(body.decidedAt.value, m.sentAt, env.skew)
        then Refused(Issue(TemporalInconsistency, Some(i)))
        else if body.role == Receiver && ExceedsWithSkew(body.decidedAt.value, env.cutoff, env.skew)
        then Refused(Issue(FutureDecision, Some(i)))
        else Admitted(r)
  }

  // ---------- what a set of messages establishes ----------

  ghost function Records(rep: Representation, env: Environment, ms: set<Message>): set<EndpointRecord> {
    set m | m in ms && Judge(rep, env, m).Admitted? :: Judge(rep, env, m).record
  }

  ghost function TaintedIds(rep: Representation, env: Environment, ms: set<Message>): set<Id> {
    set m | m in ms && Judge(rep, env, m).OutOfProfile? :: Judge(rep, env, m).interaction
  }

  ghost function Refusals(rep: Representation, env: Environment, ms: set<Message>): set<Issue> {
    set m | m in ms && Judge(rep, env, m).Refused? :: Judge(rep, env, m).issue
  }

  ghost function MessageIssues(rep: Representation, env: Environment, ms: set<Message>): set<Issue> {
    Refusals(rep, env, ms) + set i | i in TaintedIds(rep, env, ms) :: Issue(ProfileViolation, Some(i))
  }

  function InteractionOf(r: EndpointRecord): Id {
    r.body.handoff.interaction
  }

  function Interactions(rs: set<EndpointRecord>): set<Id> {
    set r | r in rs :: InteractionOf(r)
  }

  function HeldBy(rs: set<EndpointRecord>, role: Role, i: Id): set<EndpointRecord> {
    set r | r in rs && r.body.role == role && InteractionOf(r) == i
  }

  function Claims(rs: set<EndpointRecord>): set<Claim> {
    set r | r in rs && r.body.role == Sender :: (r.body.handoff.SenderSlot(), InteractionOf(r))
  }

  /** What one sender and one receiver record of an interaction yield together. */
  function PairUp(rep: Representation, sender: EndpointRecord, receiver: EndpointRecord): Result<Candidate, Option<IssueCode>>
    requires receiver.body.decision.Some? && receiver.body.decidedAt.Some?
  {
    if sender.body.handoff != receiver.body.handoff then Err(Some(EndpointMismatch))
    else if rep == CR && receiver.body.senderRecord != Some(sender.RecordId()) then Err(Some(CrossReferenceInvalid))
    else Ok(Candidate(sender.body.handoff, receiver.body.decision.value, receiver.body.decidedAt.value))
  }

  ghost function The<T>(s: set<T>): (x: T)
    requires |s| == 1
    ensures s == {x}
  {
    var x :| x in s;
    Singleton(s, x);
    x
  }

  ghost predicate AllDecided(rs: set<EndpointRecord>) {
    forall r | r in rs && r.body.role == Receiver :: r.body.decision.Some? && r.body.decidedAt.Some?
  }

  /** The verdict on an interaction with no profile violation; `Err(None)` raises no issue of its own. */
  ghost function Resolve(rep: Representation, rs: set<EndpointRecord>, i: Id): Result<Candidate, Option<IssueCode>>
    requires AllDecided(rs)
  {
    var senders, receivers := HeldBy(rs, Sender, i), HeldBy(rs, Receiver, i);
    if |senders| > 1 || |receivers| > 1 then Err(Some(Equivocation))
    else if |senders| != 1 || |receivers| != 1 then Err(Some(EndpointMissing))
    else if i in Conflicts(Claims(rs)) then Err(None)
    else
      assert The(receivers) in receivers;
      PairUp(rep, The(senders), The(receivers))
  }

  lemma RecordsDecided(rep: Representation, env: Environment, ms: set<Message>)
    ensures AllDecided(Records(rep, env, ms))
  {
  }

  ghost function CandidatesFrom(rep: Representation, rs: set<EndpointRecord>, tainted: set<Id>): Candidates
    requires AllDecided(rs)
  {
    map i | i in Interactions(rs) && i !in tainted && Resolve(rep, rs, i).Ok? :: Resolve(rep, rs, i).value
  }

  ghost function GroupIssues(rep: Representation, rs: set<EndpointRecord>, tainted: set<Id>): set<Issue>
    requires AllDecided(rs)
  {
    (set i | i in Conflicts(Claims(rs)) :: Issue(Equivocation, Some(i)))
    + (set i | i in Interactions(rs) && i !in tainted && Resolve(rep, rs, i).Err? && Resolve(rep, rs, i).error.Some?
         :: Issue(Resolve(rep, rs, i).error.value, Some(i)))
  }

  lemma OneMoreRecord(rep: Representation, env: Environment, ms: set<Message>, m: Message)
    ensures Records(rep, env, ms + {m}) ==
            Records(rep, env, ms) + match Judge(rep, env, m) case Admitted(r) => {r} case _ => {}
  {
    var more := ms + {m};
    assert forall x :: x in more <==> x in ms || x == m;
  }

  lemma OneMoreTaint(rep: Representation, env: Environment, ms: set<Message>, m: Message)
    ensures TaintedIds(rep, env, ms + {m}) ==
            TaintedIds(rep, env, ms) + match Judge(rep, env, m) case OutOfProfile(i) => {i} case _ => {}
  {
    var more := ms + {m};
    assert forall x :: x in more <==> x in ms || x == m;
  }

  lemma OneMoreRefusal(rep: Representation, env: Environment, ms: set<Message>, m: Message)
    ensures Refusals(rep, env, ms + {m}) ==
            Refusals(rep, env, ms) + match Judge(rep, env, m) case Refused(issue) => {issue} case _ => {}
  {
    var more := ms + {m};
    assert forall x :: x in more <==> x in ms || x == m;
  }

  lemma OneMoreMessage(rep: Representation, env: Environment, ms: set<Message>, m: Message)
    ensures Records(rep, env, ms + {m}) ==
            Records(rep, env, ms) + match Judge(rep, env, m) case Admitted(r) => {r} case _ => {}
    ensures TaintedIds(rep, env, ms + {m}) ==
            TaintedIds(rep, env, ms) + match Judge(rep, env, m) case OutOfProfile(i) => {i} case _ => {}
    ensures MessageIssues(rep, env, ms + {m}) ==
            MessageIssues(rep, env, ms) + match Judge(rep, env, m)
                                          case Refused(issue) => {issue}
                                          case OutOfProfile(i) => {Issue(ProfileViolation, Some(i))}
                                          case _ => {}
  {
    OneMoreRecord(rep, env, ms, m);
    OneMoreTaint(rep, env, ms, m);
    OneMoreRefusal(rep, env, ms, m);
  }

  /** The same for the messages before and after the next one of a sequence. */
  lemma NextMessage(rep: Representation, env: Environment, messages: seq<Message>, k: nat)
    requires k < |messages|
    ensures var ms, more := Elems(messages[..k]), Elems(messages[..k + 1]);
      && Records(rep, env, more) ==
         Records(rep, env, ms) + (match Judge(rep, env, messages[k]) case Admitted(r) => {r} case _ => {})
      && TaintedIds(rep, env, more) ==
         TaintedIds(rep, env, ms) + (match Judge(rep, env, messages[k]) case OutOfProfile(i) => {i} case _ => {})
      && MessageIssues(rep, env, more) ==
         MessageIssues(rep, env, ms) + (match Judge(rep, env, messages[k])
                                        case Refused(issue) => {issue}
                                        case OutOfProfile(i) => {Issue(ProfileViolation, Some(i))}
                                        case _ => {})
  {
    assert messages[..k + 1] == messages[..k] + [messages[k]];
    assert Elems(messages[..k + 1]) == Elems(messages[..k]) + {messages[k]};
    OneMoreMessage(rep, env, Elems(messages[..k]), messages[k]);
  }

  // ---------- the loops ----------

  method Collect(messages: seq<Message>, rep: Representation, env: Environment, issues: set<Issue>)
    returns (aggregates: set<EndpointRecord>, tainted: set<Id>, issues': set<Issue>)
    ensures aggregates == Records(rep, env, Elems(messages))
    ensures tainted == TaintedIds(rep, env, Elems(messages))
    ensures issues' == issues + MessageIssues(rep, env, Elems(messages))
  {
    aggregates, tainted, issues' := {}, {}, issues;
    var k := 0;
    while k < |messages|
      invariant 0 <= k <= |messages|
      invariant aggregates == Records(rep, env, Elems(messages[..k]))
      invariant tainted == TaintedIds(rep, env, Elems(messages[..k]))
      invariant issues' == issues + MessageIssues(rep, env, Elems(messages[..k]))
      decreases |messages| - k
    {
      NextMessage(rep, env, messages, k);
      match Judge(rep, env, messages[k]) {
        case Refused(issue) => issues' := issues' + {issue};
        case OutOfProfile(i) =>
          tainted := tainted + {i};
          issues' := issues' + {Issue(ProfileViolation, Some(i))};
        case Admitted(r) => aggregates := aggregates + {r};
      }
      k := k + 1;
    }
    assert messages[..k] == messages;
  }

  /** The verdict on one interaction's records. */
  method Select(rep: Representation, rs: set<EndpointRecord>, conflicts: set<Id>, i: Id)
    returns (r: Result<Candidate, Option<IssueCode>>)
    requires AllDecided(rs) && conflicts == Conflicts(Claims(rs))
    ensures r == Resolve(rep, rs, i)
  {
    var senders, receivers := HeldBy(rs, Sender, i), HeldBy(rs, Receiver, i);
    if |senders| > 1 || |receivers| > 1 {
      return Err(Some(Equivocation));
    }
    if |senders| != 1 || |receivers| != 1 {
      return Err(Some(EndpointMissing));
    }
    if i in conflicts {
      return Err(None);
    }
    var sender :| sender in senders;
    var receiver :| receiver in receivers;
    r := PairUp(rep, sender, receiver);
  }

  /** The verdicts along a given order of interactions. */
  ghost function SelectAlong(rep: Representation, rs: set<EndpointRecord>, tainted: set<Id>, order: seq<Id>)
    : (r: (Candidates, set<Issue>))
    requires AllDecided(rs)
  {
    if order == [] then (map[], {})
    else
      var i := order[|order| - 1];
      var (candidates, issues) := SelectAlong(rep, rs, tainted, order[..|order| - 1]);
      if i in tainted then (candidates, issues)
      else match Resolve(rep, rs, i)
        case Ok(candidate) => (candidates[i := candidate], issues)
        case Err(None) => (candidates, issues)
        case Err(Some(code)) => (candidates, issues + {Issue(code, Some(i))})
  }

  lemma {:induction false} SelectAlongAt(
    rep: Representation, rs: set<EndpointRecord>, tainted: set<Id>, order: seq<Id>, i: Id)
    requires AllDecided(rs)
    ensures var c := SelectAlong(rep, rs, tainted, order).0;
            && (i in c <==> i in order && i !in tainted && Resolve(rep, rs, i).Ok?)
            && (i in c ==> Ok(c[i]) == Resolve(rep, rs, i))
  {
    if order != [] {
      var n := |order| - 1;
      assert order == order[..n] + [order[n]];
      SelectAlongAt(rep, rs, tainted, order[..n], i);
    }
  }

  lemma SelectAlongCandidates(rep: Representation, rs: set<EndpointRecord>, tainted: set<Id>, order: seq<Id>)
    requires AllDecided(rs)
    ensures var c := SelectAlong(rep, rs, tainted, order).0;
            && (forall i :: i in c <==> i in order && i !in tainted && Resolve(rep, rs, i).Ok?)
            && (forall i | i in c :: Ok(c[i]) == Resolve(rep, rs, i))
  {
    forall i: Id
      ensures var c := SelectAlong(rep, rs, tainted, order).0;
        && (i in c <==> i in order && i !in tainted && Resolve(rep, rs, i).Ok?)
        && (i in c ==> Ok(c[i]) == Resolve(rep, rs, i))
    {
      SelectAlongAt(rep, rs, tainted, order, i);
    }
  }

  lemma {:induction false} SelectAlongIssues(rep: Representation, rs: set<EndpointRecord>, tainted: set<Id>, order: seq<Id>)
    requires AllDecided(rs)
    ensures forall e :: e in SelectAlong(rep, rs, tainted, order).1 <==>
              && e.interaction.Some? && e.interaction.value in order && e.interaction.value !in tainted
              && Resolve(rep, rs, e.interaction.value) == Err(Some(e.code))
  {
    if order != [] {
      var n := |order| - 1;
      assert order == order[..n] + [order[n]];
      SelectAlongIssues(rep, rs, tainted, order[..n]);
    }
  }

  method SelectLoop(rep: Representation, rs: set<EndpointRecord>, tainted: set<Id>, conflicts: set<Id>,
                    order: seq<Id>, issues: set<Issue>)
    returns (candidates: Candidates, invalid: set<Id>, issues': set<Issue>)
    requires AllDecided(rs) && conflicts == Conflicts(Claims(rs)) && Ascending(order)
    ensures candidates == SelectAlong(rep, rs, tainted, order).0
    ensures issues' == issues + SelectAlong(rep, rs, tainted, order).1
    ensures tainted <= invalid && forall x | x in invalid && x !in tainted :: x in order && x !in candidates
  {
    candidates, invalid, issues' := map[], tainted, issues;
    var k := 0;
    while k < |order|
      invariant 0 <= k <= |order|
      invariant candidates == SelectAlong(rep, rs, tainted, order[..k]).0
      invariant issues' == issues + SelectAlong(rep, rs, tainted, order[..k]).1
      invariant tainted <= invalid
      invariant forall x | x in candidates :: x in order[..k]
      invariant forall x | x in invalid && x !in tainted :: x in order[..k] && x !in candidates
      decreases |order| - k
    {
      var i := order[k];
      assert order[..k + 1][..k] == order[..k];
      assert i !in order[..k];
      assert forall x :: x in order[..k + 1] <==> x in order[..k] || x == i by {
        assert order[..k + 1] == order[..k] + [i];
      }
      if i !in tainted {
        var verdict := Select(rep, rs, conflicts, i);
        match verdict
        case Ok(candidate) => candidates := candidates[i := candidate];
        case Err(code) =>
          invalid := invalid + {i};
          if code.Some? {
            issues' := issues' + {Issue(code.value, Some(i))};
          }
      }
      k := k + 1;
    }
    assert order[..k] == order;
  }

  function Equivocations(conflicts: set<Id>): set<Issue> {
    set i | i in conflicts :: Issue(Equivocation, Some(i))
  }

  lemma Selected(rep: Representation, rs: set<EndpointRecord>, tainted: set<Id>, order: seq<Id>)
    requires AllDecided(rs) && forall x :: x in order <==> x in Interactions(rs)
    ensures SelectAlong(rep, rs, tainted, order).0 == CandidatesFrom(rep, rs, tainted)
    ensures Equivocations(Conflicts(Claims(rs))) + SelectAlong(rep, rs, tainted, order).1 == GroupIssues(rep, rs, tainted)
  {
    SelectAlongCandidates(rep, rs, tainted, order);
    SelectAlongIssues(rep, rs, tainted, order);
  }

  lemma InvalidAssembled(tainted: set<Id>, invalid: set<Id>, grouped: set<Id>, kept: set<Id>)
    requires tainted <= invalid && forall x | x in invalid && x !in tainted :: x in grouped && x !in kept
    ensures invalid + (grouped - kept) == tainted + (grouped - kept)
  {
  }

  lemma IssuesAssembled(a: set<Issue>, b: set<Issue>, c: set<Issue>)
    ensures (a + b) + c == a + (b + c)
  {
  }

  /** Everything after the per-message checks. */
  method ResolveRecords(rep: Representation, rs: set<EndpointRecord>, tainted: set<Id>, issues: set<Issue>)
    returns (candidates: Candidates, invalid: set<Id>, issues': set<Issue>)
    requires AllDecided(rs)
    ensures candidates == CandidatesFrom(rep, rs, tainted)
    ensures invalid == tainted + (Interactions(rs) - candidates.Keys)
    ensures issues' == issues + GroupIssues(rep, rs, tainted)
  {
    var conflicts := FindConflicts(Claims(rs));
    var grouped := Interactions(rs);
    var order := Sorted(grouped);
    candidates, invalid, issues' := SelectLoop(rep, rs, tainted, conflicts, order, issues + Equivocations(conflicts));
    Selected(rep, rs, tainted, order);
    InvalidAssembled(tainted, invalid, grouped, candidates.Keys);
    IssuesAssembled(issues, Equivocations(conflicts), SelectAlong(rep, rs, tainted, order).1);
    invalid := invalid + (grouped - candidates.Keys);
  }

  /** `_validate_endpoint_messages`. */
  method ValidateEndpointMessages(messages: seq<Message>, rep: Representation, env: Environment, issues: set<Issue>)
    returns (candidates: Candidates, invalid: set<Id>, issues': set<Issue>)
    ensures var rs, tainted := Records(rep, env, Elems(messages)), TaintedIds(rep, env, Elems(messages));
            && AllDecided(rs)
            && candidates == CandidatesFrom(rep, rs, tainted)
            && invalid == tainted + (Interactions(rs) - candidates.Keys)
            && issues' == issues + MessageIssues(rep, env, Elems(messages)) + GroupIssues(rep, rs, tainted)
  {
    RecordsDecided(rep, env, Elems(messages));
    var aggregates, tainted;
    aggregates, tainted, issues' := Collect(messages, rep, env, issues);
    candidates, invalid, issues' := ResolveRecords(rep, aggregates, tainted, issues');
  }

  lemma CandidatesKeyed(rep: Representation, rs: set<EndpointRecord>, tainted: set<Id>)
    requires AllDecided(rs)
    ensures Keyed(CandidatesFrom(rep, rs, tainted))
  {
    forall i | i in CandidatesFrom(rep, rs, tainted)
      ensures CandidatesFrom(rep, rs, tainted)[i].handoff.interaction == i
    {
      assert The(HeldBy(rs, Sender, i)) in HeldBy(rs, Sender, i);
    }
  }
}
