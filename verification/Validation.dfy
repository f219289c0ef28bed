/** `validate_observation`: the three validators behind one report. */
module Validation {
  import opened Common
  import opened Model
  import opened Relation
  import Endpoint
  import Receipts

  function ExpectedKind(rep: Representation): PayloadKind {
    match rep
    case SL => SignedEndpointRecord
    case CR => CrossReferencedRecord
    case PR => ReceiptKind
  }

  predicate IsHandoffKind(k: PayloadKind) {
    k == SignedEndpointRecord || k == CrossReferencedRecord || k == ReceiptKind
  }

  ghost function InProfile(rep: Representation, ms: set<Message>): set<Message> {
    set m | m in ms && m.kind == ExpectedKind(rep)
  }

  /** Handoff evidence of another representation in the view: nothing may be emitted. */
  ghost predicate Mixed(rep: Representation, ms: set<Message>) {
    exists m :: m in ms && IsHandoffKind(m.kind) && m.kind != ExpectedKind(rep)
  }

  ghost function TaintedOf(rep: Representation, env: Environment, ms: set<Message>): set<Id> {
    if rep == PR then Receipts.TaintedIds(env, InProfile(rep, ms)) else Endpoint.TaintedIds(rep, env, InProfile(rep, ms))
  }

  ghost function CandidatesOf(rep: Representation, env: Environment, ms: set<Message>): Candidates {
    var tainted := TaintedOf(rep, env, ms);
    if rep == PR then Receipts.CandidatesFrom(Receipts.Records(env, InProfile(rep, ms)), tainted)
    else
      Endpoint.RecordsDecided(rep, env, InProfile(rep, ms));
      Endpoint.CandidatesFrom(rep, Endpoint.Records(rep, env, InProfile(rep, ms)), tainted)
  }

  ghost function SeenInteractions(rep: Representation, env: Environment, ms: set<Message>): set<Id> {
    if rep == PR then Receipts.Interactions(Receipts.Records(env, InProfile(rep, ms)))
    else Endpoint.Interactions(Endpoint.Records(rep, env, InProfile(rep, ms)))
  }

  ghost function InvalidOf(rep: Representation, env: Environment, ms: set<Message>): set<Id> {
    TaintedOf(rep, env, ms) + (SeenInteractions(rep, env, ms) - CandidatesOf(rep, env, ms).Keys)
  }

  /** Validation raises instead of reporting: a linked receipt that is no valid neutral handoff. */
  ghost predicate Raises(rep: Representation, env: Environment, ms: set<Message>) {
    rep == PR && !Receipts.AllValid(CandidatesOf(rep, env, ms))
  }

  ghost function EmittedIds(rep: Representation, env: Environment, ms: set<Message>): set<Id> {
    if Mixed(rep, ms) then {} else Emitted(CandidatesOf(rep, env, ms), InvalidOf(rep, env, ms), env.skew)
  }

  ghost function ViewsOf(rep: Representation, env: Environment, ms: set<Message>): set<PolicyView> {
    set i | i in EmittedIds(rep, env, ms) && i in CandidatesOf(rep, env, ms)
      :: ValidatedHandoff(rep, CandidatesOf(rep, env, ms)[i]).View()
  }

  ghost function AdmissionIssues(rep: Representation, env: Environment, ms: set<Message>): set<Issue> {
    if rep == PR then
      Receipts.MessageIssues(env, InProfile(rep, ms))
      + Receipts.GroupIssues(Receipts.Records(env, InProfile(rep, ms)), TaintedOf(rep, env, ms))
    else
      Endpoint.RecordsDecided(rep, env, InProfile(rep, ms));
      Endpoint.MessageIssues(rep, env, InProfile(rep, ms))
      + Endpoint.GroupIssues(rep, Endpoint.Records(rep, env, InProfile(rep, ms)), TaintedOf(rep, env, ms))
  }

  ghost function ViewIssues(rep: Representation, ms: set<Message>): set<Issue> {
    (if Mixed(rep, ms) then {Issue(PayloadKindMismatch, None)} else {})
    + (if InProfile(rep, ms) == {} then {Issue(EvidenceMissing, None)} else {})
  }

  ghost function IssuesOf(rep: Representation, env: Environment, ms: set<Message>): set<Issue> {
    ViewIssues(rep, ms) + AdmissionIssues(rep, env, ms)
    + (if Mixed(rep, ms) then {}
       else RelationIssues(CandidatesOf(rep, env, ms), InvalidOf(rep, env, ms), env.skew))
  }

  /** `_profile_messages`. */
  method ProfileMessages(messages: seq<Message>, rep: Representation) returns (selected: seq<Message>, mixed: bool)
    ensures Elems(selected) == InProfile(rep, Elems(messages))
    ensures mixed == Mixed(rep, Elems(messages))
  {
    selected, mixed := [], false;
    var k := 0;
    while k < |messages|
      invariant 0 <= k <= |messages|
      invariant forall m :: m in selected <==> m in messages[..k] && m.kind == ExpectedKind(rep)
      invariant mixed <==> exists m :: m in messages[..k] && IsHandoffKind(m.kind) && m.kind != ExpectedKind(rep)
    {
      var m := messages[k];
      assert messages[..k + 1] == messages[..k] + [m];
      if m.kind == ExpectedKind(rep) {
        selected := selected + [m];
      } else if IsHandoffKind(m.kind) {
        mixed := true;
      }
      k := k + 1;
    }
    assert messages[..k] == messages;
  }

  lemma CandidatesKeyed(rep: Representation, env: Environment, ms: set<Message>)
    ensures Keyed(CandidatesOf(rep, env, ms))
  {
    var tainted := TaintedOf(rep, env, ms);
    if rep == PR {
      Receipts.CandidatesKeyed(Receipts.Records(env, InProfile(rep, ms)), tainted);
    } else {
      Endpoint.RecordsDecided(rep, env, InProfile(rep, ms));
      Endpoint.CandidatesKeyed(rep, Endpoint.Records(rep, env, InProfile(rep, ms)), tainted);
    }
  }

  lemma EmissionGivesViews(rep: Representation, c: Candidates, ids: set<Id>, result: seq<ValidatedHandoff>)
    requires Keyed(c) && EmitsExactly(rep, c, ids, result) && ids <= c.Keys
    ensures (set v | v in result :: v.View()) == set i | i in ids && i in c :: ValidatedHandoff(rep, c[i]).View()
  {
    forall i | i in ids
      ensures ValidatedHandoff(rep, c[i]) in result
    {
    }
  }

  datatype Report = Report(handoffs: seq<ValidatedHandoff>, issues: set<Issue>)

  /** The report depends only on the set of distinct messages in view, or validation raises. */
  method ValidateObservation(messages: seq<Message>, rep: Representation, env: Environment)
    returns (report: Result<Report, Receipts.Raised>)
    ensures report.Err? <==> Raises(rep, env, Elems(messages))
    ensures report.Ok? ==> report.value.issues == IssuesOf(rep, env, Elems(messages))
    ensures report.Ok? ==> EmitsExactly(rep, CandidatesOf(rep, env, Elems(messages)),
                                        EmittedIds(rep, env, Elems(messages)), report.value.handoffs)
    ensures report.Ok? ==> (set v | v in report.value.handoffs :: v.View()) == ViewsOf(rep, env, Elems(messages))
  {
    ghost var ms := Elems(messages);
    var selected, mixed := ProfileMessages(messages, rep);
    var issues: set<Issue> := if mixed then {Issue(PayloadKindMismatch, None)} else {};
    if selected == [] {
      issues := issues + {Issue(EvidenceMissing, None)};
    }
    assert selected == [] <==> InProfile(rep, ms) == {} by {
      assert selected != [] ==> selected[0] in InProfile(rep, ms);
    }
    assert issues == ViewIssues(rep, ms);
    var candidates, invalid;
    if rep == PR {
      var checked := Receipts.ValidateReceiptMessages(selected, env, issues);
      if checked.Err? {
        return Err(checked.error);
      }
      candidates, invalid, issues := checked.value.0, checked.value.1, checked.value.2;
    } else {
      candidates, invalid, issues := Endpoint.ValidateEndpointMessages(selected, rep, env, issues);
    }
    assert candidates == CandidatesOf(rep, env, ms) && invalid == InvalidOf(rep, env, ms);
    CandidatesKeyed(rep, env, ms);
    var handoffs: seq<ValidatedHandoff> := [];
    if !mixed {
      handoffs, issues := EmitValidated(rep, candidates, invalid, env.skew, issues);
    }
    EmissionGivesViews(rep, candidates, EmittedIds(rep, env, ms), handoffs);
    return Ok(Report(handoffs, issues));
  }
}
