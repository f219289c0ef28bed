/**
 The three encodings of one trace of handoffs, and the theorem that validating any of them,
 however copied and reordered in delivery, gives the same policy views and the same issues.
 */
module Encoding {
  import opened Common
  import opened Model
  import opened ParentGraph
  import opened Relation
  import opened Validation
  import opened Sequence
  import opened Admission
  import Endpoint
  import Receipts

  /** One handoff with the receiver's answer to it. */
  datatype Signing = Signing(handoff: Handoff, decision: Decision, reason: Option<Id>, decidedAt: Time)

  type Trace = map<Id, Signing>

  function CandidatesOfTrace(t: Trace): Candidates {
    map i | i in t :: Candidate(t[i].handoff, t[i].decision, t[i].decidedAt)
  }

  function ParentsIn(t: Trace): Parents {
    ParentsOf(CandidatesOfTrace(t))
  }

  ghost predicate ParentKnown(t: Trace, i: Id)
    requires i in t
  {
    t[i].handoff.previous.Some? ==> t[i].handoff.previous.value in t
  }

  /** A finite forest of valid handoffs, with their own sequence numbers and registered keys. */
  ghost predicate Wellformed(t: Trace, env: Environment) {
    && (forall i | i in t ::
          && t[i].handoff.interaction == i && t[i].handoff.Valid()
          && t[i].decidedAt >= t[i].handoff.createdAt
          && (t[i].decision == Accept <==> t[i].reason == None)
          && env.ReceiptKey(t[i].handoff.sender).Some? && env.ReceiptKey(t[i].handoff.receiver).Some?)
    && (forall i, j | i in t && j in t && i != j :: t[i].handoff.SenderSlot() != t[j].handoff.SenderSlot())
    && (forall i {:trigger ParentKnown(t, i)} | i in t :: ParentKnown(t, i))
    && (forall i {:trigger OnCycle(ParentsIn(t), i)} | i in t :: !OnCycle(ParentsIn(t), i))
  }

  // ---------- the encoders ----------

  function KeyOf(env: Environment, party: Party): nat {
    match env.ReceiptKey(party) case Some(k) => k case None => 0
  }

  /** `sign_endpoint_record` for the sender. */
  function SenderRecord(env: Environment, s: Signing): EndpointRecord {
    var body := EndpointBody(Sender, s.handoff.sender, s.handoff, None, None, None, None);
    EndpointRecord(body, EndpointSignature(KeyOf(env, s.handoff.sender), body))
  }

  /** `sign_endpoint_record` for the receiver; in CR it names the sender's record. */
  function ReceiverRecord(rep: Representation, env: Environment, s: Signing): EndpointRecord {
    var bound := if rep == CR then Some(SenderRecord(env, s).RecordId()) else None;
    var body := EndpointBody(Receiver, s.handoff.receiver, s.handoff, bound, Some(s.decision), s.reason, Some(s.decidedAt));
    EndpointRecord(body, EndpointSignature(KeyOf(env, s.handoff.receiver), body))
  }

  /** `encode_receipt_handoff`: the semantic parent becomes the digest of the parent's complete receipt. */
  function EncodeReceiptHandoff(env: Environment, s: Signing, parent: Option<Receipt>): Result<Receipt, Receipts.Raised> {
    var h := s.handoff;
    if h.previous == None && parent.Some? then Err(Receipts.EvidenceError)
    else if h.previous.Some? && parent == None then Err(Receipts.EvidenceError)
    else if parent.Some? && (!parent.value.WellFormed() || parent.value.proposal.nonce != parent.value.proposal.interaction
                             || parent.value.proposal.interaction != h.previous.value)
    then Err(Receipts.EvidenceError)
    else
      var reference := match parent case None => None case Some(r) => Some(r.ReceiptId());
      var p := Proposal(h.interaction, h.event, h.createdAt, h.interaction, h.sender, h.receiver, h.sequence,
                        reference, h.scope, h.lineage, h.version, h.statusId, h.requestHash);
      var first := ProposalSignature(KeyOf(env, h.sender), p);
      var second := CompletionSignature(KeyOf(env, h.receiver), p, first, s.decision, s.reason, s.decidedAt);
      var receipt := Receipt(p, first, first, s.decision, s.reason, s.decidedAt, second);
      if receipt.WellFormed() then Ok(receipt) else Err(Receipts.EvidenceError)
  }

  /** Encoding fails on a parent that should not or should be there, that is no receipt or not the one named, and on what no receipt can say. */
  lemma EncodingFails(env: Environment, s: Signing, parent: Option<Receipt>)
    ensures EncodeReceiptHandoff(env, s, parent).Err? <==>
            || (s.handoff.previous == None <==> parent.Some?)
            || (parent.Some? && (!ReceiptParses(parent.value) || parent.value.proposal.nonce != parent.value.proposal.interaction
                                 || Some(parent.value.proposal.interaction) != s.handoff.previous))
            || s.handoff.sequence > 9_007_199_254_740_991
            || s.handoff.version < 1 || s.handoff.version > 9_007_199_254_740_991
            || !ScopeParses(s.handoff.scope)
            || s.decidedAt < s.handoff.createdAt
            || (s.decision == Accept <==> s.reason.Some?)
  {
    if parent.Some? {
      FormsOfReceipts(parent.value);
    }
  }

  type Receiptbook = map<Id, Receipt>

  /** Every interaction's receipt was encoded from its handoff and its parent's receipt. */
  ghost predicate EncodedAs(env: Environment, t: Trace, book: Receiptbook) {
    && book.Keys == t.Keys
    && forall i {:trigger EncodedFrom(env, t[i], book, book[i])} | i in t :: EncodedFrom(env, t[i], book, book[i])
  }

  ghost predicate EncodedFrom(env: Environment, s: Signing, book: Receiptbook, r: Receipt) {
    match s.handoff.previous
    case None => EncodeReceiptHandoff(env, s, None) == Ok(r)
    case Some(j) => j in book && EncodeReceiptHandoff(env, s, Some(book[j])) == Ok(r)
  }

  /** What an encoded receipt says, field by field. */
  lemma EncodedReceipt(env: Environment, s: Signing, book: Receiptbook, r: Receipt)
    requires EncodedFrom(env, s, book, r)
    ensures r.WellFormed() && r.proposal.nonce == r.proposal.interaction == s.handoff.interaction
    ensures Receipts.SignaturesOk(r, KeyOf(env, s.handoff.sender), KeyOf(env, s.handoff.receiver))
    ensures r.senderSignature == ProposalSignature(KeyOf(env, s.handoff.sender), r.proposal)
    ensures r.receiverSignature == CompletionSignature(KeyOf(env, s.handoff.receiver), r.proposal, r.senderSignature,
                                                       s.decision, s.reason, s.decidedAt)
    ensures r.decision == s.decision && r.decidedAt == s.decidedAt
    ensures Receipts.DecodeHandoff(r.proposal, s.handoff.previous) == s.handoff
    ensures r.proposal.previousReceipt == (match s.handoff.previous
                                           case None => None
                                           case Some(j) => Some(book[j].ReceiptId()))
  {
  }

  ghost predicate PartlyEncoded(env: Environment, t: Trace, book: Receiptbook) {
    book.Keys <= t.Keys && forall j {:trigger EncodedFrom(env, t[j], book, book[j])} | j in book :: EncodedFrom(env, t[j], book, book[j])
  }

  /** A handoff whose parent's receipt is at hand has a receipt itself. */
  lemma CanEncode(env: Environment, t: Trace, book: Receiptbook, i: Id) returns (r: Receipt)
    requires Wellformed(t, env) && PartlyEncoded(env, t, book) && i in t
    requires t[i].handoff.previous.Some? ==> t[i].handoff.previous.value in book
    ensures EncodedFrom(env, t[i], book, r)
  {
    var s := t[i];
    var parent := match s.handoff.previous case None => None case Some(j) => Some(book[j]);
    if s.handoff.previous.Some? {
      assert EncodedFrom(env, t[s.handoff.previous.value], book, book[s.handoff.previous.value]);
      EncodedReceipt(env, t[s.handoff.previous.value], book, parent.value);
    }
    r := EncodeReceiptHandoff(env, s, parent).value;
  }

  lemma EncodeOne(env: Environment, t: Trace, book: Receiptbook, i: Id) returns (book': Receiptbook)
    requires Wellformed(t, env) && PartlyEncoded(env, t, book) && i in t && i !in book
    requires t[i].handoff.previous.Some? ==> t[i].handoff.previous.value in book
    ensures PartlyEncoded(env, t, book') && book'.Keys == book.Keys + {i}
  {
    var r := CanEncode(env, t, book, i);
    book' := book[i := r];
    assert EncodedFrom(env, t[i], book', r);
    forall j | j in book
      ensures EncodedFrom(env, t[j], book', book'[j])
    {
      KeepsEncoding(env, t, book, i, r, j);
    }
  }

  lemma KeepsEncoding(env: Environment, t: Trace, book: Receiptbook, i: Id, r: Receipt, j: Id)
    requires PartlyEncoded(env, t, book) && i !in book && j in book && j in t
    ensures EncodedFrom(env, t[j], book[i := r], book[j])
  {
    assert EncodedFrom(env, t[j], book, book[j]);
  }

  /** Parents first: a forest can always be encoded. */
  lemma {:induction false} EncodeAncestry(env: Environment, t: Trace, book: Receiptbook, i: Id) returns (book': Receiptbook)
    requires Wellformed(t, env) && PartlyEncoded(env, t, book) && i in t
    ensures PartlyEncoded(env, t, book') && book.Keys + {i} <= book'.Keys
    decreases Ancestry(ParentsIn(t), i)
  {
    book' := book;
    assert ParentKnown(t, i);
    if t[i].handoff.previous.Some? {
      assert !OnCycle(ParentsIn(t), i);
      AncestryShrinks(ParentsIn(t), i);
      book' := EncodeAncestry(env, t, book, t[i].handoff.previous.value);
    }
    if i !in book' {
      book' := EncodeOne(env, t, book', i);
    }
  }

  lemma {:induction false} EncodeAll(env: Environment, t: Trace, book: Receiptbook, todo: set<Id>) returns (book': Receiptbook)
    requires Wellformed(t, env) && todo <= t.Keys <= todo + book.Keys && PartlyEncoded(env, t, book)
    ensures EncodedAs(env, t, book')
    decreases todo
  {
    book' := book;
    if i :| i in todo {
      book' := EncodeAncestry(env, t, book, i);
      book' := EncodeAll(env, t, book', todo - {i});
    }
  }

  /** Every well-formed trace has a PR encoding. */
  lemma TracesEncode(env: Environment, t: Trace)
    requires Wellformed(t, env)
    ensures exists book :: EncodedAs(env, t, book)
  {
    var book := EncodeAll(env, t, map[], t.Keys);
  }

  // ---------- delivery of the encoded evidence ----------

  /** Sent late enough to have been decided and signed, and decided by the cutoff. */
  predicate Timely(env: Environment, m: Message, s: Signing) {
    && !ExceedsWithSkew(s.handoff.createdAt, m.sentAt, env.skew)
    && !ExceedsWithSkew(s.decidedAt, m.sentAt, env.skew)
    && !ExceedsWithSkew(s.decidedAt, env.cutoff, env.skew)
  }

  /** A sender files its record any time from creation on, whether or not the receiver has decided yet. */
  ghost predicate CarriesSender(env: Environment, t: Trace, m: Message, i: Id) {
    && i in t && !ExceedsWithSkew(t[i].handoff.createdAt, m.sentAt, env.skew) && m.payload == EndpointPayload(SenderRecord(env, t[i]))
    && env.StoreBound(m.origin, t[i].handoff.sender.principal, Sender)
  }

  ghost predicate CarriesReceiver(rep: Representation, env: Environment, t: Trace, m: Message, i: Id) {
    && i in t && Timely(env, m, t[i]) && m.payload == EndpointPayload(ReceiverRecord(rep, env, t[i]))
    && env.StoreBound(m.origin, t[i].handoff.receiver.principal, Receiver)
  }

  ghost predicate CarriesReceipt(env: Environment, t: Trace, book: Receiptbook, m: Message, i: Id) {
    && i in t && i in book && Timely(env, m, t[i]) && m.payload == ReceiptPayload(book[i])
    && Receipts.HolderKnown(env, m.origin, book[i].proposal)
  }

  ghost predicate CopiesRecord(rep: Representation, env: Environment, t: Trace, m: Message) {
    exists i :: CarriesSender(env, t, m, i) || CarriesReceiver(rep, env, t, m, i)
  }

  ghost predicate RecordsArrived(rep: Representation, env: Environment, t: Trace, ms: set<Message>, i: Id) {
    && (exists m :: m in InProfile(rep, ms) && CarriesSender(env, t, m, i))
    && (exists m :: m in InProfile(rep, ms) && CarriesReceiver(rep, env, t, m, i))
  }

  /** Every handoff message in view is a copy of the trace's records, and no record is missing. */
  ghost predicate DeliversRecords(rep: Representation, env: Environment, t: Trace, ms: set<Message>) {
    && !Mixed(rep, ms)
    && (forall m {:trigger CopiesRecord(rep, env, t, m)} | m in InProfile(rep, ms) :: CopiesRecord(rep, env, t, m))
    && (forall i {:trigger RecordsArrived(rep, env, t, ms, i)} | i in t :: RecordsArrived(rep, env, t, ms, i))
  }

  ghost predicate CopiesReceipt(env: Environment, t: Trace, book: Receiptbook, m: Message) {
    exists i :: CarriesReceipt(env, t, book, m, i)
  }

  ghost predicate ReceiptArrived(env: Environment, t: Trace, book: Receiptbook, ms: set<Message>, i: Id) {
    exists m :: m in InProfile(PR, ms) && CarriesReceipt(env, t, book, m, i)
  }

  /** The same for receipts, whichever endpoint's store each copy comes from. */
  ghost predicate DeliversReceipts(env: Environment, t: Trace, book: Receiptbook, ms: set<Message>) {
    && EncodedAs(env, t, book)
    && !Mixed(PR, ms)
    && (forall m {:trigger CopiesReceipt(env, t, book, m)} | m in InProfile(PR, ms) :: CopiesReceipt(env, t, book, m))
    && (forall i {:trigger ReceiptArrived(env, t, book, ms, i)} | i in t :: ReceiptArrived(env, t, book, ms, i))
  }

  // ---------- SL and CR ----------

  lemma EndpointAdmitted(rep: Representation, env: Environment, t: Trace, m: Message, i: Id)
    requires rep != PR && Wellformed(t, env)
    ensures CarriesSender(env, t, m, i) ==> Endpoint.Judge(rep, env, m) == Endpoint.Admitted(SenderRecord(env, t[i]))
    ensures CarriesReceiver(rep, env, t, m, i) ==>
              Endpoint.Judge(rep, env, m) == Endpoint.Admitted(ReceiverRecord(rep, env, t[i]))
  {
  }

  ghost predicate IsEndpointRecord(rep: Representation, env: Environment, t: Trace, r: EndpointRecord) {
    var i := r.body.handoff.interaction;
    i in t && (r == SenderRecord(env, t[i]) || r == ReceiverRecord(rep, env, t[i]))
  }

  lemma EndpointRecords(rep: Representation, env: Environment, t: Trace, ms: set<Message>)
    requires rep != PR && Wellformed(t, env) && DeliversRecords(rep, env, t, ms)
    ensures forall r :: r in Endpoint.Records(rep, env, InProfile(rep, ms)) <==> IsEndpointRecord(rep, env, t, r)
    ensures Endpoint.TaintedIds(rep, env, InProfile(rep, ms)) == {}
    ensures Endpoint.MessageIssues(rep, env, InProfile(rep, ms)) == {}
  {
    var ps := InProfile(rep, ms);
    forall m | m in ps
      ensures Endpoint.Judge(rep, env, m).Admitted? && IsEndpointRecord(rep, env, t, Endpoint.Judge(rep, env, m).record)
    {
      assert CopiesRecord(rep, env, t, m);
      var i :| CarriesSender(env, t, m, i) || CarriesReceiver(rep, env, t, m, i);
      EndpointAdmitted(rep, env, t, m, i);
    }
    forall r | IsEndpointRecord(rep, env, t, r)
      ensures r in Endpoint.Records(rep, env, ps)
    {
      var i := r.body.handoff.interaction;
      assert RecordsArrived(rep, env, t, ms, i);
      var m :| m in ps && if r.body.role == Sender then CarriesSender(env, t, m, i) else CarriesReceiver(rep, env, t, m, i);
      EndpointAdmitted(rep, env, t, m, i);
    }
  }

  lemma NoConflicts(t: Trace, env: Environment, claims: set<Claim>)
    requires Wellformed(t, env)
    requires forall c | c in claims :: c.1 in t && c.0 == t[c.1].handoff.SenderSlot()
    ensures Conflicts(claims) == {}
  {
    forall i: Id
      ensures !Contested(claims, i)
    {
      forall k, other: Id | (k, i) in claims && (k, other) in claims
        ensures other == i
      {
        assert (k, i).1 in t && (k, other).1 in t;
      }
    }
  }

  lemma EndpointResolves(rep: Representation, env: Environment, t: Trace, rs: set<EndpointRecord>, i: Id)
    requires rep != PR && Wellformed(t, env) && i in t && Endpoint.AllDecided(rs)
    requires forall r :: r in rs <==> IsEndpointRecord(rep, env, t, r)
    ensures Endpoint.Resolve(rep, rs, i) == Ok(CandidatesOfTrace(t)[i])
  {
    var s, r := SenderRecord(env, t[i]), ReceiverRecord(rep, env, t[i]);
    assert Endpoint.HeldBy(rs, Sender, i) == {s};
    assert Endpoint.HeldBy(rs, Receiver, i) == {r};
    NoConflicts(t, env, Endpoint.Claims(rs));
    assert Endpoint.The({s}) == s by { assert s in {s}; }
    assert Endpoint.The({r}) == r by { assert r in {r}; }
  }

  lemma EndpointInteractions(rep: Representation, env: Environment, t: Trace, rs: set<EndpointRecord>)
    requires forall r :: r in rs <==> IsEndpointRecord(rep, env, t, r)
    requires Wellformed(t, env)
    ensures Endpoint.Interactions(rs) == t.Keys && Conflicts(Endpoint.Claims(rs)) == {}
  {
    forall i | i in t
      ensures i in Endpoint.Interactions(rs)
    {
      assert SenderRecord(env, t[i]) in rs;
    }
    NoConflicts(t, env, Endpoint.Claims(rs));
  }

  lemma EndpointCandidates(rep: Representation, rs: set<EndpointRecord>, c: Candidates)
    requires Endpoint.AllDecided(rs)
    requires Endpoint.Interactions(rs) == c.Keys && Conflicts(Endpoint.Claims(rs)) == {}
    requires forall i | i in c :: Endpoint.Resolve(rep, rs, i) == Ok(c[i])
    ensures Endpoint.CandidatesFrom(rep, rs, {}) == c && Endpoint.GroupIssues(rep, rs, {}) == {}
  {
  }

  lemma EndpointDecoded(rep: Representation, env: Environment, t: Trace, rs: set<EndpointRecord>)
    requires rep != PR && Wellformed(t, env) && Endpoint.AllDecided(rs)
    requires forall r :: r in rs <==> IsEndpointRecord(rep, env, t, r)
    ensures Endpoint.CandidatesFrom(rep, rs, {}) == CandidatesOfTrace(t)
    ensures Endpoint.Interactions(rs) == t.Keys && Endpoint.GroupIssues(rep, rs, {}) == {}
  {
    EndpointInteractions(rep, env, t, rs);
    forall i | i in t
      ensures Endpoint.Resolve(rep, rs, i) == Ok(CandidatesOfTrace(t)[i])
    {
      EndpointResolves(rep, env, t, rs, i);
    }
    EndpointCandidates(rep, rs, CandidatesOfTrace(t));
  }

  lemma EndpointRoundTrip(rep: Representation, env: Environment, t: Trace, ms: set<Message>)
    requires rep != PR && Wellformed(t, env) && DeliversRecords(rep, env, t, ms)
    ensures CandidatesOf(rep, env, ms) == CandidatesOfTrace(t)
    ensures InvalidOf(rep, env, ms) == {} && AdmissionIssues(rep, env, ms) == {}
    ensures InProfile(rep, ms) == {} <==> t == map[]
  {
    EndpointRecords(rep, env, t, ms);
    Endpoint.RecordsDecided(rep, env, InProfile(rep, ms));
    var rs := Endpoint.Records(rep, env, InProfile(rep, ms));
    EndpointDecoded(rep, env, t, rs);
    if m :| m in InProfile(rep, ms) {
      assert CopiesRecord(rep, env, t, m);
    }
    if i :| i in t {
      assert RecordsArrived(rep, env, t, ms, i);
    }
  }

  // ---------- PR ----------

  lemma ReceiptAdmitted(env: Environment, t: Trace, book: Receiptbook, m: Message, i: Id)
    requires Wellformed(t, env) && EncodedAs(env, t, book) && CarriesReceipt(env, t, book, m, i)
    ensures Receipts.Judge(env, m) == Receipts.Admitted(book[i]) && book[i].proposal.interaction == i
  {
    assert EncodedFrom(env, t[i], book, book[i]);
    EncodedReceipt(env, t[i], book, book[i]);
  }

  lemma ReceiptRecords(env: Environment, t: Trace, book: Receiptbook, ms: set<Message>)
    requires Wellformed(t, env) && DeliversReceipts(env, t, book, ms)
    ensures Receipts.Records(env, InProfile(PR, ms)) == book.Values
    ensures Receipts.TaintedIds(env, InProfile(PR, ms)) == {}
    ensures Receipts.MessageIssues(env, InProfile(PR, ms)) == {}
  {
    var ps := InProfile(PR, ms);
    forall m | m in ps
      ensures Receipts.Judge(env, m).Admitted? && Receipts.Judge(env, m).receipt in book.Values
    {
      assert CopiesReceipt(env, t, book, m);
      var i :| CarriesReceipt(env, t, book, m, i);
      ReceiptAdmitted(env, t, book, m, i);
    }
    forall r | r in book.Values
      ensures r in Receipts.Records(env, ps)
    {
      var i :| i in book && book[i] == r;
      assert ReceiptArrived(env, t, book, ms, i);
      var m :| m in ps && CarriesReceipt(env, t, book, m, i);
      ReceiptAdmitted(env, t, book, m, i);
    }
  }

  /** The receipt-digest parent reference resolves back to the semantic parent it was made from. */
  lemma ReceiptLinks(env: Environment, t: Trace, book: Receiptbook, known: set<Digest>, i: Id)
    requires Wellformed(t, env) && EncodedAs(env, t, book) && i in t
    ensures Receipts.Link(known, book, book[i]) == Ok(CandidatesOfTrace(t)[i])
  {
    assert EncodedFrom(env, t[i], book, book[i]);
    EncodedReceipt(env, t[i], book, book[i]);
    if t[i].handoff.previous.Some? {
      var j := t[i].handoff.previous.value;
      assert EncodedFrom(env, t[j], book, book[j]);
      EncodedReceipt(env, t[j], book, book[j]);
    }
  }

  lemma BookFields(env: Environment, t: Trace, book: Receiptbook)
    requires Wellformed(t, env) && EncodedAs(env, t, book)
    ensures forall i | i in book ::
              book[i].proposal.interaction == i && book[i].proposal.SenderSlot() == t[i].handoff.SenderSlot()
  {
    forall i | i in book
      ensures book[i].proposal.interaction == i && book[i].proposal.SenderSlot() == t[i].handoff.SenderSlot()
    {
      assert EncodedFrom(env, t[i], book, book[i]);
      EncodedReceipt(env, t[i], book, book[i]);
    }
  }

  lemma BookNamed(book: Receiptbook)
    requires forall i | i in book :: book[i].proposal.interaction == i
    ensures Receipts.Interactions(book.Values) == book.Keys
    ensures forall i | i in book :: Receipts.Named(book.Values, i) == {book[i]}
  {
    forall i | i in book
      ensures Receipts.Named(book.Values, i) == {book[i]} && i in Receipts.Interactions(book.Values)
    {
      assert book[i] in book.Values;
    }
  }

  lemma BookSelects(book: Receiptbook, i: Id)
    requires i in book && Receipts.Named(book.Values, i) == {book[i]} && Conflicts(Receipts.Claims(book.Values)) == {}
    ensures Receipts.Sole(book.Values, {}, i) && Receipts.TheReceipt(book.Values, i) == book[i]
  {
    assert Receipts.TheReceipt(book.Values, i) in Receipts.Named(book.Values, i);
  }

  lemma BookSelection(book: Receiptbook)
    requires forall i | i in book :: Receipts.Named(book.Values, i) == {book[i]}
    requires Receipts.Interactions(book.Values) == book.Keys && Conflicts(Receipts.Claims(book.Values)) == {}
    ensures Receipts.SelectedReceipts(book.Values, {}) == book
    ensures forall i | i in book :: |Receipts.Named(book.Values, i)| == 1
  {
    forall i | i in book
      ensures Receipts.Sole(book.Values, {}, i) && Receipts.TheReceipt(book.Values, i) == book[i]
    {
      BookSelects(book, i);
    }
  }

  lemma BookSelected(env: Environment, t: Trace, book: Receiptbook)
    requires Wellformed(t, env) && EncodedAs(env, t, book)
    ensures Receipts.SelectedReceipts(book.Values, {}) == book
    ensures Receipts.Interactions(book.Values) == t.Keys && Conflicts(Receipts.Claims(book.Values)) == {}
    ensures forall i | i in t :: |Receipts.Named(book.Values, i)| == 1
  {
    BookFields(env, t, book);
    BookNamed(book);
    NoConflicts(t, env, Receipts.Claims(book.Values));
    BookSelection(book);
  }

  lemma ReceiptCandidates(rs: set<Receipt>, selected: map<Id, Receipt>, c: Candidates)
    requires Receipts.Interactions(rs) == c.Keys == selected.Keys && Conflicts(Receipts.Claims(rs)) == {}
    requires forall i | i in c :: |Receipts.Named(rs, i)| == 1
    requires Receipts.SelectedReceipts(rs, {}) == selected
    requires forall i | i in c :: Receipts.Link(Receipts.DigestsOf(rs), selected, selected[i]) == Ok(c[i])
    ensures Receipts.CandidatesFrom(rs, {}) == c && Receipts.GroupIssues(rs, {}) == {}
  {
  }

  lemma AllReceiptsLink(env: Environment, t: Trace, book: Receiptbook, known: set<Digest>)
    requires Wellformed(t, env) && EncodedAs(env, t, book)
    ensures forall i | i in t :: Receipts.Link(known, book, book[i]) == Ok(CandidatesOfTrace(t)[i])
  {
    forall i | i in t
      ensures Receipts.Link(known, book, book[i]) == Ok(CandidatesOfTrace(t)[i])
    {
      ReceiptLinks(env, t, book, known, i);
    }
  }

  lemma ReceiptDecoded(env: Environment, t: Trace, book: Receiptbook)
    requires Wellformed(t, env) && EncodedAs(env, t, book)
    ensures Receipts.CandidatesFrom(book.Values, {}) == CandidatesOfTrace(t)
    ensures Receipts.Interactions(book.Values) == t.Keys && Receipts.GroupIssues(book.Values, {}) == {}
  {
    BookSelected(env, t, book);
    AllReceiptsLink(env, t, book, Receipts.DigestsOf(book.Values));
    BookDecoded(t, book);
  }

  lemma BookDecoded(t: Trace, book: Receiptbook)
    requires book.Keys == t.Keys && Receipts.SelectedReceipts(book.Values, {}) == book
    requires Receipts.Interactions(book.Values) == t.Keys && Conflicts(Receipts.Claims(book.Values)) == {}
    requires forall i | i in t :: |Receipts.Named(book.Values, i)| == 1
    requires forall i | i in t :: Receipts.Link(Receipts.DigestsOf(book.Values), book, book[i]) == Ok(CandidatesOfTrace(t)[i])
    ensures Receipts.CandidatesFrom(book.Values, {}) == CandidatesOfTrace(t)
    ensures Receipts.GroupIssues(book.Values, {}) == {}
  {
    assert CandidatesOfTrace(t).Keys == t.Keys;
    ReceiptCandidates(book.Values, book, CandidatesOfTrace(t));
  }

  lemma ReceiptsInView(env: Environment, t: Trace, book: Receiptbook, ms: set<Message>)
    requires DeliversReceipts(env, t, book, ms)
    ensures InProfile(PR, ms) == {} <==> t == map[]
  {
    if m :| m in InProfile(PR, ms) {
      assert CopiesReceipt(env, t, book, m);
    }
    if i :| i in t {
      assert ReceiptArrived(env, t, book, ms, i);
    }
  }

  lemma ReceiptRoundTrip(env: Environment, t: Trace, book: Receiptbook, ms: set<Message>)
    requires Wellformed(t, env) && DeliversReceipts(env, t, book, ms)
    ensures CandidatesOf(PR, env, ms) == CandidatesOfTrace(t)
    ensures InvalidOf(PR, env, ms) == {} && AdmissionIssues(PR, env, ms) == {}
    ensures InProfile(PR, ms) == {} <==> t == map[]
  {
    ReceiptsInView(env, t, book, ms);
    ReceiptRecords(env, t, book, ms);
    ReceiptDecoded(env, t, book);
  }

  // ---------- the theorem ----------

  /** What every representation must report for a trace; no encoding and no message occurs in it. */
  ghost function TraceViews(t: Trace, skew: nat): set<PolicyView> {
    var c := CandidatesOfTrace(t);
    set i | i in Emitted(c, {}, skew) && i in t ::
      PolicyView(t[i].handoff, true, true, t[i].decision == Accept, t[i].decision, t[i].decidedAt, true, true)
  }

  ghost function TraceIssues(t: Trace, skew: nat): set<Issue> {
    if t == map[] then {Issue(EvidenceMissing, None)} else RelationIssues(CandidatesOfTrace(t), {}, skew)
  }

  lemma ViewsFromCandidates(rep: Representation, env: Environment, t: Trace, ms: set<Message>)
    requires !Mixed(rep, ms) && CandidatesOf(rep, env, ms) == CandidatesOfTrace(t) && InvalidOf(rep, env, ms) == {}
    ensures ViewsOf(rep, env, ms) == TraceViews(t, env.skew)
  {
    assert EmittedIds(rep, env, ms) == Emitted(CandidatesOfTrace(t), {}, env.skew);
  }

  lemma IssuesFromCandidates(rep: Representation, env: Environment, t: Trace, ms: set<Message>)
    requires !Mixed(rep, ms) && CandidatesOf(rep, env, ms) == CandidatesOfTrace(t)
    requires InvalidOf(rep, env, ms) == {} && AdmissionIssues(rep, env, ms) == {}
    requires InProfile(rep, ms) == {} <==> t == map[]
    ensures IssuesOf(rep, env, ms) == TraceIssues(t, env.skew)
  {
    var c := CandidatesOfTrace(t);
    assert IssuesOf(rep, env, ms) == ViewIssues(rep, ms) + RelationIssues(c, {}, env.skew);
    assert t == map[] ==> c == map[];
  }

  /** Validating an SL or CR delivery of a trace reports exactly the trace. */
  lemma RecordsPreserveMeaning(rep: Representation, env: Environment, t: Trace, ms: set<Message>)
    requires rep != PR && Wellformed(t, env) && DeliversRecords(rep, env, t, ms)
    ensures !Raises(rep, env, ms)
    ensures ViewsOf(rep, env, ms) == TraceViews(t, env.skew)
    ensures IssuesOf(rep, env, ms) == TraceIssues(t, env.skew)
  {
    EndpointRoundTrip(rep, env, t, ms);
    ViewsFromCandidates(rep, env, t, ms);
    IssuesFromCandidates(rep, env, t, ms);
  }

  /** Validating a PR delivery of a trace reports exactly the trace, whichever receipts encode it. */
  lemma ReceiptsPreserveMeaning(env: Environment, t: Trace, book: Receiptbook, ms: set<Message>)
    requires Wellformed(t, env) && DeliversReceipts(env, t, book, ms)
    ensures !Raises(PR, env, ms)
    ensures ViewsOf(PR, env, ms) == TraceViews(t, env.skew)
    ensures IssuesOf(PR, env, ms) == TraceIssues(t, env.skew)
  {
    ReceiptRoundTrip(env, t, book, ms);
    ViewsFromCandidates(PR, env, t, ms);
    IssuesFromCandidates(PR, env, t, ms);
  }

  /** SL pairs, CR pairs and PR receipts of one trace are indistinguishable to policy. */
  lemma RepresentationsAgree(env: Environment, t: Trace, book: Receiptbook, sl: set<Message>, cr: set<Message>, pr: set<Message>)
    requires Wellformed(t, env)
    requires DeliversRecords(SL, env, t, sl) && DeliversRecords(CR, env, t, cr) && DeliversReceipts(env, t, book, pr)
    ensures ViewsOf(SL, env, sl) == ViewsOf(CR, env, cr) == ViewsOf(PR, env, pr)
    ensures IssuesOf(SL, env, sl) == IssuesOf(CR, env, cr) == IssuesOf(PR, env, pr)
  {
    RecordsPreserveMeaning(SL, env, t, sl);
    RecordsPreserveMeaning(CR, env, t, cr);
    ReceiptsPreserveMeaning(env, t, book, pr);
  }
}
