/** Negotiation of one key (`param_text_parse`, parameters.c): the flags that tell an
    offer from an answer, the answer to an offer, and the value each end commits.
    The same code runs at both ends. */
module Negotiation {
  import opened Sequences
  import opened Numbers

  datatype Type = Declarative | Numerical | NumericalZ | BinaryOr | BinaryAnd | ListOf

  datatype Param = Param(
    kind: Type, valid: string, value: string,
    offerTx: string, offerRx: string, answerTx: string, answerRx: string,
    txOffer: bool, rxOffer: bool, txAnswer: bool, rxAnswer: bool)

  /** What parsing one token does to the rest: go on; drop the rest and return 0, as
      after the last token; or return -1. */
  datatype Status = Ok | Warned | Failed

  // ----- lists of values

  function Split(s: string): (parts: seq<string>)
    ensures parts != []
    decreases |s|
  {
    var k := IndexOf(s, ',');
    if k == |s| then [s] else [s[..k]] + Split(s[k + 1..])
  }

  /** The first of `offers` that is among `valid`. */
  function FirstIn(offers: seq<string>, valid: seq<string>): Option<string> {
    if offers == [] then None
    else if offers[0] in valid then Some(offers[0])
    else FirstIn(offers[1..], valid)
  }

  function ListAnswer(offer: string, valid: string): string {
    if valid == "" then Split(offer)[0]
    else match FirstIn(Split(offer), Split(valid))
      case Some(v) => v
      case None => "Reject"
  }

  /** Values every end accepts as an answer to a list. */
  predicate Special(v: string) {
    v == "None" || v == "Reject" || v == "Irrelevant" || v == "NotUnderstood"
  }

  predicate Acceptable(answer: string, valid: string) {
    Special(answer) || (valid != "" && answer in Split(valid))
  }

  // ----- binary and numerical values

  predicate Yes(v: string) {
    v == "yes" || v == "Yes"
  }

  predicate IsBinary(v: string) {
    Yes(v) || v == "no" || v == "No"
  }

  function BinaryAnswer(offer: string, valid: string): string {
    if !IsBinary(offer) then "Reject"
    else if ',' in valid then offer
    else valid
  }

  function BinaryCommit(isOr: bool, v: string, w: string): string {
    if (if isOr then Yes(v) || Yes(w) else Yes(v) && Yes(w)) then "Yes" else "No"
  }

  function NumberAnswer(z: bool, offer: nat, max: nat): nat {
    if z then
      if max == 0 then offer
      else if offer == 0 then max
      else if offer > max then max
      else offer
    else if offer > max then max
    else offer
  }

  function NumberCommit(z: bool, v: nat, w: nat): nat {
    if z then
      if v == 0 then w
      else if w == 0 then v
      else if v > w then w
      else v
    else if v > w then w
    else v
  }

  /** Zero stands for no limit when `z`. */
  predicate WithinLimit(z: bool, n: nat, limit: nat) {
    if z && limit == 0 then true else if z && n == 0 then false else n <= limit
  }

  /** What is committed is the largest value within both limits. */
  lemma {:induction false} NumberIsMeet(z: bool, offer: nat, max: nat)
    ensures var m := NumberAnswer(z, offer, max);
            && WithinLimit(z, m, offer) && WithinLimit(z, m, max)
            && (forall n: nat :: WithinLimit(z, n, offer) && WithinLimit(z, n, max) ==> WithinLimit(z, n, m))
            && NumberCommit(z, offer, m) == NumberCommit(z, m, offer) == m
  {
  }

  // ----- one token

  /** The answer to an offer, if its type has one. */
  function AnswerTo(p: Param, offer: string): Option<string> {
    if offer == "?" then Some(p.value)
    else match p.kind
      case Declarative => None
      case BinaryOr => Some(BinaryAnswer(offer, p.valid))
      case BinaryAnd => Some(BinaryAnswer(offer, p.valid))
      case Numerical => Some(Decimal(NumberAnswer(false, Atoi(offer), Atoi(p.valid))))
      case NumericalZ => Some(Decimal(NumberAnswer(true, Atoi(offer), Atoi(p.valid))))
      case ListOf => Some(ListAnswer(offer, p.valid))
  }

  /** The value agreed from what is on record, and whether it is one. */
  function Negotiated(p: Param, outgoing: bool): (string, Status) {
    var v := if outgoing then p.offerRx else p.answerRx;
    var w := if outgoing then p.answerTx else p.offerTx;
    match p.kind
    case Declarative =>
      (if outgoing then p.offerTx else if p.rxOffer then p.offerRx else p.answerRx, Ok)
    case BinaryOr =>
      if !outgoing && !IsBinary(v) && v != "Irrelevant" then ("", Warned) else (BinaryCommit(true, v, w), Ok)
    case BinaryAnd =>
      if !outgoing && !IsBinary(v) && v != "Irrelevant" then ("", Warned) else (BinaryCommit(false, v, w), Ok)
    case Numerical => (Decimal(NumberCommit(false, Atoi(v), Atoi(w))), Ok)
    case NumericalZ => (Decimal(NumberCommit(true, Atoi(v), Atoi(w))), Ok)
    case ListOf =>
      if outgoing then
        if p.txOffer || !p.txAnswer || !Acceptable(p.answerTx, p.valid) then ("", Failed) else (p.answerTx, Ok)
      else
        if p.rxOffer || !p.rxAnswer || !Acceptable(p.answerRx, p.valid) then ("", Failed) else (p.answerRx, Ok)
  }

  predicate Inquiry(p: Param) {
    || (p.txOffer && p.offerTx == "?") || (p.rxOffer && p.offerRx == "?")
    || (p.txAnswer && p.offerRx == "?") || (p.rxAnswer && p.offerTx == "?")
  }

  /** The label `negotiate`: commit unless it is an inquiry. */
  function Commit(p: Param, outgoing: bool): (Param, Status) {
    var (v, status) := Negotiated(p, outgoing);
    (if status.Ok? && !Inquiry(p) then p.(value := v) else p, status)
  }

  /** Sending `key=value`: an answer if an offer of this key was ever received. */
  function Outgoing(p: Param, v: string): (Param, Status) {
    if p.rxOffer then
      Commit(p.(txAnswer := true, answerTx := v), true)
    else
      var q := p.(txOffer := true, rxOffer := false, offerTx := v);
      if p.kind.Declarative? then Commit(q, true) else (q, Ok)
  }

  datatype Received = Received(param: Param, answer: Option<string>, status: Status)

  /** Receiving `key=value`: an answer if an offer of this key is outstanding. */
  function Incoming(p: Param, v: string): Received {
    if p.txOffer then
      var (q, status) := Commit(p.(rxAnswer := true, txOffer := false, answerRx := v), false);
      Received(q, None, status)
    else
      var q := p.(rxOffer := true, offerRx := v);
      match AnswerTo(q, v)
      case None =>
        var (r, status) := Commit(q, false);
        Received(r, None, status)
      case Some(a) => Received(q.(answerTx := a), Some(a), Ok)
  }

  // ----- one round between two ends

  /** `ok`: every call returned 0.  `dropped`: one of them returned before its last token. */
  datatype Round = Round(offerer: Param, responder: Param, ok: bool, dropped: bool)

  /** The offer is sent, received and answered; the answer is sent and received. */
  function Exchange(i: Param, r: Param, offer: string): Round {
    var (i1, s1) := Outgoing(i, offer);
    var got := Incoming(r, offer);
    match got.answer
    case None => Round(i1, got.param, !s1.Failed? && !got.status.Failed?, s1.Warned? || got.status.Warned?)
    case Some(a) =>
      var (r2, s2) := Outgoing(got.param, a);
      var back := Incoming(i1, a);
      Round(back.param, r2, !s1.Failed? && !s2.Failed? && !back.status.Failed?,
            s1.Warned? || s2.Warned? || back.status.Warned?)
  }

  /** Who offers and who answers is settled by the flags. */
  predicate Roles(i: Param, r: Param) {
    !i.rxOffer && !r.txOffer && i.kind == r.kind
  }

  /** This end once sent an inquiry for the key and had it answered.  The flag that says
      so is never taken back. */
  predicate AskedOnce(p: Param) {
    p.rxAnswer && p.offerTx == "?"
  }

  /** This end once answered an inquiry for the key. */
  predicate ToldOnce(p: Param) {
    p.txAnswer && p.offerRx == "?"
  }

  /** A binary key offered with a value that is none: the responder says Reject. */
  predicate Nonsense(r: Param, offer: string) {
    (r.kind.BinaryOr? || r.kind.BinaryAnd?) && !IsBinary(offer)
  }

  /** What a round does.  It succeeds unless a list has no acceptable answer.  The
      responder commits what is agreed; so does the offerer, unless its offer was
      nonsense, when it silently drops the rest of the text.  An end does not commit
      while the record of an old inquiry is left. */
  predicate Settles(i: Param, r: Param, offer: string, round: Round) {
    && (round.ok <==> Agreeable(i, r, offer) || Nonsense(r, offer))
    && (round.ok ==> (round.dropped <==> Nonsense(r, offer)))
    && (round.ok ==> round.offerer.value == (if ToldOnce(i) || Nonsense(r, offer) then i.value else Agreed(r, offer)))
    && (round.ok ==> round.responder.value == (if AskedOnce(r) then r.value else Agreed(r, offer)))
  }

  /** `param_list_add` takes no other set for a binary key. */
  predicate ValidSet(p: Param) {
    p.kind.BinaryOr? || p.kind.BinaryAnd? ==>
      IsBinary(p.valid)
      || p.valid == "Yes,No" || p.valid == "No,Yes" || p.valid == "yes,no" || p.valid == "no,yes"
  }

  /** What the round can agree on. */
  predicate Agreeable(i: Param, r: Param, offer: string) {
    match r.kind
    case BinaryOr => IsBinary(offer)
    case BinaryAnd => IsBinary(offer)
    case ListOf =>
      && (r.valid == "" ==> Special(Split(offer)[0]))
      && Acceptable(ListAnswer(offer, r.valid), i.valid)
    case _ => true
  }

  /** What both ends should end up with. */
  function Agreed(r: Param, offer: string): string {
    match r.kind
    case Declarative => offer
    case BinaryOr => BinaryCommit(true, offer, BinaryAnswer(offer, r.valid))
    case BinaryAnd => BinaryCommit(false, offer, BinaryAnswer(offer, r.valid))
    case Numerical => Decimal(NumberAnswer(false, Atoi(offer), Atoi(r.valid)))
    case NumericalZ => Decimal(NumberAnswer(true, Atoi(offer), Atoi(r.valid)))
    case ListOf => ListAnswer(offer, r.valid)
  }

  lemma {:induction false} OutgoingKeeps(p: Param, v: string)
    ensures var q := Outgoing(p, v).0;
            && q.valid == p.valid && q.kind == p.kind && q.rxOffer == p.rxOffer && q.rxAnswer == p.rxAnswer
            && q.offerRx == p.offerRx
            && (if p.rxOffer then q.txAnswer && q.answerTx == v && q.txOffer == p.txOffer && q.offerTx == p.offerTx
                else q.txOffer && q.offerTx == v && q.txAnswer == p.txAnswer)
  {
    hide Negotiated;
  }

  lemma {:induction false} IncomingKeeps(p: Param, v: string)
    ensures var q := Incoming(p, v).param;
            && q.valid == p.valid && q.kind == p.kind && q.txAnswer == p.txAnswer && q.offerTx == p.offerTx
            && !q.txOffer
            && (if p.txOffer then Incoming(p, v).answer.None? && q.rxOffer == p.rxOffer && q.rxAnswer && q.offerRx == p.offerRx
                                  && q.answerRx == v
                else q.rxOffer && q.rxAnswer == p.rxAnswer && q.offerRx == v && q.answerRx == p.answerRx)
            && (Incoming(p, v).answer.Some? ==> q.answerTx == Incoming(p, v).answer.value)
  {
    hide Negotiated, AnswerTo;
  }

  /** The roles are still the same after a round, however it went. */
  lemma {:induction false} RolesKept(i: Param, r: Param, offer: string)
    requires Roles(i, r)
    ensures var round := Exchange(i, r, offer);
            Roles(round.offerer, round.responder)
            && round.offerer.valid == i.valid
            && round.responder.valid == r.valid && round.responder.kind == r.kind
            && ToldOnce(round.offerer) == ToldOnce(i) && AskedOnce(round.responder) == AskedOnce(r)
  {
    hide Outgoing, Incoming;
    var i1 := Outgoing(i, offer).0;
    var got := Incoming(r, offer);
    OutgoingKeeps(i, offer);
    IncomingKeeps(r, offer);
    if got.answer.Some? {
      OutgoingKeeps(got.param, got.answer.value);
      IncomingKeeps(i1, got.answer.value);
    }
  }

  lemma {:induction false} FirstInMember(offers: seq<string>, valid: seq<string>)
    ensures FirstIn(offers, valid).None? <==> forall i :: 0 <= i < |offers| ==> offers[i] !in valid
    ensures FirstIn(offers, valid).Some? ==>
              exists i :: 0 <= i < |offers| && offers[i] == FirstIn(offers, valid).value && offers[i] in valid
                          && forall j :: 0 <= j < i ==> offers[j] !in valid
  {
    if offers != [] && offers[0] !in valid {
      FirstInMember(offers[1..], valid);
      if FirstIn(offers, valid).Some? {
        var i :| 0 <= i < |offers[1..]| && offers[1..][i] == FirstIn(offers[1..], valid).value && offers[1..][i] in valid
                 && forall j :: 0 <= j < i ==> offers[1..][j] !in valid;
        assert offers[i + 1] == offers[1..][i];
        forall j | 0 <= j < i + 1 ensures offers[j] !in valid {
          assert j > 0 ==> offers[j] == offers[1..][j - 1];
        }
      }
    }
  }

  lemma {:induction false} AnswerAcceptable(offer: string, valid: string)
    ensures valid != "" ==> Acceptable(ListAnswer(offer, valid), valid)
    ensures valid == "" ==> (Acceptable(ListAnswer(offer, valid), valid) <==> Special(Split(offer)[0]))
  {
    if valid != "" {
      FirstInMember(Split(offer), Split(valid));
    }
  }

  lemma {:induction false} ListRound(i: Param, r: Param, offer: string)
    requires Roles(i, r) && r.kind.ListOf? && offer != "?"
    ensures Settles(i, r, offer, Exchange(i, r, offer))
  {
    AnswerAcceptable(offer, r.valid);
    hide Acceptable, ListAnswer, Special, Split, FirstIn;
  }

  lemma {:induction false} BinaryAnswers(offer: string, valid: string)
    requires IsBinary(valid) || valid == "Yes,No" || valid == "No,Yes" || valid == "yes,no" || valid == "no,yes"
    ensures IsBinary(offer) ==> IsBinary(BinaryAnswer(offer, valid))
    ensures !IsBinary(offer) ==> BinaryAnswer(offer, valid) == "Reject"
    ensures !IsBinary("Reject") && "Reject" != "Irrelevant"
  {
    assert "Yes,No"[3] == ',' && "No,Yes"[2] == ',' && "yes,no"[3] == ',' && "no,yes"[2] == ',';
    assert |"Reject"| == 6 && |"Irrelevant"| == 10;
  }

  lemma {:induction false} BinaryRound(i: Param, r: Param, offer: string)
    requires Roles(i, r) && (r.kind.BinaryOr? || r.kind.BinaryAnd?) && offer != "?" && ValidSet(r)
    ensures Settles(i, r, offer, Exchange(i, r, offer))
  {
    BinaryAnswers(offer, r.valid);
    hide IsBinary, BinaryAnswer, Yes, Split, Acceptable, Atoi, Decimal;
    if IsBinary(offer) {
      SenseRound(i, r, offer);
    } else {
      NonsenseRound(i, r, offer);
    }
  }

  lemma {:induction false} SenseRound(i: Param, r: Param, offer: string)
    requires Roles(i, r) && (r.kind.BinaryOr? || r.kind.BinaryAnd?) && offer != "?"
    requires IsBinary(offer) && IsBinary(BinaryAnswer(offer, r.valid))
    ensures Settles(i, r, offer, Exchange(i, r, offer))
  {
    hide IsBinary, BinaryAnswer, Yes, Split, Acceptable, Atoi, Decimal;
  }

  lemma {:induction false} NonsenseRound(i: Param, r: Param, offer: string)
    requires Roles(i, r) && (r.kind.BinaryOr? || r.kind.BinaryAnd?) && offer != "?"
    requires !IsBinary(offer) && BinaryAnswer(offer, r.valid) == "Reject"
    requires !IsBinary("Reject") && "Reject" != "Irrelevant"
    ensures Settles(i, r, offer, Exchange(i, r, offer))
  {
    hide IsBinary, BinaryAnswer, Yes, Split, Acceptable, Atoi, Decimal;
  }

  lemma {:induction false} NumberRound(i: Param, r: Param, offer: string)
    requires Roles(i, r) && (r.kind.Numerical? || r.kind.NumericalZ?) && offer != "?"
    ensures Settles(i, r, offer, Exchange(i, r, offer))
  {
    var z := r.kind.NumericalZ?;
    NumberIsMeet(z, Atoi(offer), Atoi(r.valid));
    AtoiDecimal(NumberAnswer(z, Atoi(offer), Atoi(r.valid)));
    hide Atoi, Decimal, NumberAnswer, NumberCommit;
  }

  /** A round succeeds with nothing dropped exactly when the offer is one the two can
      agree on, and then both ends commit that value; an end with an old inquiry on
      record does not. */
  lemma {:induction false} RoundAgreesIff(i: Param, r: Param, offer: string)
    requires Roles(i, r) && offer != "?" && ValidSet(r)
    ensures Settles(i, r, offer, Exchange(i, r, offer))
  {
    match r.kind
    case Declarative =>
    case BinaryOr => BinaryRound(i, r, offer);
    case BinaryAnd => BinaryRound(i, r, offer);
    case Numerical => NumberRound(i, r, offer);
    case NumericalZ => NumberRound(i, r, offer);
    case ListOf => ListRound(i, r, offer);
  }

  /** After a round that every call reports as a success the two ends are equal exactly
      when the offer was not nonsense for a binary key, or the offerer's old value is
      the No the responder commits. */
  lemma {:induction false} SilentlyEqualIff(i: Param, r: Param, offer: string)
    requires Roles(i, r) && offer != "?" && ValidSet(r) && !ToldOnce(i) && !AskedOnce(r)
    ensures var round := Exchange(i, r, offer);
            && (round.ok ==> round.responder.value == Agreed(r, offer))
            && (round.ok ==> (round.offerer.value == round.responder.value
                              <==> !Nonsense(r, offer) || i.value == "No"))
  {
    RoundAgreesIff(i, r, offer);
    NonsenseIsNo(r, offer);
  }

  lemma {:induction false} NonsenseIsNo(r: Param, offer: string)
    ensures Nonsense(r, offer) ==> Agreed(r, offer) == "No"
  {
    assert !Yes("Reject") by {
      assert |"Reject"| == 6 && |"Yes"| == 3 && |"yes"| == 3;
    }
  }

  /** Such a round: InitialR2T offered as "maybe".  Every call returns 0, the offerer stays
      with Yes and the responder commits No. */
  lemma {:induction false} SilentDisagreement(i: Param, r: Param)
    requires Roles(i, r) && ValidSet(r) && !ToldOnce(i) && !AskedOnce(r)
    requires r.kind.BinaryOr? && i.value == "Yes"
    ensures var round := Exchange(i, r, "maybe");
            round.ok && round.dropped && round.offerer.value == "Yes" && round.responder.value == "No"
  {
    assert "maybe" != "?" && !IsBinary("maybe") by {
      assert |"maybe"| == 5 && |"?"| == 1 && |"yes"| == 3 && |"Yes"| == 3 && |"no"| == 2 && |"No"| == 2;
    }
    RoundAgreesIff(i, r, "maybe");
    NonsenseIsNo(r, "maybe");
  }

  /** Offers drawn from the offerer's own list are always agreeable. */
  lemma {:induction false} OwnOffersAgree(i: Param, r: Param, offer: string)
    requires r.kind.ListOf? && r.valid != "" && i.valid != ""
    requires forall v :: v in Split(offer) ==> v in Split(i.valid)
    ensures Agreeable(i, r, offer)
    ensures ListAnswer(offer, r.valid) == "Reject" || (ListAnswer(offer, r.valid) in Split(offer)
                                                      && ListAnswer(offer, r.valid) in Split(r.valid))
  {
    FirstInMember(Split(offer), Split(r.valid));
  }

  /** An inquiry changes no value at either end, however it goes. */
  lemma {:induction false} InquiryChangesNothing(i: Param, r: Param)
    requires Roles(i, r)
    ensures var round := Exchange(i, r, "?");
            round.offerer.value == i.value && round.responder.value == r.value
  {
    hide Negotiated;
  }

  // ----- any number of rounds

  function Rounds(i: Param, r: Param, offers: seq<string>): (Param, Param)
    decreases |offers|
  {
    if offers == [] then (i, r)
    else
      var round := Exchange(i, r, offers[0]);
      Rounds(round.offerer, round.responder, offers[1..])
  }

  /** After any rounds with the same offerer, failed ones and inquiries among them, an
      agreeable offer is still agreed on. */
  lemma {:induction false} LastOfferAgreed(i: Param, r: Param, offers: seq<string>, last: string)
    requires Roles(i, r) && ValidSet(r) && last != "?" && Agreeable(i, r, last)
    requires !ToldOnce(i) && !AskedOnce(r)
    ensures var (i', r') := Rounds(i, r, offers + [last]);
            i'.value == r'.value == Agreed(r, last)
    decreases |offers|
  {
    hide Exchange, Agreeable, Agreed, ToldOnce, AskedOnce;
    if offers == [] {
      RoundAgreesIff(i, r, last);
      AgreeableIsSense(i, r, last);
      assert ([] + [last])[1..] == [];
    } else {
      var round := Exchange(i, r, offers[0]);
      RolesKept(i, r, offers[0]);
      AgreeableKept(i, r, round.offerer, round.responder, last);
      assert (offers + [last])[1..] == offers[1..] + [last];
      LastOfferAgreed(round.offerer, round.responder, offers[1..], last);
    }
  }

  lemma {:induction false} AgreeableIsSense(i: Param, r: Param, offer: string)
    ensures Agreeable(i, r, offer) ==> !Nonsense(r, offer)
  {
  }

  lemma {:induction false} AgreeableKept(i: Param, r: Param, i': Param, r': Param, offer: string)
    requires i'.valid == i.valid && r'.valid == r.valid && r'.kind == r.kind
    ensures Agreeable(i', r', offer) == Agreeable(i, r, offer) && Agreed(r', offer) == Agreed(r, offer)
  {
  }

  // ----- declarations made by both ends

  /** Both ends may declare the same key.  The end that declares second is taken to be
      answering: it commits its own previous offer, while the other commits what it was
      sent; the two agree exactly when these are the same. */
  lemma {:induction false} SecondDeclarationIff(i: Param, r: Param, v: string, w: string)
    requires Roles(i, r) && r.kind.Declarative? && v != "?" && w != "?" && r.offerTx != "?"
    requires !ToldOnce(i)
    ensures var first := Exchange(i, r, v);
            var r' := Outgoing(first.responder, w).0;
            var i' := Incoming(first.offerer, w).param;
            && i'.value == w && r'.value == r.offerTx
            && (i'.value == r'.value <==> r.offerTx == w)
  {
  }
}
