/** What a round of negotiation comes to, in terms of the values offered and supported. */
module NegotiationOutcomes {
  import opened Sequences
  import opened Numbers
  import opened Negotiation

  /** No inquiry for the key is on record at the two ends. */
  predicate NoInquiries(i: Param, r: Param) {
    && !(i.txAnswer && i.offerRx == "?")
    && !(r.rxAnswer && r.offerTx == "?")
  }

  // ----- binary keys

  predicate SupportsBoth(valid: string) {
    valid == "Yes,No" || valid == "No,Yes" || valid == "yes,no" || valid == "no,yes"
  }

  predicate SupportsOne(valid: string) {
    valid == "Yes" || valid == "yes" || valid == "No" || valid == "no"
  }

  /** A binary value is settled at both ends, as Yes or No.  If the responder supports both
      values it is what was offered; if it supports one, the two are joined by the or, or
      the and, that the key's type says. */
  lemma {:induction false} BinarySettles(i: Param, r: Param, offer: string)
    requires Roles(i, r) && (r.kind.BinaryOr? || r.kind.BinaryAnd?) && NoInquiries(i, r)
    requires SupportsBoth(r.valid) || SupportsOne(r.valid)
    requires offer == "Yes" || offer == "yes" || offer == "No" || offer == "no"
    ensures var round := Exchange(i, r, offer);
            var offered := offer == "Yes" || offer == "yes";
            var supported := r.valid == "Yes" || r.valid == "yes";
            && round.ok && !round.dropped && round.offerer.value == round.responder.value
            && (round.responder.value == "Yes" || round.responder.value == "No")
            && (SupportsBoth(r.valid) ==> (round.responder.value == "Yes" <==> offered))
            && (SupportsOne(r.valid) && r.kind.BinaryOr? ==>
                  (round.responder.value == "Yes" <==> offered || supported))
            && (SupportsOne(r.valid) && r.kind.BinaryAnd? ==>
                  (round.responder.value == "Yes" <==> offered && supported))
  {
    hide Exchange;
    BinaryValues();
    assert "Yes,No"[3] == ',' && "No,Yes"[2] == ',' && "yes,no"[3] == ',' && "no,yes"[2] == ',';
    RoundAgreesIff(i, r, offer);
  }

  lemma {:induction false} BinaryValues()
    ensures ',' !in "Yes" && ',' !in "yes" && ',' !in "No" && ',' !in "no"
    ensures "Yes" != "?" && "yes" != "?" && "No" != "?" && "no" != "?"
  {
    assert |"Yes"| == |"yes"| == 3 && |"No"| == |"no"| == 2 && |"?"| == 1;
  }

  /** The offerer's part alone: an answer "Irrelevant" counts as a no. */
  lemma {:induction false} IrrelevantIsNo(p: Param)
    requires (p.kind.BinaryOr? || p.kind.BinaryAnd?) && p.txOffer && p.offerTx != "?"
    requires !(p.rxOffer && p.offerRx == "?") && !(p.txAnswer && p.offerRx == "?")
    ensures var got := Incoming(p, "Irrelevant");
            && got.status == Ok && got.answer == None
            && got.param.value == if p.kind.BinaryOr? && (p.offerTx == "Yes" || p.offerTx == "yes") then "Yes" else "No"
  {
    assert |"Irrelevant"| == 10 && |"Yes"| == |"yes"| == 3;
  }

  // ----- lists

  function JoinedBy(parts: seq<string>): string {
    if parts == [] then ""
    else if |parts| == 1 then parts[0]
    else parts[0] + "," + JoinedBy(parts[1..])
  }

  /** The values of a list are what stands between its commas. */
  lemma {:induction false} SplitIs(s: string)
    ensures JoinedBy(Split(s)) == s
    ensures forall k :: 0 <= k < |Split(s)| ==> ',' !in Split(s)[k]
    decreases |s|
  {
    var k := IndexOf(s, ',');
    if k < |s| {
      SplitIs(s[k + 1..]);
      assert Split(s)[1..] == Split(s[k + 1..]);
      assert s == s[..k] + "," + s[k + 1..];
    }
  }

  /** Nothing before position k is supported, and what is there is, unless k is the end. */
  ghost predicate FirstSupported(offers: seq<string>, valid: seq<string>, k: nat) {
    && k <= |offers| && (k < |offers| ==> offers[k] in valid)
    && forall j :: 0 <= j < k ==> offers[j] !in valid
  }

  lemma {:induction false} FirstInAt(offers: seq<string>, valid: seq<string>, k: nat)
    requires FirstSupported(offers, valid, k)
    ensures FirstIn(offers, valid) == if k < |offers| then Some(offers[k]) else None
  {
    if k > 0 {
      forall j | 0 <= j < k - 1 ensures offers[1..][j] !in valid {
        assert offers[1..][j] == offers[j + 1];
      }
      FirstInAt(offers[1..], valid, k - 1);
    }
  }

  /** A list is settled on the first offered value the responder supports, or on Reject;
      the offerer must support it too, unless it is one of the words every end takes. */
  lemma {:induction false} ListSettles(i: Param, r: Param, offer: string, k: nat)
    requires Roles(i, r) && r.kind.ListOf? && offer != "?" && NoInquiries(i, r) && r.valid != ""
    requires FirstSupported(Split(offer), Split(r.valid), k)
    ensures var v := if k < |Split(offer)| then Split(offer)[k] else "Reject";
            var round := Exchange(i, r, offer);
            && (round.ok <==> v == "None" || v == "Reject" || v == "Irrelevant" || v == "NotUnderstood"
                              || (i.valid != "" && v in Split(i.valid)))
            && (round.ok ==> round.offerer.value == round.responder.value == v && !round.dropped)
  {
    hide Exchange, Split;
    FirstInAt(Split(offer), Split(r.valid), k);
    RoundAgreesIff(i, r, offer);
  }

  // ----- numbers, declarations and inquiries

  /** A number is settled on the largest one within the offer and the responder's limit. */
  lemma {:induction false} NumberSettles(i: Param, r: Param, offer: string) returns (m: nat)
    requires Roles(i, r) && (r.kind.Numerical? || r.kind.NumericalZ?) && offer != "?" && NoInquiries(i, r)
    ensures var z := r.kind.NumericalZ?;
            var a, b := Atoi(offer), Atoi(r.valid);
            && (m == a || m == b)
            && (if z && (a == 0 || b == 0) then m == a + b else m <= a && m <= b)
    ensures var round := Exchange(i, r, offer);
            round.ok && !round.dropped && round.offerer.value == round.responder.value == Decimal(m)
  {
    hide Exchange, Atoi, Decimal;
    m := NumberAnswer(r.kind.NumericalZ?, Atoi(offer), Atoi(r.valid));
    RoundAgreesIff(i, r, offer);
  }

  /** A declared value is what both ends have afterwards. */
  lemma {:induction false} DeclarationSettles(i: Param, r: Param, v: string)
    requires Roles(i, r) && r.kind.Declarative? && v != "?" && NoInquiries(i, r)
    ensures var round := Exchange(i, r, v);
            round.ok && !round.dropped && round.offerer.value == round.responder.value == v
  {
    hide Exchange;
    RoundAgreesIff(i, r, v);
  }

  /** An inquiry is answered with the responder's value. */
  lemma {:induction false} InquiryTells(i: Param, r: Param)
    requires Roles(i, r)
    ensures Incoming(r, "?").answer == Some(r.value)
    ensures Exchange(i, r, "?").offerer.answerRx == r.value
  {
    hide Negotiated;
  }
}
