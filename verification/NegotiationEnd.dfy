/** One end's record of a key (ISCSI_PARAMETER_T), changed in place token by token
    (`param_text_parse`). */
module NegotiationEnd {
  import opened Sequences
  import opened Numbers
  import opened Negotiation

  /** `strchr`: the first comma at or after `from`, or the length. */
  method Comma(s: string, from: nat) returns (k: nat)
    requires from <= |s|
    ensures from <= k <= |s| && k == from + IndexOf(s[from..], ',')
  {
    k := from;
    while k < |s| && s[k] != ','
      invariant from <= k <= |s|
      invariant forall j :: from <= j < k ==> s[j] != ','
    {
      k := k + 1;
    }
    IndexOfIs(s[from..], ',', k - from);
  }

  lemma {:induction false} SplitAt(s: string, from: nat)
    requires from <= |s|
    ensures var k := from + IndexOf(s[from..], ',');
            k <= |s|
            && Split(s[from..]) == [s[from..k]] + (if k == |s| then [] else Split(s[k + 1..]))
  {
    var k := IndexOf(s[from..], ',');
    assert s[from..][..k] == s[from..from + k];
    if from + k < |s| {
      assert s[from..][k + 1..] == s[from + k + 1..];
    } else {
      assert s[from..] == s[from..from + k];
      assert [s[from..]] + [] == [s[from..from + k]];
    }
  }

  lemma {:induction false} FirstInCons(v: string, rest: seq<string>, valid: seq<string>)
    ensures FirstIn([v] + rest, valid) == if v in valid then Some(v) else FirstIn(rest, valid)
  {
    assert ([v] + rest)[1..] == rest;
  }

  lemma {:induction false} FirstInNone(valid: seq<string>)
    ensures FirstIn([], valid) == None
  {
  }

  lemma {:induction false} SplitFirst(s: string)
    ensures Split(s)[0] == s[..IndexOf(s, ',')]
  {
  }

  /** The loop over the valid values. */
  method AmongValid(v: string, valid: string) returns (found: bool)
    ensures found <==> v in Split(valid)
  {
    hide Split, IndexOf;
    var p := 0;
    assert valid[0..] == valid;
    while true
      invariant p <= |valid| && (v in Split(valid) <==> v in Split(valid[p..]))
      decreases |valid| - p
    {
      var q := Comma(valid, p);
      SplitAt(valid, p);
      if valid[p..q] == v {
        return true;
      }
      if q == |valid| {
        return false;
      }
      p := q + 1;
    }
  }

  /** The loops that look for the first offer that is supported. */
  method FindAnswer(offer: string, valid: string) returns (answer: string)
    ensures answer == ListAnswer(offer, valid)
  {
    hide Split, IndexOf, FirstIn;
    var p := 0;
    assert offer[0..] == offer;
    SplitFirst(offer);
    FirstInNone(Split(valid));
    while true
      invariant p <= |offer|
      invariant valid == "" ==> p == 0
      invariant FirstIn(Split(offer), Split(valid)) == FirstIn(Split(offer[p..]), Split(valid))
      decreases |offer| - p
    {
      var q := Comma(offer, p);
      SplitAt(offer, p);
      var v := offer[p..q];
      FirstInCons(v, if q == |offer| then [] else Split(offer[q + 1..]), Split(valid));
      if valid == "" {
        return v;
      }
      var found := AmongValid(v, valid);
      if found {
        return v;
      }
      if q == |offer| {
        return "Reject";
      }
      p := q + 1;
    }
  }

  class Key {
    const kind: Type
    const valid: string
    var value: string
    var offerTx: string
    var offerRx: string
    var answerTx: string
    var answerRx: string
    var txOffer: bool
    var rxOffer: bool
    var txAnswer: bool
    var rxAnswer: bool

    ghost function State(): Param
      reads this
    {
      Param(kind, valid, value, offerTx, offerRx, answerTx, answerRx, txOffer, rxOffer, txAnswer, rxAnswer)
    }

    /** `param_list_add` */
    constructor (kind: Type, dflt: string, valid: string)
      ensures State() == Param(kind, valid, dflt, "", "", "", "", false, false, false, false)
    {
      this.kind, this.valid, value := kind, valid, dflt;
      offerTx, offerRx, answerTx, answerRx := "", "", "", "";
      txOffer, rxOffer, txAnswer, rxAnswer := false, false, false, false;
    }

    /** The answer to an offer of a type that has answers. */
    method MakeAnswer(offer: string) returns (answer: string)
      requires offer == "?" || !kind.Declarative?
      ensures AnswerTo(State(), offer) == Some(answer)
    {
      if offer == "?" {
        return value;
      }
      match kind
      case BinaryOr => answer := BinaryAnswer(offer, valid);
      case BinaryAnd => answer := BinaryAnswer(offer, valid);
      case ListOf => answer := FindAnswer(offer, valid);
      case Numerical => answer := NumericalAnswer(offer, false);
      case NumericalZ => answer := NumericalAnswer(offer, true);
    }

    method NumericalAnswer(offer: string, z: bool) returns (answer: string)
      ensures answer == Decimal(NumberAnswer(z, Atoi(offer), Atoi(valid)))
    {
      var n := DriverAtoi(offer);
      var max := DriverAtoi(valid);
      if z {
        if max == 0 {
        } else if n == 0 {
          n := max;
        } else if n > max {
          n := max;
        }
      } else if n > max {
        n := max;
      }
      answer := Decimal(n);
    }

    /** The check of a list answer, and its commitment. */
    method AcceptAnswer(v: string) returns (ok: bool)
      ensures ok <==> Acceptable(v, valid)
    {
      if v == "None" || v == "Reject" || v == "Irrelevant" || v == "NotUnderstood" {
        return true;
      }
      if valid == "" {
        return false;
      }
      ok := AmongValid(v, valid);
    }

    /** The value both texts of the exchange settle on, if they do. */
    method Settle(outgoing: bool) returns (agreed: string, status: Status)
      ensures (agreed, status) == Negotiated(State(), outgoing)
    {
      hide Split, Atoi, Decimal, NumberCommit, IsBinary, Yes, Acceptable;
      agreed, status := "", Ok;
      var v := if outgoing then offerRx else answerRx;
      var w := if outgoing then answerTx else offerTx;
      match kind
      case Declarative =>
        agreed := if outgoing then offerTx else if rxOffer then offerRx else answerRx;
      case BinaryOr =>
        if !outgoing && !IsBinary(v) && v != "Irrelevant" {
          return agreed, Warned;
        }
        agreed := if Yes(v) || Yes(w) then "Yes" else "No";
      case BinaryAnd =>
        if !outgoing && !IsBinary(v) && v != "Irrelevant" {
          return agreed, Warned;
        }
        agreed := if Yes(v) && Yes(w) then "Yes" else "No";
      case Numerical => agreed := Smaller(v, w, false);
      case NumericalZ => agreed := Smaller(v, w, true);
      case ListOf =>
        var answer := if outgoing then answerTx else answerRx;
        if (if outgoing then txOffer || !txAnswer else rxOffer || !rxAnswer) {
          return agreed, Failed;
        }
        var ok := AcceptAnswer(answer);
        if !ok {
          return agreed, Failed;
        }
        agreed := answer;
    }

    /** The label `negotiate`. */
    method Negotiate(outgoing: bool) returns (status: Status)
      modifies this`value
      ensures (State(), status) == Commit(old(State()), outgoing)
    {
      hide Negotiated;
      var agreed;
      agreed, status := Settle(outgoing);
      if !status.Ok? {
        return;
      }
      if txOffer && offerTx == "?" {
        return;
      } else if rxOffer && offerRx == "?" {
        return;
      } else if txAnswer && offerRx == "?" {
        return;
      } else if rxAnswer && offerTx == "?" {
        return;
      }
      value := agreed;
    }

    method Smaller(v: string, w: string, z: bool) returns (r: string)
      ensures r == Decimal(NumberCommit(z, Atoi(v), Atoi(w)))
    {
      var m := DriverAtoi(v);
      var n := DriverAtoi(w);
      if z && m == 0 {
        m := n;
      } else if z && n == 0 {
      } else if m > n {
        m := n;
      }
      r := Decimal(m);
    }

    /** A token of text this end is sending. */
    method Send(v: string) returns (status: Status)
      modifies this
      ensures (State(), status) == Outgoing(old(State()), v)
    {
      status := Ok;
      if rxOffer {
        txAnswer := true;
        answerTx := v;
        status := Negotiate(true);
      } else {
        txOffer := true;
        rxOffer := false;
        offerTx := v;
        if kind.Declarative? {
          status := Negotiate(true);
        }
      }
    }

    /** A token of text this end has received; the answer to add to the reply, if any. */
    method Receive(v: string) returns (answer: Option<string>, status: Status)
      modifies this
      ensures Received(State(), answer, status) == Incoming(old(State()), v)
    {
      answer, status := None, Ok;
      if txOffer {
        rxAnswer := true;
        txOffer := false;
        answerRx := v;
        status := Negotiate(false);
      } else {
        rxOffer := true;
        offerRx := v;
        if v != "?" && kind.Declarative? {
          status := Negotiate(false);
        } else {
          var a := MakeAnswer(v);
          answerTx := a;
          answer := Some(a);
        }
      }
    }
  }

  /** A whole round between two ends that share no memory but the text. */
  method ExchangeOnce(i: Key, r: Key, offer: string) returns (ok: bool, dropped: bool)
    requires i != r
    modifies i, r
    ensures Round(i.State(), r.State(), ok, dropped) == Exchange(old(i.State()), old(r.State()), offer)
  {
    var s1 := i.Send(offer);
    var answer, s2 := r.Receive(offer);
    ok := !s1.Failed? && !s2.Failed?;
    dropped := s1.Warned? || s2.Warned?;
    if answer.Some? {
      var s3 := r.Send(answer.value);
      var none, s4 := i.Receive(answer.value);
      ok := !s1.Failed? && !s3.Failed? && !s4.Failed?;
      dropped := s1.Warned? || s3.Warned? || s4.Warned?;
    }
  }
}
