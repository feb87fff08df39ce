/** The whole CHAP exchange between two ends running the same code. */
module ChapTheorems {
  import opened Sequences
  import opened ByteOrder
  import opened Numbers
  import opened Chap
  import Negotiation
  import KeyText
  import Md5Message

  /** An end before the exchange, with the values the source configures. */
  predicate Starts(e: End, methods: string) {
    && Sized(e) && e.txOffer == {} && e.rxOffer == map[] && e.rxAnswer == map[]
    && e.methods == methods && e.algorithms == "5"
  }

  const INITIATOR_METHODS := "None,CHAP"

  const TARGET_METHODS := "CHAP,None"

  predicate Ready(r: Random) {
    |r.challenge| == CHALLENGE
  }

  // ----- the values that travel

  lemma {:induction false} Lists()
    ensures Negotiation.ListAnswer("CHAP", TARGET_METHODS) == "CHAP"
    ensures Negotiation.Acceptable("CHAP", INITIATOR_METHODS)
    ensures Negotiation.Acceptable("CHAP", TARGET_METHODS)
    ensures Negotiation.Acceptable("5", "5")
  {
    hide Negotiation.Split, Negotiation.ListAnswer, Negotiation.Acceptable;
    assert "CHAP" + [','] + "None" == TARGET_METHODS && "None" + [','] + "CHAP" == INITIATOR_METHODS;
    OneOfTwo("CHAP", "None");
    OneOfOne("5");
  }

  lemma {:induction false} OneOfOne(v: string)
    requires ',' !in v && v != ""
    ensures Negotiation.Acceptable(v, v)
  {
    hide Negotiation.Split, Negotiation.Special;
    ListOfOne(v);
    assert v in [v];
  }

  lemma {:induction false} OneOfTwo(v: string, w: string)
    requires ',' !in v && ',' !in w
    ensures Negotiation.ListAnswer(v, v + [','] + w) == v
    ensures Negotiation.ListAnswer(v, w + [','] + v) == v
    ensures Negotiation.Acceptable(v, v + [','] + w) && Negotiation.Acceptable(v, w + [','] + v)
  {
    hide Negotiation.Split, Negotiation.Special;
    ListOfOne(v);
    ListOfTwo(v, w);
    ListOfTwo(w, v);
    assert v in [v, w] && v in [w, v];
  }

  lemma {:induction false} ListOfOne(v: string)
    requires ',' !in v
    ensures Negotiation.Split(v) == [v]
  {
    NoComma(v, |v|);
    IndexOfIs(v, ',', |v|);
  }

  lemma {:induction false} NoComma(v: string, n: nat)
    requires ',' !in v && n <= |v|
    ensures forall k :: 0 <= k < n ==> v[k] != ','
  {
    forall k | 0 <= k < n ensures v[k] != ',' {
      assert v[k] in v;
    }
  }

  lemma {:induction false} ListOfTwo(v: string, w: string)
    requires ',' !in v && ',' !in w
    ensures Negotiation.Split(v + [','] + w) == [v, w]
  {
    var s := v + [','] + w;
    NoComma(v, |v|);
    forall k | 0 <= k < |v| ensures s[k] != ',' {
      assert s[k] == v[k];
    }
    IndexOfIs(s, ',', |v|);
    assert s[..|v|] == v && s[|v| + 1..] == w;
    ListOfOne(w);
  }

  lemma {:induction false} IdText(id: byte)
    ensures Atoi(Decimal(id)) % 256 == id && |Decimal(id)| <= 3
  {
    AtoiDecimal(id);
    assert |Decimal(id)| == if id < 10 then 1 else 1 + |Decimal(id / 10)|;
    assert |Decimal(id / 10)| == if id / 10 < 10 then 1 else 1 + |Decimal(id / 10 / 10)|;
  }

  lemma {:induction false} BytesText(d: seq<byte>)
    requires |d| == 16
    ensures Readable(HexText(d)) && |HexText(d)| == 34
    ensures HexData(HexText(d), MAX_CHALLENGE) == Some(d)
    ensures HexData(HexText(d), 16) == Some(d) && HexWritten(HexText(d), 16) == d
  {
    HexRoundTrip(d, MAX_CHALLENGE);
    HexRoundTrip(d, 16);
    AllWritten(HexText(d), 16);
  }

  // ----- turn by turn

  const METHOD := [Msg(AuthMethod, "CHAP")]

  /** The initiator's opening offer. */
  lemma {:induction false} Opening(i: End)
    requires Starts(i, INITIATOR_METHODS)
    ensures SendAll(i, METHOD) == Step(i.(txOffer := {AuthMethod}), [], Ok)
  {
    assert METHOD[1..] == [];
    assert SendAll(i.(txOffer := {AuthMethod}), []) == Step(i.(txOffer := {AuthMethod}), [], Ok);
    assert i.txOffer + {AuthMethod} == {AuthMethod};
  }

  lemma {:induction false} ParseOne(e: End, m: Msg, before: seq<Msg>, rnd: Random)
    requires Sized(e) && Ready(rnd) && Legible(m)
    ensures ParseAll(e, [m], before, rnd)
         == var s := Incoming(e, m, before, rnd); Step(s.end, before + s.out, s.status)
  {
    assert [m][1..] == [];
  }

  lemma {:induction false} SendOne(e: End, m: Msg)
    requires Sized(e)
    ensures SendAll(e, [m]) == var s := Outgoing(e, m); if s.status.Ok? then Step(s.end, [], Ok) else s
  {
    assert [m][1..] == [];
  }

  /** A turn of one message. */
  lemma {:induction false} TurnOne(e: End, m: Msg, rnd: Random, e1: End, reply: Msg, e2: End)
    requires Sized(e) && Ready(rnd) && Legible(m) && Sized(e1)
    requires Incoming(e, m, [], rnd) == Step(e1, [reply], Ok)
    requires Outgoing(e1, reply) == Step(e2, [], Ok)
    ensures AllLegible([m]) && Turn(e, [m], rnd) == Step(e2, [reply], Ok)
  {
    hide Incoming, Outgoing;
    ParseOne(e, m, [], rnd);
    assert [] + [reply] == [reply];
    SendOne(e1, reply);
  }

  lemma {:induction false} NotNone()
    ensures "CHAP" != "None"
  {
    assert "CHAP"[0] != "None"[0];
  }

  /** The target chooses CHAP. */
  lemma {:induction false} Turn1(t: End, rnd: Random)
    requires Starts(t, TARGET_METHODS) && Ready(rnd)
    ensures AllLegible(METHOD)
    ensures Turn(t, METHOD, rnd) == Step(t.(rxOffer := map[AuthMethod := "CHAP"]), METHOD, Ok)
  {
    hide Turn, ParseAll, SendAll, Negotiation.ListAnswer, Negotiation.Acceptable;
    Lists();
    NotNone();
    var t1 := t.(rxOffer := map[AuthMethod := "CHAP"]);
    assert t.rxOffer[AuthMethod := "CHAP"] == map[AuthMethod := "CHAP"];
    TurnOne(t, METHOD[0], rnd, t1, METHOD[0], t1);
  }

  /** The initiator offers the algorithm. */
  lemma {:induction false} Turn2(i: End, rnd: Random)
    requires Starts(i, INITIATOR_METHODS) && Ready(rnd)
    ensures AllLegible(METHOD) && Sized(i.(txOffer := {AuthMethod}))
    ensures Turn(i.(txOffer := {AuthMethod}), METHOD, rnd)
         == Step(i.(txOffer := {ChapA}, rxAnswer := map[AuthMethod := "CHAP"]), [Msg(ChapA, "5")], Ok)
  {
    hide Turn, ParseAll, SendAll, TextLength, KeyName, Negotiation.Acceptable, Negotiation.Split;
    var e := i.(txOffer := {AuthMethod});
    var e2 := i.(txOffer := {ChapA}, rxAnswer := map[AuthMethod := "CHAP"]);
    TakeMethod(e, rnd);
    assert {ChapA} + {ChapA} == {ChapA};
    TurnOne(e, METHOD[0], rnd, e2, Msg(ChapA, "5"), e2);
  }

  /** The target takes an offer of no authentication, marks the session authenticated, and
      says so; the initiator takes that answer. */
  lemma {:induction false} NoneSettles(i: End, t: End, rnd: Random)
    requires Starts(i, INITIATOR_METHODS) && Starts(t, TARGET_METHODS) && Ready(rnd)
    ensures var none := Msg(AuthMethod, "None");
            && AllLegible([none])
            && Turn(t, [none], rnd)
               == Step(t.(rxOffer := map[AuthMethod := "None"], authenticated := true), [none], Ok)
            && Incoming(i.(txOffer := {AuthMethod}), none, [], rnd)
               == Step(i.(rxAnswer := map[AuthMethod := "None"]), [], Ok)
  {
    hide Turn, ParseAll, SendAll, Negotiation.ListAnswer, Negotiation.Acceptable;
    var none := Msg(AuthMethod, "None");
    assert "CHAP" + [','] + "None" == TARGET_METHODS && "None" + [','] + "CHAP" == INITIATOR_METHODS;
    OneOfTwo("None", "CHAP");
    var t1 := t.(rxOffer := map[AuthMethod := "None"], authenticated := true);
    assert t.rxOffer[AuthMethod := "None"] == map[AuthMethod := "None"];
    assert i.rxAnswer[AuthMethod := "None"] == map[AuthMethod := "None"];
    assert {AuthMethod} - {AuthMethod} == {};
    TurnOne(t, none, rnd, t1, none, t1);
  }

  lemma {:induction false} TakeMethod(e: End, rnd: Random)
    requires Sized(e) && Ready(rnd) && e.txOffer == {AuthMethod} && e.rxOffer == map[] && e.rxAnswer == map[]
    requires e.methods == INITIATOR_METHODS && e.algorithms == "5"
    ensures Incoming(e, METHOD[0], [], rnd)
         == Step(e.(txOffer := {ChapA}, rxAnswer := map[AuthMethod := "CHAP"]), [Msg(ChapA, "5")], Ok)
  {
    hide Turn, ParseAll, SendAll, TextLength, KeyName, Negotiation.Acceptable, Negotiation.Split;
    Lists();
    NotNone();
    assert e.rxAnswer[AuthMethod := "CHAP"] == map[AuthMethod := "CHAP"];
    assert e.txOffer - {AuthMethod} == {} && {} + {ChapA} == {ChapA};
    assert e.rxOffer - {ChapA} == e.rxOffer;
    LengthOne(Msg(ChapA, "5"));
  }

  lemma {:induction false} LengthOne(m: Msg)
    ensures TextLength([] + [m]) == |KeyName(m.key)| + |m.value| + 2
    ensures |KeyName(m.key)| <= 10
  {
    assert [] + [m] == [m] && [m][1..] == [];
  }

  lemma {:induction false} ParseCons(e: End, m: Msg, rest: seq<Msg>, before: seq<Msg>, rnd: Random)
    requires Sized(e) && Ready(rnd) && AllLegible([m] + rest)
    ensures Legible(m) && AllLegible(rest)
    ensures var s := Incoming(e, m, before, rnd);
            ParseAll(e, [m] + rest, before, rnd)
            == if s.status.Ok? then ParseAll(s.end, rest, before + s.out, rnd)
               else Step(s.end, before + s.out, s.status)
  {
    hide Incoming;
    assert ([m] + rest)[0] == m && ([m] + rest)[1..] == rest;
    forall k | 0 <= k < |rest| ensures Legible(rest[k]) {
      assert rest[k] == ([m] + rest)[k + 1];
    }
  }

  lemma {:induction false} ParseNone(e: End, before: seq<Msg>, rnd: Random)
    requires Sized(e) && Ready(rnd)
    ensures ParseAll(e, [], before, rnd) == Step(e, before, Ok)
  {
  }

  lemma {:induction false} SendCons(e: End, m: Msg, rest: seq<Msg>)
    requires Sized(e)
    ensures var s := Outgoing(e, m);
            SendAll(e, [m] + rest) == if s.status.Ok? then SendAll(s.end, rest) else s
  {
    hide Outgoing;
    assert ([m] + rest)[0] == m && ([m] + rest)[1..] == rest;
  }

  /** Keys not yet offered by the other end are sent as offers. */
  lemma {:induction false} SendOffers(e: End, ms: seq<Msg>)
    requires Sized(e) && forall k :: 0 <= k < |ms| ==> ms[k].key !in e.rxOffer
    ensures SendAll(e, ms) == Step(e.(txOffer := e.txOffer + KeysOf(ms)), [], Ok)
    decreases |ms|
  {
    if ms == [] {
      assert e.txOffer + KeysOf([]) == e.txOffer;
    } else {
      var e1 := e.(txOffer := e.txOffer + {ms[0].key});
      SendOffers(e1, ms[1..]);
      assert e1.txOffer + KeysOf(ms[1..]) == e.txOffer + KeysOf(ms);
    }
  }

  function KeysOf(ms: seq<Msg>): set<Key> {
    if ms == [] then {} else {ms[0].key} + KeysOf(ms[1..])
  }

  /** What a challenge looks like. */
  function Challenge(rnd: Random): seq<Msg> {
    [Msg(ChapI, Decimal(rnd.id)), Msg(ChapC, HexText(rnd.challenge))]
  }

  function Reply(user: string, response: seq<byte>): seq<Msg> {
    [Msg(ChapN, user), Msg(ChapR, HexText(response))]
  }

  lemma {:induction false} LengthCons(m: Msg, rest: seq<Msg>)
    ensures TextLength([m] + rest) == |KeyName(m.key)| + |m.value| + 2 + TextLength(rest)
  {
    assert ([m] + rest)[0] == m && ([m] + rest)[1..] == rest;
  }

  lemma {:induction false} LengthNone()
    ensures TextLength([]) == 0
    ensures forall k: Key :: |KeyName(k)| <= 10
  {
  }

  lemma {:induction false} ChallengeOk(rnd: Random)
    requires Ready(rnd)
    ensures TextLength(Challenge(rnd)) <= 65 && AllLegible(Challenge(rnd))
  {
    hide TextLength, KeyName, Decimal, HexText;
    IdText(rnd.id);
    BytesText(rnd.challenge);
    LengthNone();
    var c := Msg(ChapC, HexText(rnd.challenge));
    LengthCons(c, []);
    LengthCons(Msg(ChapI, Decimal(rnd.id)), [c]);
    assert [c] + [] == [c];
    assert Challenge(rnd) == [Msg(ChapI, Decimal(rnd.id))] + [c];
  }

  lemma {:induction false} ReplyOk(user: string, response: seq<byte>, rest: seq<Msg>)
    requires |response| == 16 && AllLegible(rest)
    ensures TextLength(Reply(user, response) + rest) <= |user| + 60 + TextLength(rest)
    ensures AllLegible(Reply(user, response) + rest)
  {
    hide TextLength, KeyName, HexText;
    BytesText(response);
    LengthNone();
    var r := Msg(ChapR, HexText(response));
    LengthCons(r, rest);
    LengthCons(Msg(ChapN, user), [r] + rest);
    assert Reply(user, response) + rest == [Msg(ChapN, user)] + ([r] + rest);
  }

  /** A challenge is out: its identifier and bytes are the cookie's. */
  predicate Challenging(e: End, rnd: Random) {
    && Sized(e) && Ready(rnd)
    && e.id == rnd.id && e.chap[..CHALLENGE] == rnd.challenge
    && ChapI in e.txOffer && ChapC in e.txOffer
  }

  lemma {:induction false} OverlayFirst(buffer: seq<byte>, data: seq<byte>)
    requires |data| == 16 <= |buffer|
    ensures Overlay(buffer, data)[..16] == data
  {
  }

  // ----- what is refused

  /** A reply as the pairs of the text that travels. */
  function WirePairs(ms: seq<Msg>): seq<KeyText.Pair> {
    if ms == [] then []
    else
      [KeyText.Pair(match ms[0].key
                    case AuthMethod => "AuthMethod"
                    case ChapA => "CHAP_A"
                    case ChapI => "CHAP_I"
                    case ChapC => "CHAP_C"
                    case ChapN => "CHAP_N"
                    case ChapR => "CHAP_R", ms[0].value)] + WirePairs(ms[1..])
  }

  lemma {:induction false} WireLength(ms: seq<Msg>)
    ensures TextLength(ms) == |KeyText.Text(WirePairs(ms))|
    ensures |WirePairs(ms)| == |ms|
    ensures forall i :: 0 <= i < |ms| ==> WirePairs(ms)[i] == KeyText.Pair(KeyName(ms[i].key), ms[i].value)
  {
    if ms != [] {
      WireLength(ms[1..]);
      assert WirePairs(ms)[1..] == WirePairs(ms[1..]);
    }
  }

  /** An answer to AuthMethod that is not among the end's own methods, nor a word every end
      takes, ends the negotiation. */
  lemma {:induction false} OtherMethodFails(e: End, other: string, rnd: Random)
    requires Sized(e) && Ready(rnd) && AuthMethod in e.txOffer && |e.algorithms| <= 4000
    requires other !in Negotiation.Split(e.methods)
    requires other != "None" && other != "Reject" && other != "Irrelevant" && other != "NotUnderstood"
    ensures Incoming(e, Msg(AuthMethod, other), [], rnd).status == Failed
  {
    hide TextLength, KeyName, Negotiation.Split;
    LengthOne(Msg(ChapA, e.algorithms));
  }

  /** So does an algorithm the target is offered, echoes, and does not have. */
  lemma {:induction false} OtherAlgorithmFails(e: End, algorithm: string)
    requires Sized(e) && ChapA in e.rxOffer && algorithm !in Negotiation.Split(e.algorithms)
    requires algorithm != "None" && algorithm != "Reject" && algorithm != "Irrelevant" && algorithm != "NotUnderstood"
    ensures Outgoing(e, Msg(ChapA, algorithm)).status == Failed
  {
    hide Negotiation.Split;
  }

  // ----- the target challenges

  /** The target answers the algorithm and sends its challenge. */
  lemma {:induction false} Turn3(e: End, rnd: Random)
    requires Sized(e) && Ready(rnd) && e.txOffer == {} && e.algorithms == "5" && e.rxAnswer == map[]
    requires e.rxOffer == map[AuthMethod := "CHAP"]
    ensures AllLegible([Msg(ChapA, "5")])
    ensures var s := Turn(e, [Msg(ChapA, "5")], rnd);
            && s.status == Ok && s.out == [Msg(ChapA, "5")] + Challenge(rnd)
            && Challenging(s.end, rnd) && s.end.txOffer == {ChapI, ChapC}
            && s.end.rxOffer == map[AuthMethod := "CHAP", ChapA := "5"]
            && s.end.rxAnswer == map[] && s.end.secrets == e.secrets && s.end.algorithms == e.algorithms
  {
    hide ParseAll, SendAll, Incoming, Outgoing, TextLength, HexText, Decimal, Challenge;
    var m := Msg(ChapA, "5");
    ParseOne(e, m, [], rnd);
    TargetChallenges(e, rnd);
    var s := Incoming(e, m, [], rnd);
    assert [] + s.out == s.out;
    SendChallenge(s.end, rnd);
  }

  /** Whatever was offered before, a new challenge is a new offer. */
  lemma {:induction false} ChallengeResets(e: End, algorithm: string, before: seq<Msg>, rnd: Random)
    requires Sized(e) && Ready(rnd) && ChapA !in e.txOffer
    ensures var e1 := Incoming(e, Msg(ChapA, algorithm), before, rnd).end;
            && ChapI !in e1.txOffer && ChapC !in e1.txOffer && ChapI !in e1.rxOffer && ChapC !in e1.rxOffer
            && e1.id == rnd.id && e1.chap == rnd.challenge + e.chap[CHALLENGE..]
  {
    hide TextLength, HexText, Decimal;
  }

  lemma {:induction false} SendChallenge(e: End, rnd: Random)
    requires Sized(e) && e.txOffer == {} && e.algorithms == "5"
    requires e.rxOffer == map[AuthMethod := "CHAP", ChapA := "5"]
    ensures SendAll(e, [Msg(ChapA, "5")] + Challenge(rnd)) == Step(e.(txOffer := {ChapI, ChapC}), [], Ok)
  {
    hide SendAll, Outgoing, HexText, Decimal, Negotiation.Acceptable, Negotiation.ListAnswer, KeysOf, TextLength;
    Lists();
    SendCons(e, Msg(ChapA, "5"), Challenge(rnd));
    EchoSent(e);
    ChallengeKeys(rnd);
    assert forall k :: 0 <= k < |Challenge(rnd)| ==> Challenge(rnd)[k].key !in e.rxOffer;
    SendOffers(e, Challenge(rnd));
    assert e.txOffer + {ChapI, ChapC} == {ChapI, ChapC};
  }

  lemma {:induction false} ChallengeKeys(rnd: Random)
    ensures KeysOf(Challenge(rnd)) == {ChapI, ChapC}
  {
    var c := Challenge(rnd);
    assert c[1..][1..] == [];
    assert KeysOf(c) == {ChapI} + KeysOf(c[1..]);
    assert KeysOf(c[1..]) == {ChapC} + KeysOf([]);
  }

  lemma {:induction false} EchoSent(e: End)
    requires Sized(e) && ChapA in e.rxOffer && ChapA !in e.txOffer && e.algorithms == "5"
    requires Negotiation.Acceptable("5", "5")
    ensures Outgoing(e, Msg(ChapA, "5")) == Step(e, [], Ok)
  {
    hide Negotiation.Acceptable;
  }

  lemma {:induction false} TargetChallenges(e: End, rnd: Random)
    requires Sized(e) && Ready(rnd) && e.txOffer == {} && e.rxOffer == map[AuthMethod := "CHAP"]
    ensures var e1 := e.(rxOffer := map[AuthMethod := "CHAP", ChapA := "5"], id := rnd.id,
                         chap := Overlay(e.chap, rnd.challenge));
            Incoming(e, Msg(ChapA, "5"), [], rnd) == Step(e1, [Msg(ChapA, "5")] + Challenge(rnd), Ok)
            && e1.chap[..CHALLENGE] == rnd.challenge
  {
    hide TextLength, HexText, Decimal, Overlay;
    OverlayFirst(e.chap, rnd.challenge);
    var m := Msg(ChapA, "5");
    ChallengeOk(rnd);
    LengthNone();
    LengthCons(m, Challenge(rnd));
    var out := [m] + Challenge(rnd);
    assert [] + out == out;
    assert out == [Msg(ChapA, "5"), Msg(ChapI, Decimal(rnd.id)), Msg(ChapC, HexText(rnd.challenge))];
    assert e.txOffer - {ChapI, ChapC} == e.txOffer;
    var rx := e.rxOffer[ChapA := "5"];
    assert rx == map[AuthMethod := "CHAP", ChapA := "5"];
    assert rx - {ChapI, ChapC} == rx;
  }

  // ----- the initiator answers, and challenges in turn

  /** The initiator has offered the algorithm and waits for the challenge. */
  predicate Waiting(e: End) {
    && Sized(e) && e.txOffer == {ChapA} && e.rxOffer == map[] && e.algorithms == "5"
    && ChapN !in e.rxAnswer && ChapR !in e.rxAnswer
  }

  lemma {:induction false} TakeAlgorithm(e: End, rnd: Random)
    requires Waiting(e) && Ready(rnd)
    ensures Incoming(e, Msg(ChapA, "5"), [], rnd)
         == Step(e.(txOffer := {}, rxAnswer := e.rxAnswer[ChapA := "5"]), [], Ok)
  {
    Lists();
    hide Negotiation.Acceptable;
    assert e.txOffer - {ChapA} == {};
  }

  lemma {:induction false} TakeId(e: End, id: byte, before: seq<Msg>, rnd: Random)
    requires Sized(e) && Ready(rnd)
    ensures var s := Incoming(e, Msg(ChapI, Decimal(id)), before, rnd);
            && s.out == [] && s.status == Ok
            && s.end == if ChapI in e.txOffer then e.(txOffer := e.txOffer - {ChapI},
                                                      rxAnswer := e.rxAnswer[ChapI := Decimal(id)], id := id)
                        else e.(rxOffer := e.rxOffer[ChapI := Decimal(id)], id := id)
  {
    hide Decimal, Atoi;
    IdText(id);
  }

  /** The answer of either end to the challenge. */
  function Answer(e: End, challenge: seq<byte>, initiator: bool, rnd: Random): seq<Msg> {
    var s := e.secrets;
    var user := if initiator then s.initiatorUser else s.targetUser;
    var pass := if initiator then s.initiatorPass else s.targetPass;
    Reply(user, Md5Message.Digest([e.id] + pass + challenge))
    + if initiator && s.targetUser != "" then Challenge(rnd) else []
  }

  /** How long the answer is as text: 50 characters and the name, and 50 more and the digits
      of the identifier for a challenge. */
  function AnswerSize(e: End, initiator: bool, rnd: Random): nat {
    var s := e.secrets;
    |if initiator then s.initiatorUser else s.targetUser| + 50
    + if initiator && s.targetUser != "" then 50 + |Decimal(rnd.id)| else 0
  }

  lemma {:induction false} ReplySize(user: string, response: seq<byte>, rest: seq<Msg>)
    requires |response| == 16
    ensures TextLength(Reply(user, response) + rest) == |user| + 50 + TextLength(rest)
  {
    hide TextLength, HexText;
    BytesText(response);
    var r := Msg(ChapR, HexText(response));
    LengthCons(r, rest);
    LengthCons(Msg(ChapN, user), [r] + rest);
    assert Reply(user, response) + rest == [Msg(ChapN, user)] + ([r] + rest);
    NameLengths();
  }

  lemma {:induction false} NameLengths()
    ensures |KeyName(ChapN)| == |KeyName(ChapR)| == |KeyName(ChapI)| == |KeyName(ChapC)| == 6
  {
  }

  lemma {:induction false} ChallengeSize(rnd: Random)
    requires Ready(rnd)
    ensures TextLength(Challenge(rnd)) == 50 + |Decimal(rnd.id)|
  {
    hide TextLength, HexText, Decimal;
    BytesText(rnd.challenge);
    var c := Msg(ChapC, HexText(rnd.challenge));
    LengthCons(c, []);
    LengthCons(Msg(ChapI, Decimal(rnd.id)), [c]);
    assert [c] + [] == [c];
    assert Challenge(rnd) == [Msg(ChapI, Decimal(rnd.id))] + [c];
    NameLengths();
    LengthNone();
  }

  lemma {:induction false} AnswerLength(e: End, challenge: seq<byte>, initiator: bool, rnd: Random)
    requires Ready(rnd)
    ensures TextLength(Answer(e, challenge, initiator, rnd)) == AnswerSize(e, initiator, rnd)
    ensures AllLegible(Answer(e, challenge, initiator, rnd))
  {
    hide TextLength, Md5Message.Digest, Challenge, Reply;
    ChallengeOk(rnd);
    ChallengeSize(rnd);
    LengthNone();
    var s := e.secrets;
    var user := if initiator then s.initiatorUser else s.targetUser;
    var response := Md5Message.Digest([e.id] + (if initiator then s.initiatorPass else s.targetPass) + challenge);
    ReplyOk(user, response, if initiator && s.targetUser != "" then Challenge(rnd) else []);
    ReplySize(user, response, if initiator && s.targetUser != "" then Challenge(rnd) else []);
  }

  /** Taking the challenge itself. */
  lemma {:induction false} TakeChallenge(e: End, challenge: seq<byte>, rnd: Random)
    requires Sized(e) && Ready(rnd) && |challenge| == CHALLENGE
    ensures Legible(Msg(ChapC, HexText(challenge)))
    ensures var initiator := ChapC !in e.txOffer;
            var e1 := if initiator then e.(rxOffer := e.rxOffer[ChapC := HexText(challenge)])
                      else e.(txOffer := e.txOffer - {ChapC}, rxAnswer := e.rxAnswer[ChapC := HexText(challenge)]);
            var s := Incoming(e, Msg(ChapC, HexText(challenge)), [], rnd);
            if AnswerSize(e, initiator, rnd) <= KeyText.MAX_TEXT then
              s == Step(AnswerChallenge(e1, challenge, initiator, rnd).end, Answer(e, challenge, initiator, rnd), Ok)
            else
              s.status == AuthFailed && (!initiator ==> s.end.authenticated == e.authenticated)
  {
    hide TextLength, Md5Message.Digest, Overlay, HexText, Decimal, HexData;
    BytesText(challenge);
    var initiator := ChapC !in e.txOffer;
    AnswerLength(e, challenge, initiator, rnd);
    var a := Answer(e, challenge, initiator, rnd);
    assert [] + a == a;
    AnswerIs(e, challenge, initiator, rnd);
  }

  lemma {:induction false} AnswerIs(e: End, challenge: seq<byte>, initiator: bool, rnd: Random)
    requires Sized(e) && Ready(rnd) && |challenge| == CHALLENGE
    ensures AnswerChallenge(e, challenge, initiator, rnd).out == Answer(e, challenge, initiator, rnd)
    ensures AnswerChallenge(e, challenge, initiator, rnd).ret == More
  {
    hide Md5Message.Digest, Overlay, HexText, Decimal;
    var r := Reply(if initiator then e.secrets.initiatorUser else e.secrets.targetUser,
                   Md5Message.Digest([e.id] + (if initiator then e.secrets.initiatorPass else e.secrets.targetPass)
                                     + challenge));
    assert r + [] == r;
  }

  /** The initiator after its answer: name and response are offered, and its own challenge
      is out if it knows a target user. */
  predicate Answered(e: End, secrets: Secrets, rnd: Random) {
    && Sized(e) && e.secrets == secrets
    && ChapN in e.txOffer && ChapR in e.txOffer && ChapN !in e.rxOffer && ChapR !in e.rxOffer
    && (secrets.targetUser != "" ==> Challenging(e, rnd))
  }

  lemma {:induction false} ParseChallenge(e: End, rt: Random, ri: Random)
    requires Waiting(e) && Ready(rt) && Ready(ri)
    ensures AllLegible([Msg(ChapA, "5")] + Challenge(rt))
    ensures var e2 := e.(txOffer := {}, rxAnswer := e.rxAnswer[ChapA := "5"], id := rt.id,
                         rxOffer := map[ChapI := Decimal(rt.id), ChapC := HexText(rt.challenge)]);
            var s := ParseAll(e, [Msg(ChapA, "5")] + Challenge(rt), [], ri);
            if AnswerSize(e, true, ri) <= KeyText.MAX_TEXT then
              s == Step(AnswerChallenge(e2, rt.challenge, true, ri).end, Answer(e2, rt.challenge, true, ri), Ok)
            else s.status == AuthFailed
  {
    hide ParseAll, Incoming, AnswerChallenge, TextLength, HexText, Decimal, Answer;
    ChallengeOk(rt);
    var c := Msg(ChapC, HexText(rt.challenge));
    var e1 := e.(txOffer := {}, rxAnswer := e.rxAnswer[ChapA := "5"]);
    var e1' := e1.(id := rt.id, rxOffer := map[ChapI := Decimal(rt.id)]);
    TakeAlgorithm(e, ri);
    ParseCons(e, Msg(ChapA, "5"), Challenge(rt), [], ri);
    TakeId(e1, rt.id, [], ri);
    assert e1.rxOffer[ChapI := Decimal(rt.id)] == map[ChapI := Decimal(rt.id)];
    assert Challenge(rt) == [Msg(ChapI, Decimal(rt.id))] + [c];
    ParseCons(e1, Msg(ChapI, Decimal(rt.id)), [c], [], ri);
    assert Step(e1, [], Ok).out + [] == [];
    TakeChallenge(e1', rt.challenge, ri);
    ParseOne(e1', c, [], ri);
    assert e1'.rxOffer[ChapC := HexText(rt.challenge)] == map[ChapI := Decimal(rt.id), ChapC := HexText(rt.challenge)];
    var a := Answer(e1', rt.challenge, true, ri);
    assert [] + a == a;
    SameAnswer(e1', e1'.(rxOffer := map[ChapI := Decimal(rt.id), ChapC := HexText(rt.challenge)]), rt.challenge, true, ri);
  }

  lemma {:induction false} SameAnswer(e: End, e': End, challenge: seq<byte>, initiator: bool, rnd: Random)
    requires e.secrets == e'.secrets && e.id == e'.id
    ensures Answer(e, challenge, initiator, rnd) == Answer(e', challenge, initiator, rnd)
  {
  }

  lemma {:induction false} AnswerKeys(e: End, challenge: seq<byte>, initiator: bool, rnd: Random)
    ensures KeysOf(Answer(e, challenge, initiator, rnd))
         == {ChapN, ChapR} + if initiator && e.secrets.targetUser != "" then {ChapI, ChapC} else {}
    ensures forall k :: 0 <= k < |Answer(e, challenge, initiator, rnd)| ==>
              Answer(e, challenge, initiator, rnd)[k].key in KeysOf(Answer(e, challenge, initiator, rnd))
  {
    hide Md5Message.Digest, HexText, Decimal;
    var a := Answer(e, challenge, initiator, rnd);
    assert KeysOf(a) == {ChapN} + KeysOf(a[1..]);
    assert KeysOf(a[1..]) == {ChapR} + KeysOf(a[1..][1..]);
    if initiator && e.secrets.targetUser != "" {
      assert a[1..][1..] == Challenge(rnd);
      ChallengeKeys(rnd);
    } else {
      assert a[1..][1..] == [];
    }
  }

  /** What `AnswerChallenge` leaves. */
  lemma {:induction false} AnswerLeaves(e: End, challenge: seq<byte>, initiator: bool, rnd: Random)
    requires Sized(e) && Ready(rnd) && |challenge| == CHALLENGE
    ensures var e1 := AnswerChallenge(e, challenge, initiator, rnd).end;
            && e1.secrets == e.secrets && e1.algorithms == e.algorithms && e1.authenticated == e.authenticated
            && ChapN in e1.txOffer && ChapR in e1.txOffer && ChapN !in e1.rxOffer && ChapR !in e1.rxOffer
            && e1.rxAnswer == e.rxAnswer
            && (initiator && e.secrets.targetUser != "" ==> ChapI !in e1.txOffer && ChapC !in e1.txOffer)
            && (initiator && e.secrets.targetUser != "" ==>
                  e1.id == rnd.id && e1.chap[..CHALLENGE] == rnd.challenge
                  && ChapI !in e1.rxOffer && ChapC !in e1.rxOffer)
  {
    hide Md5Message.Digest, HexText, Decimal, Overlay;
    var pass := if initiator then e.secrets.initiatorPass else e.secrets.targetPass;
    OverlayFirst(Overlay(Overlay(e.chap, challenge), Md5Message.Digest([e.id] + pass + challenge)), rnd.challenge);
  }

  /** The initiator answers the challenge, if the answer fits a text. */
  lemma {:induction false} Turn4(e: End, rt: Random, ri: Random)
    requires Waiting(e) && Ready(rt) && Ready(ri)
    ensures AllLegible([Msg(ChapA, "5")] + Challenge(rt))
    ensures var s := Turn(e, [Msg(ChapA, "5")] + Challenge(rt), ri);
            && (s.status == Ok <==> AnswerSize(e, true, ri) <= KeyText.MAX_TEXT)
            && (s.status == Ok ==> s.out == Answer(e.(id := rt.id), rt.challenge, true, ri)
                                   && Answered(s.end, e.secrets, ri))
  {
    hide ParseAll, SendAll, AnswerChallenge, HexText, Decimal, Answer, KeysOf, Challenge;
    ParseChallenge(e, rt, ri);
    var e2 := e.(txOffer := {}, rxAnswer := e.rxAnswer[ChapA := "5"], id := rt.id,
                 rxOffer := map[ChapI := Decimal(rt.id), ChapC := HexText(rt.challenge)]);
    var e3 := AnswerChallenge(e2, rt.challenge, true, ri).end;
    AnswerLeaves(e2, rt.challenge, true, ri);
    AnswerKeys(e2, rt.challenge, true, ri);
    SendOffers(e3, Answer(e2, rt.challenge, true, ri));
    SameAnswer(e2, e.(id := rt.id), rt.challenge, true, ri);
  }

  // ----- the target checks, and answers in turn

  lemma {:induction false} TakeName(e: End, user: string, rnd: Random)
    requires Sized(e) && Ready(rnd) && (ChapN in e.txOffer || ChapN !in e.rxAnswer)
    ensures var s := Incoming(e, Msg(ChapN, user), [], rnd);
            && s.out == [] && Sized(s.end) && s.end.secrets == e.secrets && s.end.id == e.id
            && s.end.chap == e.chap && s.end.algorithms == e.algorithms
            && (s.status == Ok <==> user == if ChapN in e.txOffer then e.secrets.targetUser else e.secrets.initiatorUser)
            && (s.status != Ok ==> s.status == AuthFailed)
            && (s.status != Ok && ChapN !in e.txOffer ==> !s.end.authenticated)
            && s.end.txOffer == e.txOffer - {ChapN}
            && (forall k :: k != ChapN ==> (k in s.end.rxOffer <==> k in e.rxOffer))
            && (forall k :: k != ChapN ==> (k in s.end.rxAnswer <==> k in e.rxAnswer))
  {
  }

  /** The check of a response uses the identifier and the challenge in the cookie. */
  lemma {:induction false} TakeResponse(e: End, response: seq<byte>, rnd: Random)
    requires Sized(e) && Ready(rnd) && |response| == RESPONSE
    ensures Legible(Msg(ChapR, HexText(response)))
    ensures var s := Incoming(e, Msg(ChapR, HexText(response)), [], rnd);
            var pass := if ChapR in e.txOffer then e.secrets.targetPass else e.secrets.initiatorPass;
            && s.out == [] && Sized(s.end) && s.end.secrets == e.secrets && s.end.algorithms == e.algorithms
            && (s.status == Ok <==> response == Md5Message.Digest([e.id] + pass + e.chap[..CHALLENGE]))
            && (s.status != Ok ==> s.status == AuthFailed)
            && (ChapR !in e.txOffer ==> (s.status == Ok <==> s.end.authenticated))
            && s.end.resp == response && s.end.id == e.id
            && s.end.chap == Md5Message.Digest([e.id] + pass + e.chap[..CHALLENGE]) + e.chap[RESPONSE..]
            && s.end.txOffer == e.txOffer - {ChapR}
            && (forall k :: k != ChapR ==> (k in s.end.rxOffer <==> k in e.rxOffer))
            && (forall k :: k != ChapR ==> (k in s.end.rxAnswer <==> k in e.rxAnswer))
  {
    hide HexText, HexWritten, Md5Message.Digest, Decimal;
    BytesText(response);
    OverlayAll(e.resp, response);
  }

  lemma {:induction false} OverlayAll(buffer: seq<byte>, data: seq<byte>)
    requires |data| == |buffer|
    ensures Overlay(buffer, data) == data
  {
  }

  /** The user and the secret an end expects of the other, by who offered first. */
  function Expected(e: End): (string, seq<byte>) {
    (if ChapN in e.txOffer then e.secrets.targetUser else e.secrets.initiatorUser,
     if ChapR in e.txOffer then e.secrets.targetPass else e.secrets.initiatorPass)
  }

  predicate Genuine(e: End, user: string, response: seq<byte>)
    requires Sized(e)
  {
    user == Expected(e).0 && response == Md5Message.Digest([e.id] + Expected(e).1 + e.chap[..CHALLENGE])
  }

  /** Name and response are taken exactly when both are what the end expects. */
  lemma {:induction false} ParseReply(e: End, user: string, response: seq<byte>, rest: seq<Msg>, rnd: Random)
    returns (e2: End)
    requires Sized(e) && Ready(rnd) && |response| == RESPONSE && AllLegible(rest)
    requires ChapN in e.txOffer || ChapN !in e.rxAnswer
    ensures AllLegible(Reply(user, response) + rest)
    ensures Sized(e2) && e2.secrets == e.secrets && e2.algorithms == e.algorithms
    ensures Genuine(e, user, response) && ChapR !in e.txOffer ==> e2.authenticated
    ensures e2.txOffer == e.txOffer - {ChapN, ChapR}
    ensures forall k :: k != ChapN && k != ChapR ==> (k in e2.rxOffer <==> k in e.rxOffer)
    ensures var s := ParseAll(e, Reply(user, response) + rest, [], rnd);
            if Genuine(e, user, response) then s == ParseAll(e2, rest, [], rnd)
            else s.status == AuthFailed && (ChapN !in e.txOffer && ChapR !in e.txOffer ==> !s.end.authenticated)
  {
    hide ParseAll, Incoming, HexText, Md5Message.Digest, TextLength;
    ReplyOk(user, response, rest);
    var n, r := Msg(ChapN, user), Msg(ChapR, HexText(response));
    assert Reply(user, response) + rest == [n] + ([r] + rest);
    ParseCons(e, n, [r] + rest, [], rnd);
    TakeName(e, user, rnd);
    var e1 := Incoming(e, n, [], rnd).end;
    ParseCons(e1, r, rest, [], rnd);
    TakeResponse(e1, response, rnd);
    e2 := Incoming(e1, r, [], rnd).end;
    assert e1.txOffer - {ChapR} == e.txOffer - {ChapN, ChapR};
    var none: seq<Msg> := [];
    assert none + none == none;
  }

  /** The target that has challenged, before it hears the answer. */
  predicate Listening(e: End, rnd: Random) {
    && Challenging(e, rnd) && e.txOffer == {ChapI, ChapC} && e.rxAnswer == map[]
    && ChapI !in e.rxOffer && ChapC !in e.rxOffer && ChapN !in e.rxOffer && ChapR !in e.rxOffer
  }

  /** The target takes the initiator's challenge and answers it. */
  lemma {:induction false} ParseCounter(e: End, ri: Random, rt: Random)
    requires Sized(e) && Ready(ri) && Ready(rt)
    requires e.txOffer == {ChapI, ChapC}
    ensures AllLegible(Challenge(ri))
    ensures var s := ParseAll(e, Challenge(ri), [], rt);
            && s.end.authenticated == e.authenticated
            && if AnswerSize(e, false, rt) <= KeyText.MAX_TEXT then
                 && s.status == Ok && s.out == Answer(e.(id := ri.id), ri.challenge, false, rt)
                 && ChapN !in s.end.rxOffer && ChapR !in s.end.rxOffer
               else s.status == AuthFailed
  {
    hide ParseAll, Incoming, AnswerChallenge, TextLength, HexText, Decimal, Answer;
    ChallengeOk(ri);
    var c := Msg(ChapC, HexText(ri.challenge));
    assert Challenge(ri) == [Msg(ChapI, Decimal(ri.id))] + [c];
    ParseCons(e, Msg(ChapI, Decimal(ri.id)), [c], [], rt);
    TakeId(e, ri.id, [], rt);
    var e1 := Incoming(e, Msg(ChapI, Decimal(ri.id)), [], rt).end;
    var none: seq<Msg> := [];
    assert none + none == none;
    TakeChallenge(e1, ri.challenge, rt);
    ParseOne(e1, c, [], rt);
    var e2 := e1.(txOffer := e1.txOffer - {ChapC}, rxAnswer := e1.rxAnswer[ChapC := HexText(ri.challenge)]);
    var a := Answer(e1, ri.challenge, false, rt);
    assert [] + a == a;
    AnswerLeaves(e2, ri.challenge, false, rt);
    SameAnswer(e1, e.(id := ri.id), ri.challenge, false, rt);
  }

  /** The target's check, and its answer if it was challenged. */
  lemma {:induction false} Turn5(e: End, user: string, response: seq<byte>, counter: bool, ri: Random, rt: Random, now: Random)
    requires Listening(e, rt) && Ready(ri) && Ready(now) && |response| == RESPONSE
    ensures var ms := Reply(user, response) + if counter then Challenge(ri) else [];
            AllLegible(ms)
            && var s := Turn(e, ms, now);
            && (s.status == Ok
                <==> Genuine(e, user, response) && (counter ==> AnswerSize(e, false, now) <= KeyText.MAX_TEXT))
            && (s.status != Ok ==> s.status == AuthFailed)
            && (Genuine(e, user, response) <==> s.end.authenticated)
            && (s.status == Ok ==> s.out == if counter then Answer(e.(id := ri.id), ri.challenge, false, now) else [])
  {
    hide ParseAll, SendAll, Incoming, HexText, Md5Message.Digest, Challenge, Reply, Answer, KeysOf, TextLength, Decimal;
    if counter { ChallengeOk(ri); }
    var e2 := ParseReply(e, user, response, if counter then Challenge(ri) else [], now);
    assert e.txOffer - {ChapN, ChapR} == {ChapI, ChapC};
    if Genuine(e, user, response) {
      if counter {
        ParseCounter(e2, ri, now);
        var s := ParseAll(e2, Challenge(ri), [], now);
        AnswerKeys(e2.(id := ri.id), ri.challenge, false, now);
        SameAnswer(e2.(id := ri.id), e.(id := ri.id), ri.challenge, false, now);
        if s.status == Ok { SendOffers(s.end, s.out); }
      } else {
        ParseNone(e2, [], now);
        SendNone(e2);
      }
    }
  }

  lemma {:induction false} SendNone(e: End)
    requires Sized(e)
    ensures SendAll(e, []) == Step(e, [], Ok)
  {
  }

  /** The initiator's check. */
  lemma {:induction false} Turn6(e: End, user: string, response: seq<byte>, rnd: Random)
    requires Sized(e) && Ready(rnd) && |response| == RESPONSE && ChapN in e.txOffer
    ensures AllLegible(Reply(user, response))
    ensures var s := Turn(e, Reply(user, response), rnd);
            && (s.status == Ok <==> Genuine(e, user, response))
            && (s.status == Ok ==> s.out == [])
  {
    hide ParseAll, SendAll, Incoming, HexText, Md5Message.Digest, Reply, TextLength;
    var e2 := ParseReply(e, user, response, [], rnd);
    assert Reply(user, response) + [] == Reply(user, response);
    ParseNone(e2, [], rnd);
    SendNone(e2);
  }

  // ----- the whole exchange

  /** The two ends in turn, from turn `k` on, until nothing is left to say or one of them
      gives up; `rnds` is what each turn draws. */
  function Converse(a: End, b: End, ms: seq<Msg>, rnds: seq<Random>, k: nat): Status
    requires Sized(a) && Sized(b) && forall j :: 0 <= j < |rnds| ==> Ready(rnds[j])
    requires AllLegible(ms)
    decreases |rnds| - k
  {
    if ms == [] || k >= |rnds| then Ok
    else
      assert Ready(rnds[k]);
      var s := Turn(b, ms, rnds[k]);
      if !s.status.Ok? then s.status
      else if !AllLegible(s.out) then Failed
      else Converse(s.end, a, s.out, rnds, k + 1)
  }

  /** The first two ends of the exchange agree on the secrets that count. */
  predicate Matching(i: Secrets, t: Secrets, ti: Random, ii: Random) {
    && i.initiatorUser == t.initiatorUser
    && Md5Message.Digest([ti.id] + i.initiatorPass + ti.challenge)
       == Md5Message.Digest([ti.id] + t.initiatorPass + ti.challenge)
    && (i.targetUser != "" ==>
          && i.targetUser == t.targetUser
          && Md5Message.Digest([ii.id] + i.targetPass + ii.challenge)
             == Md5Message.Digest([ii.id] + t.targetPass + ii.challenge))
  }

  /** The last two turns: each end checks the other. */
  lemma {:induction false} LastTurns(i: End, t: End, s: Secrets, rnds: seq<Random>)
    requires |rnds| >= 6 && forall k :: 0 <= k < |rnds| ==> Ready(rnds[k])
    requires Answered(i, s, rnds[3]) && Listening(t, rnds[2])
    ensures var ms := Reply(s.initiatorUser, Md5Message.Digest([rnds[2].id] + s.initiatorPass + rnds[2].challenge))
                      + (if s.targetUser != "" then Challenge(rnds[3]) else []);
            && AllLegible(ms)
            && (Converse(i, t, ms, rnds, 4) == Ok
                <==> Matching(s, t.secrets, rnds[2], rnds[3])
                     && (s.targetUser != "" ==> |t.secrets.targetUser| + 50 <= KeyText.MAX_TEXT))
  {
    hide Turn, Md5Message.Digest, Challenge, Reply, AllLegible, Answer;
    var response := Md5Message.Digest([rnds[2].id] + s.initiatorPass + rnds[2].challenge);
    var counter := s.targetUser != "";
    var ms := Reply(s.initiatorUser, response) + (if counter then Challenge(rnds[3]) else []);
    Turn5(t, s.initiatorUser, response, counter, rnds[3], rnds[2], rnds[4]);
    var s5 := Turn(t, ms, rnds[4]);
    ReplyNotEmpty(s.initiatorUser, response, if counter then Challenge(rnds[3]) else []);
    if s5.status == Ok {
      if counter {
        var back := Md5Message.Digest([rnds[3].id] + t.secrets.targetPass + rnds[3].challenge);
        CounterReply(t, rnds[3], rnds[4]);
        Turn6(i, t.secrets.targetUser, back, rnds[5]);
        ReplyNotEmpty(t.secrets.targetUser, back, []);
        ConverseLast(i, s5.end, Reply(t.secrets.targetUser, back), rnds);
      } else {
        LegibleNone();
      }
    }
  }

  lemma {:induction false} LegibleNone()
    ensures AllLegible([])
  {
  }

  lemma {:induction false} ReplyNotEmpty(user: string, response: seq<byte>, rest: seq<Msg>)
    ensures Reply(user, response) + rest != []
    ensures Reply(user, response) != []
  {
  }

  lemma {:induction false} CounterReply(t: End, ri: Random, now: Random)
    ensures Answer(t.(id := ri.id), ri.challenge, false, now)
         == Reply(t.secrets.targetUser, Md5Message.Digest([ri.id] + t.secrets.targetPass + ri.challenge))
  {
    var r := Reply(t.secrets.targetUser, Md5Message.Digest([ri.id] + t.secrets.targetPass + ri.challenge));
    assert r + [] == r;
  }

  /** The turn that ends the exchange. */
  lemma {:induction false} ConverseLast(i: End, t: End, ms: seq<Msg>, rnds: seq<Random>)
    requires |rnds| >= 6 && forall k :: 0 <= k < |rnds| ==> Ready(rnds[k])
    requires Sized(i) && Sized(t) && AllLegible(ms) && ms != []
    requires Ready(rnds[5]) && (Turn(i, ms, rnds[5]).status == Ok ==> Turn(i, ms, rnds[5]).out == [])
    ensures Converse(t, i, ms, rnds, 5) == Ok <==> Turn(i, ms, rnds[5]).status == Ok
  {
    hide Turn;
  }

  /** The exchange between the two ends ends well exactly when the replies fit a text, each
      end's name is the one the other expects and the MD5 digests of identifier, secret
      and challenge are the same at both; for any names, identifiers and challenges, and
      for one-way authentication too. */
  lemma {:induction false} ExchangeSucceedsIff(i: End, t: End, rnds: seq<Random>)
    requires Starts(i, INITIATOR_METHODS) && Starts(t, TARGET_METHODS)
    requires |rnds| >= 6 && forall k :: 0 <= k < |rnds| ==> Ready(rnds[k])
    ensures SendAll(i, METHOD).status == Ok && AllLegible(METHOD)
    ensures Converse(SendAll(i, METHOD).end, t, METHOD, rnds, 0) == Ok
            <==> && |i.secrets.initiatorUser|
                    + (if i.secrets.targetUser == "" then 50 else 100 + |Decimal(rnds[3].id)|) <= 4096
                 && i.secrets.initiatorUser == t.secrets.initiatorUser
                 && Md5Message.Digest([rnds[2].id] + i.secrets.initiatorPass + rnds[2].challenge)
                    == Md5Message.Digest([rnds[2].id] + t.secrets.initiatorPass + rnds[2].challenge)
                 && (i.secrets.targetUser != "" ==>
                       && i.secrets.targetUser == t.secrets.targetUser && |t.secrets.targetUser| + 50 <= 4096
                       && Md5Message.Digest([rnds[3].id] + i.secrets.targetPass + rnds[3].challenge)
                          == Md5Message.Digest([rnds[3].id] + t.secrets.targetPass + rnds[3].challenge))
  {
    hide Turn, Converse, Md5Message.Digest, Challenge, Reply, Answer, HexText, Decimal, SendAll, ParseAll, AllLegible;
    assert forall k :: 0 <= k < 6 ==> Ready(rnds[k]);
    Opening(i);
    var i1 := i.(txOffer := {AuthMethod});
    var t1 := t.(rxOffer := map[AuthMethod := "CHAP"]);
    var i2 := i.(txOffer := {ChapA}, rxAnswer := map[AuthMethod := "CHAP"]);
    var offer := [Msg(ChapA, "5")];
    Turn1(t, rnds[0]);
    Turn2(i, rnds[1]);
    Turn3(t1, rnds[2]);
    var s3 := Turn(t1, offer, rnds[2]);
    Turn4(i2, rnds[2], rnds[3]);
    var s4 := Turn(i2, s3.out, rnds[3]);
    AnswerSpelled(i2.(id := rnds[2].id), rnds[2].challenge, rnds[3]);
    ConverseStep(i1, t, METHOD, rnds, 0);
    ConverseStep(t1, i1, METHOD, rnds, 1);
    ConverseStep(i2, t1, offer, rnds, 2);
    if s4.status == Ok {
      LastTurns(s4.end, s3.end, i.secrets, rnds);
      ConverseStep(s3.end, i2, s3.out, rnds, 3);
    } else {
      ConverseFails(s3.end, i2, s3.out, rnds, 3);
    }
  }

  lemma {:induction false} AnswerSpelled(e: End, challenge: seq<byte>, rnd: Random)
    ensures Answer(e, challenge, true, rnd)
         == Reply(e.secrets.initiatorUser, Md5Message.Digest([e.id] + e.secrets.initiatorPass + challenge))
            + (if e.secrets.targetUser != "" then Challenge(rnd) else [])
  {
  }

  lemma {:induction false} ConverseStep(a: End, b: End, ms: seq<Msg>, rnds: seq<Random>, k: nat)
    requires Sized(a) && Sized(b) && (forall j :: 0 <= j < |rnds| ==> Ready(rnds[j])) && AllLegible(ms)
    requires ms != [] && k < |rnds| && Ready(rnds[k])
    requires var s := Turn(b, ms, rnds[k]); s.status == Ok && AllLegible(s.out)
    ensures var s := Turn(b, ms, rnds[k]);
            Converse(a, b, ms, rnds, k) == Converse(s.end, a, s.out, rnds, k + 1)
  {
    hide Turn, AllLegible;
  }

  lemma {:induction false} ConverseFails(a: End, b: End, ms: seq<Msg>, rnds: seq<Random>, k: nat)
    requires Sized(a) && Sized(b) && (forall j :: 0 <= j < |rnds| ==> Ready(rnds[j])) && AllLegible(ms)
    requires ms != [] && k < |rnds| && Ready(rnds[k]) && Turn(b, ms, rnds[k]).status != Ok
    ensures Converse(a, b, ms, rnds, k) != Ok
  {
    hide Turn, AllLegible;
  }

  lemma {:induction false} MiddleCancels(id: byte, p: seq<byte>, q: seq<byte>, challenge: seq<byte>)
    requires p != q
    ensures [id] + p + challenge != [id] + q + challenge
  {
    var x, y := [id] + p + challenge, [id] + q + challenge;
    assert p == x[1..1 + |p|] && q == y[1..1 + |q|];
  }

  /** Different secrets for one user end well only at a collision of the digest. */
  lemma {:induction false} DifferentSecretsCollide(i: End, t: End, rnds: seq<Random>)
    requires Starts(i, INITIATOR_METHODS) && Starts(t, TARGET_METHODS)
    requires |rnds| >= 6 && forall k :: 0 <= k < |rnds| ==> Ready(rnds[k])
    requires AllLegible(METHOD) && Converse(SendAll(i, METHOD).end, t, METHOD, rnds, 0) == Ok
    ensures i.secrets.initiatorPass != t.secrets.initiatorPass
            || (i.secrets.targetUser != "" && i.secrets.targetPass != t.secrets.targetPass)
            ==> exists x, y :: x != y && Md5Message.Digest(x) == Md5Message.Digest(y)
  {
    hide Converse, SendAll, Md5Message.Digest;
    ExchangeSucceedsIff(i, t, rnds);
    if i.secrets.initiatorPass != t.secrets.initiatorPass {
      MiddleCancels(rnds[2].id, i.secrets.initiatorPass, t.secrets.initiatorPass, rnds[2].challenge);
    } else if i.secrets.targetUser != "" && i.secrets.targetPass != t.secrets.targetPass {
      MiddleCancels(rnds[3].id, i.secrets.targetPass, t.secrets.targetPass, rnds[3].challenge);
    }
  }

  /** With the same users and secrets at both ends, and names that fit, the exchange always
      succeeds. */
  lemma {:induction false} SameSecretsSucceed(i: End, t: End, rnds: seq<Random>)
    requires Starts(i, INITIATOR_METHODS) && Starts(t, TARGET_METHODS)
    requires i.secrets == t.secrets && |i.secrets.initiatorUser| <= 3993 && |i.secrets.targetUser| <= 4046
    requires |rnds| >= 6 && forall k :: 0 <= k < |rnds| ==> Ready(rnds[k])
    ensures AllLegible(METHOD) && Converse(SendAll(i, METHOD).end, t, METHOD, rnds, 0) == Ok
  {
    hide Converse, SendAll, Decimal;
    assert Ready(rnds[3]);
    IdText(rnds[3].id);
    ExchangeSucceedsIff(i, t, rnds);
  }
}
