/** Mutual CHAP (`param_parse_security` and the flags of `param_text_parse`,
    parameters.c).  Each end keeps one identifier and one challenge buffer, which serve
    both directions in turn. */
module Chap {
  import opened ByteOrder
  import opened Numbers
  import KeyText
  import Negotiation
  import Md5Message

  datatype Key = AuthMethod | ChapA | ChapI | ChapC | ChapN | ChapR

  datatype Msg = Msg(key: Key, value: string)

  datatype Secrets = Secrets(
    initiatorUser: string, initiatorPass: seq<byte>, targetUser: string, targetPass: seq<byte>)

  /** What `GenRandomData` gives while one text is parsed. */
  datatype Random = Random(id: byte, challenge: seq<byte>)

  const CHALLENGE := 16

  const RESPONSE := 16

  const MAX_CHALLENGE := 1024

  /** One end of the exchange.  `rxOffer` and `rxAnswer` hold the text received for the
      keys whose flag is set; id, chap and resp are the cookie. */
  datatype End = End(
    secrets: Secrets, methods: string, algorithms: string,
    id: byte, chap: seq<byte>, resp: seq<byte>,
    txOffer: set<Key>, rxOffer: map<Key, string>, rxAnswer: map<Key, string>,
    authenticated: bool)

  /** An offer of a key is outstanding in one direction at most. */
  predicate Sized(e: End) {
    && |e.chap| == MAX_CHALLENGE && |e.resp| == RESPONSE
    && forall k :: k in e.txOffer ==> k !in e.rxOffer
  }

  /** The return values of `param_parse_security`: negative, 0, 1 and more. */
  datatype Ret = Error | Finished | Nothing | More

  datatype Parsed = Parsed(end: End, out: seq<Msg>, ret: Ret)

  function KeyName(k: Key): string {
    match k
    case AuthMethod => "AuthMethod"
    case ChapA => "CHAP_A"
    case ChapI => "CHAP_I"
    case ChapC => "CHAP_C"
    case ChapN => "CHAP_N"
    case ChapR => "CHAP_R"
  }

  function TextLength(ms: seq<Msg>): nat {
    if ms == [] then 0 else |KeyName(ms[0].key)| + |ms[0].value| + 2 + TextLength(ms[1..])
  }

  /** Bytes stored at the start of a buffer. */
  function Overlay(buffer: seq<byte>, data: seq<byte>): (r: seq<byte>)
    requires |data| <= |buffer|
    ensures |r| == |buffer|
  {
    data + buffer[|data|..]
  }

  function Response(id: byte, pass: seq<byte>, challenge: seq<byte>): (r: seq<byte>)
    ensures |r| == RESPONSE
  {
    Md5Message.Digest([id] + pass + challenge)
  }

  /** Text `HexTextToData` does not read past the end of. */
  predicate Readable(s: string) {
    s != "" && (s[0] == '0' ==> |s| >= 2)
  }

  // ----- one key

  /** The part of each end in answering a challenge: name and response, and from the
      initiator, if it knows a target user, a challenge of its own. */
  function AnswerChallenge(e: End, challenge: seq<byte>, initiator: bool, rnd: Random): (p: Parsed)
    requires Sized(e) && |challenge| <= MAX_CHALLENGE && |rnd.challenge| == CHALLENGE
    ensures Sized(p.end)
  {
    var user := if initiator then e.secrets.initiatorUser else e.secrets.targetUser;
    var pass := if initiator then e.secrets.initiatorPass else e.secrets.targetPass;
    var response := Response(e.id, pass, challenge);
    var e1 := e.(chap := Overlay(Overlay(e.chap, challenge), response),
                 txOffer := e.txOffer + {ChapN, ChapR},
                 rxOffer := e.rxOffer - {ChapN, ChapR});
    var out := [Msg(ChapN, user), Msg(ChapR, HexText(response))];
    if initiator && e.secrets.targetUser != "" then
      Parsed(e1.(id := rnd.id, chap := Overlay(e1.chap, rnd.challenge),
                 txOffer := e1.txOffer - {ChapI, ChapC}, rxOffer := e1.rxOffer - {ChapI, ChapC}),
             out + [Msg(ChapI, Decimal(rnd.id)), Msg(ChapC, HexText(rnd.challenge))], More)
    else
      Parsed(e1, out, More)
  }

  /** `param_parse_security`, for the key whose text has just been recorded; `before` is
      what the reply holds already. */
  function Security(e: End, k: Key, before: seq<Msg>, rnd: Random): (r: Parsed)
    requires Sized(e) && |rnd.challenge| == CHALLENGE
    requires k in e.rxOffer || k in e.rxAnswer
    requires (k == ChapC || k == ChapR) ==> Readable(if k in e.rxOffer then e.rxOffer[k] else e.rxAnswer[k])
    ensures Sized(r.end)
  {
    var offered := k in e.rxOffer;
    var text := if offered then e.rxOffer[k] else e.rxAnswer[k];
    match k
    case AuthMethod =>
      if k in e.rxAnswer && e.rxAnswer[k] == "None" then Parsed(e, [], Finished)
      else if offered then Parsed(e, [], if text == "None" then Finished else Nothing)
      else
        Fitting(before, Parsed(e.(txOffer := e.txOffer + {ChapA}, rxOffer := e.rxOffer - {ChapA}),
                               [Msg(ChapA, e.algorithms)], More))
    case ChapA =>
      if offered then
        Fitting(before, Parsed(e.(id := rnd.id, chap := Overlay(e.chap, rnd.challenge),
                                  txOffer := e.txOffer - {ChapI, ChapC}, rxOffer := e.rxOffer - {ChapI, ChapC}),
                               [Msg(ChapA, text), Msg(ChapI, Decimal(rnd.id)), Msg(ChapC, HexText(rnd.challenge))], More))
      else Parsed(e, [], Nothing)
    case ChapI => Parsed(e.(id := Atoi(text) % 256), [], More)
    case ChapC =>
      (match HexData(text, if offered then MAX_CHALLENGE else CHALLENGE)
       case None => Parsed(e, [], Error)
       case Some(challenge) =>
         HexDataFits(text, if offered then MAX_CHALLENGE else CHALLENGE);
         Fitting(before, AnswerChallenge(e, challenge, offered, rnd)))
    case ChapN =>
      if k in e.rxAnswer then
        Parsed(e, [], if e.rxAnswer[k] == e.secrets.targetUser then More else Error)
      else
        Parsed(e, [], if text == e.secrets.initiatorUser then More else Error)
    case ChapR =>
      var pass := if offered then e.secrets.initiatorPass else e.secrets.targetPass;
      var expected := Response(e.id, pass, e.chap[..CHALLENGE]);
      var got := Overlay(e.resp, HexWritten(text, RESPONSE));
      Parsed(e.(chap := Overlay(e.chap, expected), resp := got), [], if got == expected then Finished else Error)
  }

  lemma {:induction false} PairsFit(s: string, room: nat)
    ensures HexPairs(s, room).Some? ==> |HexPairs(s, room).value| <= room
  {
    if |s| >= 2 && room > 0 { PairsFit(s[2..], room - 1); }
  }

  lemma {:induction false} HexDataFits(text: string, room: nat)
    requires Readable(text)
    ensures HexData(text, room).Some? ==> |HexData(text, room).value| <= room
  {
    var s := if text[0] == '0' then text[2..] else text;
    PairsFit(s, room);
    if |s| % 2 == 1 && room > 0 { PairsFit(s[1..], room - 1); }
  }

  /** The reply must stay within the size of a text. */
  function Fitting(before: seq<Msg>, p: Parsed): Parsed {
    if TextLength(before + p.out) <= KeyText.MAX_TEXT then p else p.(ret := Error)
  }

  // ----- one token, through `param_text_parse`

  datatype Status = Ok | Failed | AuthFailed

  datatype Step = Step(end: End, out: seq<Msg>, status: Status)

  predicate Listed(k: Key) {
    k == AuthMethod || k == ChapA
  }

  function ValidOf(e: End, k: Key): string {
    if k == AuthMethod then e.methods else e.algorithms
  }

  predicate Legible(m: Msg) {
    m.key == ChapC || m.key == ChapR ==> Readable(m.value)
  }

  function Incoming(e: End, m: Msg, before: seq<Msg>, rnd: Random): (s: Step)
    requires Sized(e) && |rnd.challenge| == CHALLENGE && Legible(m)
    ensures Sized(s.end)
  {
    var k := m.key;
    if k in e.txOffer then
      var e1 := e.(txOffer := e.txOffer - {k}, rxAnswer := e.rxAnswer[k := m.value]);
      var p := Security(e1, k, before, rnd);
      if p.ret.Error? then Step(p.end, p.out, AuthFailed)
      else if Listed(k) && !Negotiation.Acceptable(m.value, ValidOf(e, k)) then Step(p.end, p.out, Failed)
      else Step(p.end, p.out, Ok)
    else
      var e1 := e.(rxOffer := e.rxOffer[k := m.value]);
      var p := Security(e1, k, before, rnd);
      match p.ret
      case More => Step(p.end, p.out, Ok)
      case Error => Step(p.end.(authenticated := false), p.out, AuthFailed)
      case _ =>
        var e2 := if p.ret.Finished? then p.end.(authenticated := true) else p.end;
        Step(e2, p.out + (if Listed(k) then [Msg(k, Negotiation.ListAnswer(m.value, ValidOf(e, k)))] else []), Ok)
  }

  function Outgoing(e: End, m: Msg): (s: Step)
    requires Sized(e)
    ensures Sized(s.end)
  {
    if m.key in e.rxOffer then
      Step(e, [], if Listed(m.key) && (m.key in e.txOffer || !Negotiation.Acceptable(m.value, ValidOf(e, m.key)))
                  then Failed else Ok)
    else
      Step(e.(txOffer := e.txOffer + {m.key}), [], Ok)
  }

  // ----- one turn: a text is parsed, the reply is parsed as it is sent

  predicate AllLegible(ms: seq<Msg>) {
    forall i :: 0 <= i < |ms| ==> Legible(ms[i])
  }

  function ParseAll(e: End, ms: seq<Msg>, before: seq<Msg>, rnd: Random): (s: Step)
    requires Sized(e) && |rnd.challenge| == CHALLENGE && AllLegible(ms)
    ensures Sized(s.end)
    decreases |ms|
  {
    if ms == [] then Step(e, before, Ok)
    else
      var s := Incoming(e, ms[0], before, rnd);
      if !s.status.Ok? then Step(s.end, before + s.out, s.status)
      else ParseAll(s.end, ms[1..], before + s.out, rnd)
  }

  function SendAll(e: End, ms: seq<Msg>): (s: Step)
    requires Sized(e)
    ensures Sized(s.end)
    decreases |ms|
  {
    if ms == [] then Step(e, [], Ok)
    else
      var s := Outgoing(e, ms[0]);
      if !s.status.Ok? then s else SendAll(s.end, ms[1..])
  }

  function Turn(e: End, ms: seq<Msg>, rnd: Random): (s: Step)
    requires Sized(e) && |rnd.challenge| == CHALLENGE && AllLegible(ms)
    ensures Sized(s.end)
  {
    var s := ParseAll(e, ms, [], rnd);
    if !s.status.Ok? then s
    else
      var sent := SendAll(s.end, s.out);
      Step(sent.end, s.out, sent.status)
  }
}
