/** One end of the CHAP exchange in place: the cookie's buffers and the flags of the keys
    (`param_parse_security`, parameters.c). */
module ChapEnd {
  import opened ByteOrder
  import opened Numbers
  import opened Chap
  import KeyText
  import Md5Context
  import Md5Message

  /** ISCSI_CHAP_STRING_LENGTH */
  const TEXT_SIZE := 2 * MAX_CHALLENGE + 3

  /** The three updates of the digest. */
  method Respond(id: byte, pass: seq<byte>, challenge: seq<byte>) returns (r: seq<byte>)
    requires |pass| < Md5Message.WORD && |challenge| < Md5Message.WORD
    ensures r == Md5Message.Digest([id] + pass + challenge)
  {
    var context := new Md5Context.Context();
    context.Init();
    context.Update([id]);
    context.Update(pass);
    context.Update(challenge);
    assert [] + [id] + pass + challenge == [id] + pass + challenge;
    r := context.Final();
  }

  class Cookie {
    const secrets: Secrets
    const methods: string
    const algorithms: string
    var id: byte
    const chap: array<byte>
    const resp: array<byte>
    var txOffer: set<Key>
    var rxOffer: map<Key, string>
    var rxAnswer: map<Key, string>
    var authenticated: bool

    ghost predicate Valid()
      reads this, chap, resp
    {
      && chap != resp && |secrets.initiatorPass| < Md5Message.WORD && |secrets.targetPass| < Md5Message.WORD
      && Sized(State())
    }

    ghost function State(): End
      reads this, chap, resp
    {
      End(secrets, methods, algorithms, id, chap[..], resp[..], txOffer, rxOffer, rxAnswer, authenticated)
    }

    constructor (secrets: Secrets, methods: string, algorithms: string)
      requires |secrets.initiatorPass| < Md5Message.WORD && |secrets.targetPass| < Md5Message.WORD
      ensures Valid() && fresh(chap) && fresh(resp)
      ensures State().secrets == secrets && State().methods == methods && State().algorithms == algorithms
      ensures txOffer == {} && rxOffer == map[] && rxAnswer == map[]
    {
      this.secrets, this.methods, this.algorithms := secrets, methods, algorithms;
      id, txOffer, rxOffer, rxAnswer, authenticated := 0, {}, map[], map[], false;
      chap := new byte[MAX_CHALLENGE];
      resp := new byte[RESPONSE];
    }

    method Store(buffer: array<byte>, data: seq<byte>)
      requires |data| <= buffer.Length
      modifies buffer
      ensures buffer[..] == Overlay(old(buffer[..]), data)
    {
      Md5Context.Memcpy(buffer, 0, data);
      assert buffer[..] == buffer[..|data|] + buffer[|data|..];
    }

    /** The arms of `param_parse_security`.  A wrong name or response leaves the specified
        state; when a challenge is malformed or a reply does not fit, the exchange is given
        up half-way, and nothing is said about the buffers and flags that leaves. */
    method ParseSecurity(k: Key, before: seq<Msg>, rnd: Random) returns (out: seq<Msg>, ret: Ret)
      requires Valid() && |rnd.challenge| == CHALLENGE
      requires k in rxOffer || k in rxAnswer
      requires (k == ChapC || k == ChapR) ==> Readable(if k in rxOffer then rxOffer[k] else rxAnswer[k])
      modifies this, chap, resp
      ensures ret == Security(old(State()), k, before, rnd).ret
      ensures ret != Error || k == ChapN || k == ChapR ==> Parsed(State(), out, ret) == Security(old(State()), k, before, rnd)
    {
      hide HexText, HexData, HexWritten, Md5Message.Digest, TextLength, Decimal, Atoi;
      out, ret := [], More;
      var offered := k in rxOffer;
      var text := if offered then rxOffer[k] else rxAnswer[k];
      match k {
        case AuthMethod =>
          if k in rxAnswer && rxAnswer[k] == "None" {
            ret := Finished;
          } else if offered {
            ret := if text == "None" then Finished else Nothing;
          } else {
            txOffer := txOffer + {ChapA};
            rxOffer := rxOffer - {ChapA};
            out := [Msg(ChapA, algorithms)];
          }
        case ChapA =>
          if offered {
            txOffer := txOffer - {ChapI, ChapC};
            rxOffer := rxOffer - {ChapI, ChapC};
            id := rnd.id;
            Store(chap, rnd.challenge);
            var fits, c := HexDataToText(rnd.challenge, TEXT_SIZE);
            out := [Msg(ChapA, text), Msg(ChapI, Decimal(id)), Msg(ChapC, c)];
          } else {
            ret := Nothing;
          }
        case ChapI =>
          var n := DriverAtoi(text);
          id := n % 256;
        case ChapC =>
          out, ret := ParseChallenge(text, offered, rnd);
        case ChapN =>
          if k in rxAnswer {
            if rxAnswer[k] != secrets.targetUser { ret := Error; }
          } else {
            if text != secrets.initiatorUser { ret := Error; }
          }
        case ChapR =>
          var expected := Respond(id, if offered then secrets.initiatorPass else secrets.targetPass, chap[..CHALLENGE]);
          Store(chap, expected);
          Store(resp, HexWritten(text, RESPONSE));
          ret := if resp[..] == expected then Finished else Error;
      }
      if TextLength(before + out) > KeyText.MAX_TEXT && out != [] {
        ret := Error;
      }
    }

    /** The arm for CHAP_C, up to the size of the reply. */
    method ParseChallenge(text: string, offered: bool, rnd: Random) returns (out: seq<Msg>, ret: Ret)
      requires Valid() && |rnd.challenge| == CHALLENGE && Readable(text)
      modifies this, chap
      ensures resp[..] == old(resp[..])
      ensures var d := HexData(text, if offered then MAX_CHALLENGE else CHALLENGE);
              if d.None? then ret == Error && out == []
              else |d.value| <= MAX_CHALLENGE
                   && Parsed(State(), out, ret) == AnswerChallenge(old(State()), d.value, offered, rnd)
    {
      hide HexText, HexData, HexWritten, Md5Message.Digest, Decimal;
      out, ret := [], More;
      var d := HexTextToData(text, if offered then MAX_CHALLENGE else CHALLENGE);
      HexDataFits(text, if offered then MAX_CHALLENGE else CHALLENGE);
      if d.None? {
        return [], Error;
      }
      Store(chap, d.value);
      var user := if offered then secrets.initiatorUser else secrets.targetUser;
      var pass := if offered then secrets.initiatorPass else secrets.targetPass;
      txOffer := txOffer + {ChapN, ChapR};
      rxOffer := rxOffer - {ChapN, ChapR};
      var response := Respond(id, pass, d.value);
      Store(chap, response);
      var fits, r := HexDataToText(response, TEXT_SIZE);
      out := [Msg(ChapN, user), Msg(ChapR, r)];
      if offered && secrets.targetUser != "" {
        txOffer := txOffer - {ChapI, ChapC};
        rxOffer := rxOffer - {ChapI, ChapC};
        id := rnd.id;
        Store(chap, rnd.challenge);
        var fitsToo, c := HexDataToText(rnd.challenge, TEXT_SIZE);
        out := out + [Msg(ChapI, Decimal(id)), Msg(ChapC, c)];
      }
    }
  }
}
