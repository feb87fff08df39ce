/** The text of login and text commands (parameters.c): `key=value` pairs, each closed by
    a NUL, written by `param_text_add` and taken apart by the loop of
    `param_text_parse`. */
module KeyText {
  import opened Sequences

  const NUL: char := '\0'

  const MAX_TEXT := 4096

  datatype Pair = Pair(key: string, value: string)

  /** ISCSI_PARAM_KEY_LEN */
  const KEY_LEN := 64

  /** One token of the text. */
  datatype Token = Found(pair: Pair) | NoDelimiter(token: string)

  /** What the loop goes on with: a pair; a key that is too long, answered NotUnderstood or
      ignored; or, for a first token without '=', a key and a value never set. */
  datatype Item = Handled(pair: Pair) | TooLong(key: string) | Unset

  function PairText(p: Pair): (t: string)
    ensures |t| == |p.key| + |p.value| + 2
  {
    p.key + "=" + p.value + [NUL]
  }

  function Text(ps: seq<Pair>): string {
    if ps == [] then "" else PairText(ps[0]) + Text(ps[1..])
  }

  function TokenOf(t: string): Token {
    var k := IndexOf(t, '=');
    if k < |t| then Found(Pair(t[..k], t[k + 1..])) else NoDelimiter(t)
  }

  /** The tokens of the first `n` characters of a buffer: NULs are skipped, a token runs
      to the next NUL, which may lie beyond the `n` characters. */
  function Tokens(s: string, n: nat): seq<Token>
    requires n <= |s|
    decreases |s|
  {
    if n == 0 then []
    else if s[0] == NUL then Tokens(s[1..], n - 1)
    else
      var k := IndexOf(s, NUL);
      [TokenOf(s[..k])] + if k + 1 >= n then [] else Tokens(s[k + 1..], n - k - 1)
  }

  /** What a token is taken for; `last` is what the key and the value hold.  One without
      '=' is the last pair once more. */
  function ItemOf(t: Token, last: Option<Pair>): Item {
    match t
    case Found(p) => if |p.key| >= KEY_LEN - 1 then TooLong(p.key) else Handled(p)
    case NoDelimiter(_) => if last.None? then Unset else Handled(last.value)
  }

  function LastOf(t: Token, last: Option<Pair>): Option<Pair> {
    if t.Found? && |t.pair.key| < KEY_LEN - 1 then Some(t.pair) else last
  }

  function Items(ts: seq<Token>, last: Option<Pair>): seq<Item> {
    if ts == [] then [] else [ItemOf(ts[0], last)] + Items(ts[1..], LastOf(ts[0], last))
  }

  function Padding(n: nat): (s: string)
    ensures |s| == n
  {
    seq(n, i => NUL)
  }

  lemma {:induction false} TokensOfPadding(s: string, n: nat)
    requires n <= |s| && forall i :: 0 <= i < n ==> s[i] == NUL
    ensures Tokens(s, n) == []
    decreases n
  {
    if n > 0 {
      TokensOfPadding(s[1..], n - 1);
    }
  }

  // ----- the exact domain of the round trip

  /** The key reads back: no '=' and no NUL in the key, no NUL in the value. */
  ghost predicate Plain(p: Pair) {
    '=' !in p.key && NUL !in p.key && NUL !in p.value
  }

  ghost predicate AllPlain(ps: seq<Pair>) {
    forall i :: 0 <= i < |ps| ==> Plain(ps[i])
  }

  function Founds(ps: seq<Pair>): (ts: seq<Token>)
    ensures |ts| == |ps|
  {
    seq(|ps|, i requires 0 <= i < |ps| => Found(ps[i]))
  }

  /** The text of a pair up to the closing NUL. */
  lemma {:induction false} TokenOfPair(p: Pair)
    ensures '=' !in p.key ==> TokenOf(p.key + "=" + p.value) == Found(p)
  {
    var t := p.key + "=" + p.value;
    if '=' !in p.key {
      forall i | 0 <= i < |p.key| ensures t[i] != '=' {
        assert t[i] == p.key[i];
        assert p.key[i] in p.key;
      }
      IndexOfIs(t, '=', |p.key|);
    }
  }

  /** Where the first token of a text ends. */
  lemma {:induction false} FirstNul(p: Pair, rest: string)
    requires Plain(p)
    ensures var t := p.key + "=" + p.value;
            && PairText(p) + rest == t + ([NUL] + rest)
            && IndexOf(PairText(p) + rest, NUL) == |t|
            && (PairText(p) + rest)[..|t|] == t && (PairText(p) + rest)[|t| + 1..] == rest
            && (PairText(p) + rest)[0] != NUL
  {
    var t := p.key + "=" + p.value;
    var s := PairText(p) + rest;
    forall i | 0 <= i < |t| ensures s[i] != NUL {
      assert s[i] == if i < |p.key| then p.key[i] else if i == |p.key| then '=' else p.value[i - |p.key| - 1];
      assert i < |p.key| ==> p.key[i] in p.key;
      assert i > |p.key| ==> p.value[i - |p.key| - 1] in p.value;
    }
    assert s[|t|] == NUL;
    IndexOfIs(s, NUL, |t|);
  }

  /** A plain pair reads back, and the rest is read after it. */
  lemma {:induction false} TokensFirst(p: Pair, rest: string, n: nat)
    requires Plain(p) && n <= |rest|
    ensures Tokens(PairText(p) + rest, |PairText(p)| + n) == [Found(p)] + Tokens(rest, n)
  {
    FirstNul(p, rest);
    TokenOfPair(p);
  }

  /** The text of `ps`, padded with NULs, read back. */
  function ReadBack(ps: seq<Pair>, pad: nat): seq<Token> {
    Tokens(Text(ps) + Padding(pad), |Text(ps)| + pad)
  }

  lemma {:induction false} ReadBackNone(pad: nat)
    ensures ReadBack([], pad) == []
  {
    TokensOfPadding(Padding(pad), pad);
    assert "" + Padding(pad) == Padding(pad);
  }

  lemma {:induction false} ReadBackFirst(ps: seq<Pair>, pad: nat)
    requires ps != []
    ensures Plain(ps[0]) ==> ReadBack(ps, pad) == [Found(ps[0])] + ReadBack(ps[1..], pad)
    ensures !Plain(ps[0]) && ReadBack(ps, pad) != [] ==> ReadBack(ps, pad)[0] != Found(ps[0])
  {
    hide Tokens, PairText, Plain, Padding, Text;
    var rest := Text(ps[1..]) + Padding(pad);
    TextCons(ps, Padding(pad));
    if Plain(ps[0]) {
      TokensFirst(ps[0], rest, |rest|);
    } else {
      NotPlainLost(ps[0], rest, |rest|);
    }
  }

  lemma {:induction false} FoundsFirst(ps: seq<Pair>)
    requires ps != []
    ensures Founds(ps) == [Found(ps[0])] + Founds(ps[1..])
    ensures AllPlain(ps) <==> Plain(ps[0]) && AllPlain(ps[1..])
  {
    hide Plain;
    assert forall i :: 0 < i < |ps| ==> ps[i] == ps[1..][i - 1];
  }

  lemma {:induction false} TextCons(ps: seq<Pair>, pad: string)
    requires ps != []
    ensures Text(ps) + pad == PairText(ps[0]) + (Text(ps[1..]) + pad)
    ensures |Text(ps)| == |PairText(ps[0])| + |Text(ps[1..])|
  {
    hide PairText;
    Associates(PairText(ps[0]), Text(ps[1..]), pad);
  }

  /** A pair that is not plain does not read back, whatever follows it. */
  lemma {:induction false} NotPlainLost(p: Pair, rest: string, n: nat)
    requires !Plain(p) && n <= |rest|
    ensures var ts := Tokens(PairText(p) + rest, |PairText(p)| + n);
            ts != [] ==> ts[0] != Found(p)
  {
    var s := PairText(p) + rest;
    assert s[|p.key|] == '=';
    FirstToken(s, |PairText(p)| + n, p);
  }

  /** What the first token of a text can be: a key without '=' or NUL, a value without NUL. */
  lemma {:induction false} FirstToken(s: string, n: nat, p: Pair)
    requires n <= |s|
    ensures Tokens(s, n) != [] && Tokens(s, n)[0] == Found(p) ==> Plain(p)
    decreases |s|
  {
    if n > 0 {
      if s[0] == NUL {
        FirstToken(s[1..], n - 1, p);
      } else {
        var t := s[..IndexOf(s, NUL)];
        assert forall i :: 0 <= i < |t| ==> t[i] != NUL;
      }
    }
  }

  /** Exactly the texts whose pairs are all plain read back, however much is padded. */
  lemma {:induction false} RoundTripIff(ps: seq<Pair>, pad: nat)
    ensures ReadBack(ps, pad) == Founds(ps) <==> AllPlain(ps)
  {
    if ps == [] {
      ReadBackNone(pad);
    } else {
      hide ReadBack, Founds, Plain, AllPlain;
      RoundTripIff(ps[1..], pad);
      ReadBackFirst(ps, pad);
      FoundsFirst(ps);
      if Plain(ps[0]) {
        assert ReadBack(ps, pad)[1..] == ReadBack(ps[1..], pad);
        assert Founds(ps)[1..] == Founds(ps[1..]);
      }
    }
  }

  predicate ShortKeys(ps: seq<Pair>) {
    forall i :: 0 <= i < |ps| ==> |ps[i].key| < KEY_LEN - 1
  }

  function Handleds(ps: seq<Pair>): (r: seq<Item>)
    ensures |r| == |ps|
  {
    seq(|ps|, i requires 0 <= i < |ps| => Handled(ps[i]))
  }

  lemma {:induction false} ItemsFirst(t: Token, ts: seq<Token>, last: Option<Pair>)
    ensures Items([t] + ts, last) == [ItemOf(t, last)] + Items(ts, LastOf(t, last))
  {
    assert ([t] + ts)[1..] == ts;
  }

  /** A token without '=' repeats the pair before it, passing over a key that is too long;
      the limit is 63 characters. */
  lemma {:induction false} Repeats(p: Pair, long: Pair, a: string, b: string)
    requires |p.key| <= 62 && |long.key| >= 63
    ensures Items([NoDelimiter(a), Found(p), Found(long), NoDelimiter(b)], None)
            == [Unset, Handled(p), TooLong(long.key), Handled(p)]
  {
    var none: seq<Token> := [];
    ItemsFirst(NoDelimiter(b), none, Some(p));
    assert [NoDelimiter(b)] + none == [NoDelimiter(b)];
    ItemsFirst(Found(long), [NoDelimiter(b)], Some(p));
    assert [Found(long)] + [NoDelimiter(b)] == [Found(long), NoDelimiter(b)];
    ItemsFirst(Found(p), [Found(long), NoDelimiter(b)], None);
    assert [Found(p)] + [Found(long), NoDelimiter(b)] == [Found(p), Found(long), NoDelimiter(b)];
    ItemsFirst(NoDelimiter(a), [Found(p), Found(long), NoDelimiter(b)], None);
    assert [NoDelimiter(a)] + [Found(p), Found(long), NoDelimiter(b)]
           == [NoDelimiter(a), Found(p), Found(long), NoDelimiter(b)];
    NoItems(Some(p));
  }

  lemma {:induction false} HandledsFirst(ps: seq<Pair>)
    requires ps != []
    ensures Handleds(ps) == [Handled(ps[0])] + Handleds(ps[1..])
    ensures ShortKeys(ps) <==> |ps[0].key| < KEY_LEN - 1 && ShortKeys(ps[1..])
  {
    assert forall i :: 0 < i < |ps| ==> ps[i] == ps[1..][i - 1];
  }

  /** A repeated pair is never taken for one that does not read back. */
  lemma {:induction false} HandedOn(ps: seq<Pair>, pad: nat, last: Option<Pair>)
    requires last.Some? ==> Plain(last.value)
    ensures Items(ReadBack(ps, pad), last) == Handleds(ps) <==> AllPlain(ps) && ShortKeys(ps)
    decreases |ps|
  {
    if ps == [] {
      ReadBackNone(pad);
    } else {
      hide ReadBack, Handleds, Plain, AllPlain, ShortKeys, Items;
      var ts := ReadBack(ps, pad);
      ReadBackFirst(ps, pad);
      FoundsFirst(ps);
      HandledsFirst(ps);
      var rest := Handleds(ps[1..]);
      if ts == [] {
        NoItems(last);
      } else {
        var t, more := ts[0], ts[1..];
        assert ts == [t] + more;
        ItemsFirst(t, more, last);
        if ItemOf(t, last) != Handled(ps[0]) {
          HeadsDiffer(ItemOf(t, last), Items(more, LastOf(t, last)), Handled(ps[0]), rest);
        } else {
          assert Plain(ps[0]) && more == ReadBack(ps[1..], pad);
          HandedOn(ps[1..], pad, Some(ps[0]));
          ConsEqual(Handled(ps[0]), Items(more, Some(ps[0])), rest);
        }
      }
    }
  }

  lemma {:induction false} HeadsDiffer<T>(x: T, a: seq<T>, y: T, b: seq<T>)
    requires x != y
    ensures [x] + a != [y] + b
  {
    assert ([x] + a)[0] == x && ([y] + b)[0] == y;
  }

  lemma {:induction false} ConsEqual<T>(x: T, a: seq<T>, b: seq<T>)
    ensures [x] + a == [x] + b <==> a == b
  {
    assert ([x] + a)[1..] == a && ([x] + b)[1..] == b;
  }

  lemma {:induction false} NoItems(last: Option<Pair>)
    ensures Items([], last) == []
  {
  }

  /** Exactly the pairs written are handed on, in order, if and only if they are plain and
      their keys shorter than 63 characters; tokens without '=' never make up for it. */
  lemma {:induction false} HandedOnIff(ps: seq<Pair>, pad: nat)
    ensures Items(ReadBack(ps, pad), None) == Handleds(ps) <==> AllPlain(ps) && ShortKeys(ps)
  {
    HandedOn(ps, pad, None);
  }

  // ----- the buffers

  /** `param_text_add`: nothing is written when the pair does not fit. */
  method TextAdd(text: array<char>, len: nat, p: Pair) returns (ok: bool, len': nat)
    requires len <= MAX_TEXT == text.Length
    modifies text
    ensures ok <==> len + |p.key| + 1 + |p.value| + 1 <= MAX_TEXT
    ensures ok ==> len' == len + |PairText(p)| && text[..len'] == old(text[..len]) + PairText(p)
                   && text[len'..] == old(text[len'..])
    ensures !ok ==> len' == len && text[..] == old(text[..])
    ensures len' <= MAX_TEXT
  {
    if len + |p.key| + 1 + |p.value| + 1 > MAX_TEXT {
      return false, len;
    }
    var t := PairText(p);
    forall i | 0 <= i < |t| {
      text[len + i] := t[i];
    }
    ok, len' := true, len + |t|;
  }

  lemma {:induction false} TextSnoc(ps: seq<Pair>, p: Pair)
    ensures Text(ps + [p]) == Text(ps) + PairText(p)
  {
    if ps == [] {
      assert [] + [p] == [p];
      assert Text([p]) == PairText(p) + Text([p][1..]);
    } else {
      assert (ps + [p])[0] == ps[0] && (ps + [p])[1..] == ps[1..] + [p];
      TextSnoc(ps[1..], p);
      assert PairText(ps[0]) + (Text(ps[1..]) + PairText(p)) == PairText(ps[0]) + Text(ps[1..]) + PairText(p);
    }
  }

  /** Successive additions write the text of the pairs that fit, in order; the others are
      refused and leave no trace. */
  method TextAddAll(text: array<char>, ps: seq<Pair>) returns (len: nat, ghost added: seq<Pair>)
    requires text.Length == MAX_TEXT
    modifies text
    ensures len <= MAX_TEXT && text[..len] == Text(added)
    ensures |Text(ps)| <= MAX_TEXT ==> added == ps
  {
    len := 0;
    added := [];
    for i := 0 to |ps|
      invariant len <= MAX_TEXT && text[..len] == Text(added)
      invariant |Text(ps)| <= MAX_TEXT ==> added == ps[..i]
    {
      var ok, len' := TextAdd(text, len, ps[i]);
      TextSnoc(added, ps[i]);
      TextPrefix(ps, i);
      if ok {
        added := added + [ps[i]];
      }
      len := len';
    }
    assert ps[..|ps|] == ps;
  }

  lemma {:induction false} TextPrefix(ps: seq<Pair>, i: nat)
    requires i < |ps|
    ensures |Text(ps[..i])| + |PairText(ps[i])| <= |Text(ps)|
    ensures ps[..i + 1] == ps[..i] + [ps[i]]
  {
    if i > 0 {
      TextPrefix(ps[1..], i - 1);
      assert ps[1..][..i - 1] == ps[..i][1..];
    }
  }

  method Strlen(text: array<char>, at: nat) returns (n: nat)
    requires exists z :: at <= z < text.Length && text[z] == NUL
    ensures n == IndexOf(text[at..], NUL) && at + n < text.Length && text[at + n] == NUL
    ensures forall i :: at <= i < at + n ==> text[i] != NUL
  {
    n := 0;
    while text[at + n] != NUL
      invariant at + n < text.Length
      invariant forall i :: at <= i < at + n ==> text[i] != NUL
      invariant exists z :: at + n <= z < text.Length && text[z] == NUL
      decreases text.Length - n
    {
      n := n + 1;
    }
    IndexOfIs(text[at..], NUL, n);
  }

  /** The loop of `param_text_parse`, up to what each token is taken for; `key` and `value`
      are what it has in `last`.  As the source does, it relies on a NUL at or after the
      last of the `n` characters. */
  method Parse(text: array<char>, n: nat) returns (items: seq<Item>)
    requires n <= text.Length
    requires n > 0 ==> exists z :: n - 1 <= z < text.Length && text[z] == NUL
    ensures items == Items(Tokens(text[..], n), None)
  {
    hide Tokens, TokenOf, IndexOf, Items;
    items := [];
    var last: Option<Pair> := None;
    var ptr := 0;
    ghost var s := text[..];
    StartFrom(s, n);
    assert [] + TokensFrom(s, n, 0) == TokensFrom(s, n, 0);
    while ptr < n
      invariant ptr <= text.Length
      invariant items + Items(TokensFrom(s, n, ptr), last) == Items(Tokens(s, n), None)
    {
      ptr := SkipNuls(text, n, ptr);
      if ptr >= n {
        break;
      }
      var k := Strlen(text, ptr);
      assert text[ptr..] == s[ptr..];
      TokensAt(s, n, ptr);
      var token := TokenOf(text[ptr..ptr + k]);
      ghost var rest := TokensFrom(s, n, ptr + k + 1);
      ItemsFirst(token, rest, last);
      var item := Unset;
      ghost var before := last;
      if token.Found? {
        if |token.pair.key| >= KEY_LEN - 1 {
          item := TooLong(token.pair.key);
        } else {
          item := Handled(token.pair);
          last := Some(token.pair);
        }
      } else if last.Some? {
        item := Handled(last.value);
      }
      assert item == ItemOf(token, before) && last == LastOf(token, before);
      Associates(items, [item], Items(rest, last));
      items := items + [item];
      ptr := ptr + k + 1;
    }
    NoItems(last);
    assert TokensFrom(s, n, ptr) == [];
  }

  /** What is still to come from position `ptr` on. */
  ghost function TokensFrom(s: string, n: nat, ptr: nat): seq<Token>
    requires n <= |s|
  {
    if ptr < n then Tokens(s[ptr..], n - ptr) else []
  }

  lemma {:induction false} StartFrom(s: string, n: nat)
    requires n <= |s|
    ensures [] + TokensFrom(s, n, 0) == Tokens(s, n)
  {
    assert s[0..] == s;
    if n == 0 { TokensNone(s); }
  }

  lemma {:induction false} TokensNone(s: string)
    ensures Tokens(s, 0) == []
  {
  }

  lemma {:induction false} TokensHead(r: string, m: nat)
    requires 0 < m <= |r| && r[0] != NUL
    ensures var k := IndexOf(r, NUL);
            Tokens(r, m) == [TokenOf(r[..k])] + if k + 1 >= m then [] else Tokens(r[k + 1..], m - k - 1)
  {
    hide TokenOf;
  }

  lemma {:induction false} TokensAt(s: string, n: nat, ptr: nat)
    requires ptr < n <= |s| && s[ptr] != NUL && IndexOf(s[ptr..], NUL) < |s[ptr..]|
    ensures var k := IndexOf(s[ptr..], NUL);
            && ptr + k < |s|
            && TokensFrom(s, n, ptr) == [TokenOf(s[ptr..ptr + k])] + TokensFrom(s, n, ptr + k + 1)
  {
    hide TokenOf, Tokens, TokensFrom, IndexOf;
    var r := s[ptr..];
    var k := IndexOf(r, NUL);
    assert r[0] == s[ptr];
    TokensHead(r, n - ptr);
    assert r[..k] == s[ptr..ptr + k];
    assert r[k + 1..] == s[ptr + k + 1..];
    FromIs(s, n, ptr);
    FromIs(s, n, ptr + k + 1);
  }

  lemma {:induction false} FromIs(s: string, n: nat, ptr: nat)
    requires n <= |s|
    ensures TokensFrom(s, n, ptr) == if ptr < n then Tokens(s[ptr..], n - ptr) else []
  {
  }

  method SkipNuls(text: array<char>, n: nat, from: nat) returns (ptr: nat)
    requires from < n <= text.Length
    ensures from <= ptr <= n && (ptr < n ==> text[ptr] != NUL)
    ensures TokensFrom(text[..], n, from) == TokensFrom(text[..], n, ptr)
  {
    hide Tokens, TokensFrom;
    ptr := from;
    while ptr < n && text[ptr] == NUL
      invariant from <= ptr <= n
      invariant TokensFrom(text[..], n, from) == TokensFrom(text[..], n, ptr)
    {
      SkipOne(text[..], n, ptr);
      ptr := ptr + 1;
    }
  }

  lemma {:induction false} TokensSkip(r: string, m: nat)
    requires 0 < m <= |r| && r[0] == NUL
    ensures Tokens(r, m) == Tokens(r[1..], m - 1)
  {
  }

  lemma {:induction false} SkipOne(s: string, n: nat, ptr: nat)
    requires ptr < n <= |s| && s[ptr] == NUL
    ensures TokensFrom(s, n, ptr) == TokensFrom(s, n, ptr + 1)
  {
    hide Tokens;
    assert s[ptr..][0] == s[ptr] && s[ptr..][1..] == s[ptr + 1..];
    TokensSkip(s[ptr..], n - ptr);
    TokensNone(s[ptr + 1..]);
  }
}
