/** Resumable reading of a directory (`osdfs_readdir`): what one call shows, and where the
    next one goes on. */
module DirectoryReading {
  import opened Sequences
  import opened ByteOrder
  import opened DirectoryPage
  import opened DirectoryModel

  datatype Shown = Dot | DotDot | Item(name: seq<byte>, ino: nat)

  /** The open file: f_pos, and the number of entries when it was last read
      (private_data). */
  datatype Cursor = Cursor(pos: int, seen: int)

  /** Inode numbers the function believes. */
  predicate InRange(ino: nat) {
    0xabc123 <= ino <= 0xfff123
  }

  function ItemOf(e: Entry): Shown {
    Item(e.name, e.ino)
  }

  function Items(es: seq<Entry>): (s: seq<Shown>)
    ensures |s| == |es|
  {
    seq(|es|, i requires 0 <= i < |es| => ItemOf(es[i]))
  }

  /** The scan stops `limit` bytes into the last page, and the limit is the size modulo
      the page size: when the size is a multiple of it, the last page is not shown. */
  function Visible(d: Dir): seq<Entry> {
    if d.layout != [] && d.size % PAGE == 0 then Entries(d.layout[..|d.layout| - 1]) else Entries(d.layout)
  }

  /** Everything is shown unless the size is a multiple of the page size while the last
      page has entries; a size that is right is never such a multiple. */
  lemma {:induction false} AllVisibleIff(d: Dir)
    requires Shaped(d)
    ensures Visible(d) == Entries(d.layout)
            <==> d.size % PAGE != 0 || d.layout == [] || d.layout[|d.layout| - 1] == []
    ensures Tight(d) ==> Visible(d) == Entries(d.layout)
  {
    if d.layout != [] {
      var n := |d.layout|;
      TailRange(d);
      AroundOne(d.layout, n - 1);
      assert d.layout[n..] == [];
      EntriesAround(d.layout, n - 1, []);
      EntriesNone();
    }
  }

  /** Skip `skip` entries, then give out at most `room`; false when an inode number is
      out of range. */
  function Fill(es: seq<Entry>, skip: int, room: nat): (r: (seq<Shown>, bool))
    ensures |r.0| <= room
  {
    if es == [] then ([], true)
    else if skip > 0 then Fill(es[1..], skip - 1, room)
    else if !InRange(es[0].ino) then ([], false)
    else if room == 0 then ([], true)
    else
      var (out, ok) := Fill(es[1..], 0, room - 1);
      ([ItemOf(es[0])] + out, ok)
  }

  datatype Outcome = Outcome(cursor: Cursor, out: seq<Shown>, ok: bool)

  /** Where a call starts: back by as many entries as have gone since the last call. */
  function Resumed(num: nat, c: Cursor): Cursor {
    if c.pos == 0 then Cursor(0, num)
    else if c.seen > num then Cursor(c.pos - (c.seen - num), num)
    else c
  }

  function Head(pos: int): seq<Shown> {
    if pos == 0 then [Dot, DotDot] else if pos == 1 then [DotDot] else []
  }

  /** One call; `room` is how many entries the caller's buffer takes.  When it cannot
      take "." or "..", the position has already moved past it. */
  function Call(visible: seq<Entry>, num: nat, c: Cursor, room: nat): Outcome {
    var c1 := Resumed(num, c);
    var head := Head(c1.pos);
    if |head| > room then
      Outcome(Cursor(c1.pos + room + 1, c1.seen), head[..room], false)
    else
      var (out, ok) := Fill(visible, c1.pos - 2, room - |head|);
      Outcome(Cursor(c1.pos + |head| + |out|, c1.seen), head + out, ok)
  }

  ghost predicate AllInRange(es: seq<Entry>) {
    forall i :: 0 <= i < |es| ==> InRange(es[i].ino)
  }

  function Take<T>(s: seq<T>, n: nat): seq<T> {
    if n < |s| then s[..n] else s
  }

  function From<T>(s: seq<T>, n: int): seq<T> {
    if n <= 0 then s else if n <= |s| then s[n..] else []
  }

  lemma {:induction false} TakeItems(es: seq<Entry>, room: nat)
    requires es != [] && room > 0
    ensures Take(Items(es), room) == [ItemOf(es[0])] + Take(Items(es[1..]), room - 1)
  {
  }

  lemma {:induction false} FromNext<T>(s: seq<T>, n: int)
    requires s != [] && n > 0
    ensures From(s[1..], n - 1) == From(s, n)
  {
  }

  lemma {:induction false} FillShows(es: seq<Entry>, skip: int, room: nat)
    requires AllInRange(es)
    ensures Fill(es, skip, room) == (Take(Items(From(es, skip)), room), true)
  {
    if es != [] {
      hide InRange, ItemOf;
      if skip > 0 {
        FillShows(es[1..], skip - 1, room);
        FromNext(es, skip);
      } else if room > 0 {
        FillShows(es[1..], 0, room - 1);
        TakeItems(es, room);
      }
    }
  }

  /** At the first entry whose inode number is not one from 0xabc123 to 0xfff123, if there
      is room to get there, reading stops with an error, whatever comes after it. */
  lemma {:induction false} FillStops(es: seq<Entry>, skip: nat, room: nat, k: nat)
    requires skip <= k < |es| && !(0xabc123 <= es[k].ino <= 0xfff123)
    requires forall i :: skip <= i < k ==> 0xabc123 <= es[i].ino <= 0xfff123
    ensures Fill(es, skip, room)
            == if room < k - skip then (Items(es[skip..skip + room]), true) else (Items(es[skip..k]), false)
    decreases |es|
  {
    if skip > 0 {
      FillStops(es[1..], skip - 1, room, k - 1);
      assert es[1..][skip - 1..k - 1] == es[skip..k];
      assert room < k - skip ==> es[1..][skip - 1..skip - 1 + room] == es[skip..skip + room];
    } else if k > 0 && room > 0 {
      FillStops(es[1..], 0, room - 1, k - 1);
      ItemsCons(es, if room < k then room else k);
    }
  }

  lemma {:induction false} ItemsCons(es: seq<Entry>, n: nat)
    requires 0 < n <= |es|
    ensures Items(es[0..n]) == [ItemOf(es[0])] + Items(es[1..][0..n - 1])
  {
  }

  lemma {:induction false} CallFromPos(es: seq<Entry>, num: nat, c: Cursor, room: nat)
    requires AllInRange(es) && Resumed(num, c).pos >= 2
    ensures var p := Resumed(num, c).pos;
            var out := Take(Items(From(es, p - 2)), room);
            Call(es, num, c, room) == Outcome(Cursor(p + |out|, Resumed(num, c).seen), out, true)
  {
    FillShows(es, Resumed(num, c).pos - 2, room);
  }

  /** A buffer too small for "." and "..": the call fails, having moved past one more than
      it showed. */
  lemma {:induction false} HeadCut(visible: seq<Entry>, num: nat, c: Cursor, room: nat)
    ensures c.pos == 0 && room == 0 ==> Call(visible, num, c, room) == Outcome(Cursor(1, num), [], false)
    ensures c.pos == 0 && room == 1 ==> Call(visible, num, c, room) == Outcome(Cursor(2, num), [Dot], false)
    ensures c.pos == 1 && room == 0 && c.seen <= num ==>
              Call(visible, num, c, room) == Outcome(Cursor(2, c.seen), [], false)
  {
  }

  // ----- what a reading keeps

  ghost predicate Reading(es: seq<Entry>, c: Cursor) {
    AllInRange(es) && c.seen >= |es| && 2 <= Resumed(|es|, c).pos <= |es| + 2
  }

  lemma {:induction false} TakeMore<T>(s: seq<T>, n: nat, m: nat)
    ensures Take(s, n + m) == Take(s, n) + Take(s[|Take(s, n)|..], m)
  {
  }

  lemma {:induction false} ItemsFrom(es: seq<Entry>, n: nat)
    requires n <= |es|
    ensures Items(es[n..]) == Items(es)[n..]
  {
  }

  /** Deleting an entry already shown moves the place to resume, not what is there. */
  lemma {:induction false} DropKeeps(es: seq<Entry>, c: Cursor, i: nat)
    requires Reading(es, c) && i < |es| && i < Resumed(|es|, c).pos - 2
    ensures var es' := WithoutAt(es, i);
            && Reading(es', c)
            && From(es', Resumed(|es'|, c).pos - 2) == From(es, Resumed(|es|, c).pos - 2)
  {
    var es' := WithoutAt(es, i);
    assert forall k :: 0 <= k < |es'| ==> es'[k] == if k < i then es[k] else es[k + 1];
  }

  lemma {:induction false} ReadKeeps(es: seq<Entry>, c: Cursor, room: nat)
    requires Reading(es, c)
    ensures var o := Call(es, |es|, c, room);
            var rest := From(es, Resumed(|es|, c).pos - 2);
            && Reading(es, o.cursor) && o.ok && o.out == Take(Items(rest), room)
            && From(es, Resumed(|es|, o.cursor).pos - 2) == rest[|o.out|..]
  {
    hide Call, Items, Take, AllInRange;
    CallFromPos(es, |es|, c, room);
    var p := Resumed(|es|, c).pos;
    TakeLength(Items(From(es, p - 2)), room);
    var out := Take(Items(From(es, p - 2)), room);
    FromMore(es, p - 2, |out|);
  }

  lemma {:induction false} FromMore<T>(s: seq<T>, n: nat, m: nat)
    requires n + m <= |s|
    ensures |From(s, n)| == |s| - n && From(s, n + m) == From(s, n)[m..]
  {
  }

  lemma {:induction false} TakeNone<T>(s: seq<T>)
    ensures Take(s, 0) == []
  {
  }

  lemma {:induction false} TakeLength<T>(s: seq<T>, n: nat)
    ensures |Take(s, n)| <= |s| && |Take(s, n)| <= n
  {
  }

  function Listing(es: seq<Entry>): seq<Shown> {
    [Dot, DotDot] + Items(es)
  }

  lemma {:induction false} FirstCall(es: seq<Entry>, num: nat, seen: int, room: nat)
    requires AllInRange(es) && room >= 2
    ensures var shown := Take(Items(es), room - 2);
            && |shown| <= |es|
            && Call(es, num, Cursor(0, seen), room) == Outcome(Cursor(2 + |shown|, num), [Dot, DotDot] + shown, true)
  {
    FillShows(es, -2, room - 2);
  }

  lemma {:induction false} TakeAfter<T>(a: seq<T>, b: seq<T>, n: nat)
    ensures Take(a + b, |a| + n) == a + Take(b, n)
  {
  }

  // ----- deletions made up for by additions

  lemma {:induction false} FromBehind<T>(a: seq<T>, b: seq<T>, c: seq<T>, n: nat)
    requires n <= |b + c|
    ensures From(a + b + c, |a| + n) == (b + c)[n..]
  {
    assert a + b + c == a + (b + c);
  }

  /** Since the last call `gone` entries already shown were deleted and `added` appended.
      The next call sees only the difference of the two in the number of entries, so it
      passes over as many entries not yet shown as the smaller of the two. */
  lemma {:induction false} SkipsTheSmaller(kept: seq<Entry>, rest: seq<Entry>, added: seq<Entry>, gone: nat, c: Cursor, room: nat)
    requires AllInRange(kept + rest + added)
    requires c == Cursor(|kept| + gone + 2, |kept| + gone + |rest|)
    ensures var now := kept + rest + added;
            var skipped := if gone < |added| then gone else |added|;
            Call(now, |now|, c, room).out == Take(Items((rest + added)[skipped..]), room)
  {
    hide Take, Items, AllInRange, Fill, From, Call;
    var now := kept + rest + added;
    var skipped := if gone < |added| then gone else |added|;
    CallFromPos(now, |now|, c, room);
    assert Resumed(|now|, c).pos == |kept| + skipped + 2;
    hide *;
    FromBehind(kept, rest, added, skipped);
  }
}
