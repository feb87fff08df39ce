/** A reading of a real directory, pages and all, while entries are deleted by name
    (`osdfs_readdir` and `entry_del` in turn). */
module DirectorySeries {
  import opened ByteOrder
  import opened DirectoryPage
  import opened DirectoryModel
  import opened DirectoryReading

  datatype Act = Look(room: nat) | Erase(name: seq<byte>)

  function LookAt(d: Dir, c: Cursor, room: nat): Outcome {
    Call(Visible(d), |Entries(d.layout)|, c, room)
  }

  /** What all the calls show. */
  function Showing(d: Dir, c: Cursor, acts: seq<Act>): seq<Shown>
    requires Shaped(d)
    decreases |acts|
  {
    if acts == [] then []
    else match acts[0]
      case Look(room) =>
        var o := LookAt(d, c, room);
        o.out + Showing(d, o.cursor, acts[1..])
      case Erase(name) =>
        DeleteRemoves(d, name);
        Showing(Delete(d, name), c, acts[1..])
  }

  /** The position in the list of entries that the next call starts from. */
  function Place(d: Dir, c: Cursor): int {
    Resumed(|Entries(d.layout)|, c).pos - 2
  }

  /** What is erased is an entry already shown, or no entry at all. */
  predicate ErasesShown(d: Dir, c: Cursor, acts: seq<Act>)
    requires Shaped(d)
    decreases |acts|
  {
    if acts == [] then true
    else match acts[0]
      case Look(room) => ErasesShown(d, LookAt(d, c, room).cursor, acts[1..])
      case Erase(name) =>
        var k := FindIn(Entries(d.layout), name);
        DeleteRemoves(d, name);
        (k < |Entries(d.layout)| ==> k < Place(d, c)) && ErasesShown(Delete(d, name), c, acts[1..])
  }

  function Room(acts: seq<Act>): nat {
    if acts == [] then 0
    else (if acts[0].Look? then acts[0].room else 0) + Room(acts[1..])
  }

  // ----- what a scan is shown

  /** The last page's entries are what is missing when something is. */
  lemma {:induction false} VisibleAndHidden(d: Dir)
    requires Shaped(d)
    ensures Entries(d.layout)
            == Visible(d) + (if d.layout != [] && d.size % PAGE == 0 then d.layout[|d.layout| - 1] else [])
  {
    if d.layout != [] && d.size % PAGE == 0 {
      var n := |d.layout|;
      EntriesAround(d.layout, n - 1, []);
      assert d.layout[n..] == [];
    }
  }

  /** A deletion that does not empty the last of several pages hides nothing. */
  lemma {:induction false} StaysVisible(d: Dir, name: seq<byte>)
    requires Shaped(d) && Visible(d) == Entries(d.layout) && !Undermines(d, name)
    ensures Shaped(Delete(d, name)) && Visible(Delete(d, name)) == Entries(Delete(d, name).layout)
  {
    var d' := Delete(d, name);
    DeleteRemoves(d, name);
    AllVisibleIff(d);
    AllVisibleIff(d');
    if d'.layout != [] && FindPage(d.layout, name) == |d.layout| - 1 {
      OnLastPage(d, name);
    }
  }

  lemma {:induction false} OnLastPage(d: Dir, name: seq<byte>)
    requires Shaped(d) && d.layout != [] && FindPage(d.layout, name) == |d.layout| - 1
    requires !Undermines(d, name) && Delete(d, name).layout != []
    ensures Delete(d, name).size % PAGE != 0
  {
    hide Entries, RecLen, Used, FindIn, FindPage, ValidEntry, WithoutAt, Encode;
    var n := |d.layout|;
    var es := d.layout[n - 1];
    FoundOn(d.layout, name);
    var k := FindIn(es, name);
    LastFits(d, k);
    RecPositive(es[k]);
    Shrink(d, RecLen(es[k]));
    TailRange(d);
    WithoutPage(es, k);
  }

  /** The entry whose deletion undermines is the last of the directory. */
  lemma {:induction false} UnderminedIsLast(d: Dir, name: seq<byte>)
    requires Shaped(d) && Undermines(d, name)
    ensures Entries(d.layout) != [] && FindIn(Entries(d.layout), name) == |Entries(d.layout)| - 1
  {
    var n := |d.layout|;
    var front := Entries(d.layout[..n - 1]);
    EntriesAround(d.layout, n - 1, []);
    assert d.layout[n..] == [];
    FindPageBefore(d.layout, name, n - 1);
    FindEntries(d.layout[..n - 1], name);
    assert Entries(d.layout) == front + d.layout[n - 1];
    hide Entries, FindPage, FindIn;
    FoundOn(d.layout, name);
    FindAppend(front, d.layout[n - 1], name);
  }

  // ----- a reading with deletions

  /** Everything is shown that is still to come: the directory hides nothing, or the
      reading is at its end. */
  ghost predicate Underway(d: Dir, c: Cursor) {
    && Shaped(d) && Reading(Entries(d.layout), c)
    && (Visible(d) == Entries(d.layout) || Place(d, c) == |Entries(d.layout)|)
  }

  lemma {:induction false} AtEndNothing(d: Dir, c: Cursor, room: nat)
    requires Underway(d, c) && Place(d, c) == |Entries(d.layout)|
    ensures var es := Entries(d.layout);
            && LookAt(d, c, room) == Outcome(Cursor(Resumed(|es|, c).pos, Resumed(|es|, c).seen), [], true)
            && Call(es, |es|, c, room) == LookAt(d, c, room)
  {
    var es := Entries(d.layout);
    VisibleAndHidden(d);
    assert AllInRange(Visible(d)) by {
      assert forall i :: 0 <= i < |Visible(d)| ==> Visible(d)[i] == es[i];
    }
    CallFromPos(Visible(d), |es|, c, room);
    CallFromPos(es, |es|, c, room);
  }

  lemma {:induction false} LookKeeps(d: Dir, c: Cursor, room: nat)
    requires Underway(d, c)
    ensures var o := LookAt(d, c, room);
            var rest := From(Entries(d.layout), Place(d, c));
            && Underway(d, o.cursor) && o.ok && o.out == Take(Items(rest), room)
            && From(Entries(d.layout), Place(d, o.cursor)) == rest[|o.out|..]
  {
    var es := Entries(d.layout);
    ReadKeeps(es, c, room);
    if Visible(d) != es {
      AtEndNothing(d, c, room);
    }
  }

  lemma {:induction false} EraseKeeps(d: Dir, c: Cursor, name: seq<byte>)
    requires Underway(d, c)
    requires var k := FindIn(Entries(d.layout), name); k < |Entries(d.layout)| ==> k < Place(d, c)
    ensures var d' := Delete(d, name);
            Underway(d', c) && From(Entries(d'.layout), Place(d', c)) == From(Entries(d.layout), Place(d, c))
  {
    hide Call, Entries, FindIn, Visible, WithoutAt, Undermines, Delete, Shaped;
    var d' := Delete(d, name);
    var es, es' := Entries(d.layout), Entries(d'.layout);
    var k := FindIn(es, name);
    DeleteRemoves(d, name);
    if k < |es| {
      DropKeeps(es, c, k);
    }
    if Visible(d) == es && Undermines(d, name) {
      UnderminedIsLast(d, name);
    } else if Visible(d) == es {
      StaysVisible(d, name);
    }
    AtEndIff(es, Place(d, c));
    AtEndIff(es', Place(d', c));
  }

  lemma {:induction false} AtEndIff<T>(s: seq<T>, p: int)
    requires 0 <= p <= |s|
    ensures From(s, p) == [] <==> p == |s|
  {
  }

  /** Wherever the calls are cut, and whatever entries already shown are deleted by name
      between them, on whatever page, even the last: together the calls show what is left
      to show, each entry once, in order. */
  lemma {:induction false} ReadingSurvives(d: Dir, c: Cursor, acts: seq<Act>)
    requires Shaped(d) && Underway(d, c) && ErasesShown(d, c, acts)
    ensures Showing(d, c, acts) == Take(Items(From(Entries(d.layout), Place(d, c))), Room(acts))
    decreases |acts|
  {
    hide LookAt, Underway, Place, From, Take, Items, Delete, Entries, FindIn, Shaped;
    if acts == [] {
      TakeNone(Items(From(Entries(d.layout), Place(d, c))));
    } else {
      match acts[0] {
        case Look(room) =>
          var o := LookAt(d, c, room);
          var rest := From(Entries(d.layout), Place(d, c));
          LookKeeps(d, c, room);
          ReadingSurvives(d, o.cursor, acts[1..]);
          TakeLength(Items(rest), room);
          ItemsFrom(rest, |o.out|);
          TakeMore(Items(rest), room, Room(acts[1..]));
        case Erase(name) =>
          EraseKeeps(d, c, name);
          DeleteRemoves(d, name);
          ReadingSurvives(Delete(d, name), c, acts[1..]);
      }
    }
  }

  lemma {:induction false} ShowingLook(d: Dir, c: Cursor, room: nat, acts: seq<Act>)
    requires Shaped(d)
    ensures var o := LookAt(d, c, room);
            Showing(d, c, [Look(room)] + acts) == o.out + Showing(d, o.cursor, acts)
  {
    hide LookAt;
    assert ([Look(room)] + acts)[1..] == acts;
  }

  /** From the beginning, on a directory that hides nothing: one whose size is right. */
  lemma {:induction false} ReadingFromStart(d: Dir, seen: int, room: nat, acts: seq<Act>)
    requires Shaped(d) && Tight(d) && AllInRange(Entries(d.layout)) && room >= 2
    requires ErasesShown(d, LookAt(d, Cursor(0, seen), room).cursor, acts)
    ensures Showing(d, Cursor(0, seen), [Look(room)] + acts) == Take(Listing(Entries(d.layout)), room + Room(acts))
  {
    hide Items, Take, Showing, ErasesShown, Room, Call, Entries, AllInRange;
    var es := Entries(d.layout);
    var o := LookAt(d, Cursor(0, seen), room);
    AllVisibleIff(d);
    FirstCall(es, |es|, seen, room);
    var shown := Take(Items(es), room - 2);
    ShowingLook(d, Cursor(0, seen), room, acts);
    ReadingSurvives(d, o.cursor, acts);
    assert From(es, Place(d, o.cursor)) == es[|shown|..];
    ItemsFrom(es, |shown|);
    TakeMore(Items(es), room - 2, Room(acts));
    TakeAfter([Dot, DotDot], Items(es), room - 2 + Room(acts));
  }

  // ----- what a hidden page costs

  ghost predicate OnlyLooks(acts: seq<Act>) {
    forall i :: 0 <= i < |acts| ==> acts[i].Look?
  }

  /** In every state of the directory, calls from a given position show what is visible
      behind it. */
  lemma {:induction false} LooksShowVisible(d: Dir, c: Cursor, acts: seq<Act>)
    requires Shaped(d) && AllInRange(Visible(d)) && OnlyLooks(acts) && Place(d, c) >= 0
    ensures Showing(d, c, acts) == Take(Items(From(Visible(d), Place(d, c))), Room(acts))
    decreases |acts|
  {
    hide Call, Take, Items, Visible, Entries, Shaped, AllInRange, From;
    var rest := From(Visible(d), Place(d, c));
    if acts == [] {
      TakeNone(Items(rest));
    } else {
      var room := acts[0].room;
      var o := LookAt(d, c, room);
      CallFromPos(Visible(d), |Entries(d.layout)|, c, room);
      TakeLength(Items(rest), room);
      assert forall i :: 0 <= i < |acts[1..]| ==> acts[1..][i] == acts[i + 1];
      LooksShowVisible(d, o.cursor, acts[1..]);
      FromMoved(Visible(d), Place(d, c), |o.out|);
      ItemsFrom(rest, |o.out|);
      TakeMore(Items(rest), room, Room(acts[1..]));
    }
  }

  lemma {:induction false} FromMoved<T>(s: seq<T>, n: nat, m: nat)
    requires m <= |From(s, n)|
    ensures From(s, n + m) == From(s, n)[m..]
  {
  }

  /** Past the first position "." is not shown again, past the second ".." is not. */
  lemma {:induction false} HeadNotAgain(d: Dir, c: Cursor, acts: seq<Act>)
    requires Shaped(d) && AllInRange(Visible(d)) && OnlyLooks(acts)
    requires c.seen == |Entries(d.layout)| && c.pos >= 1
    ensures Dot !in Showing(d, c, acts)
    ensures c.pos >= 2 ==> DotDot !in Showing(d, c, acts)
    decreases |acts|
  {
    hide Call, Items, Take, From, Visible, Entries, Shaped, AllInRange;
    if acts != [] {
      var o := LookAt(d, c, acts[0].room);
      OneCall(Visible(d), |Entries(d.layout)|, c, acts[0].room);
      assert forall i :: 0 <= i < |acts[1..]| ==> acts[1..][i] == acts[i + 1];
      HeadNotAgain(d, o.cursor, acts[1..]);
    }
  }

  lemma {:induction false} ItemsOnly(es: seq<Entry>, room: nat)
    ensures Dot !in Take(Items(es), room) && DotDot !in Take(Items(es), room)
  {
  }

  lemma {:induction false} OneCall(es: seq<Entry>, num: nat, c: Cursor, room: nat)
    requires AllInRange(es) && c.seen == num && c.pos >= 1
    ensures var o := Call(es, num, c, room);
            && o.cursor.seen == num && o.cursor.pos >= 2
            && Dot !in o.out && (c.pos >= 2 ==> DotDot !in o.out)
  {
    hide Fill, Items, Take, From, AllInRange;
    ItemsOnly(From(es, c.pos - 2), if c.pos == 1 && room > 0 then room - 1 else room);
    FillShows(es, c.pos - 2, if c.pos == 1 && room > 0 then room - 1 else room);
  }

  lemma {:induction false} NoRoomNothing(d: Dir, c: Cursor, acts: seq<Act>)
    requires Shaped(d) && OnlyLooks(acts) && Room(acts) == 0
    ensures Showing(d, c, acts) == []
    decreases |acts|
  {
    if acts != [] {
      assert forall i :: 0 <= i < |acts[1..]| ==> acts[1..][i] == acts[i + 1];
      NoRoomNothing(d, LookAt(d, c, acts[0].room).cursor, acts[1..]);
    }
  }

  lemma {:induction false} WithRoom(d: Dir, seen: int, room: nat, acts: seq<Act>)
    requires Shaped(d) && AllInRange(Visible(d)) && OnlyLooks(acts) && room >= 2
    ensures Showing(d, Cursor(0, seen), [Look(room)] + acts) == Take(Listing(Visible(d)), room + Room(acts))
  {
    hide Visible, Entries, Shaped, AllInRange, Items, From, Showing, Room, Take, Call, OnlyLooks;
    var es := Visible(d);
    var o := LookAt(d, Cursor(0, seen), room);
    ShowingLook(d, Cursor(0, seen), room, acts);
    FirstCall(es, |Entries(d.layout)|, seen, room);
    LooksShowVisible(d, o.cursor, acts);
    var shown := Take(Items(es), room - 2);
    FromIs(es, |shown|);
    ItemsFrom(es, |shown|);
    TakeMore(Items(es), room - 2, Room(acts));
    TakeAfter([Dot, DotDot], Items(es), room - 2 + Room(acts));
  }

  lemma {:induction false} WithoutRoom(d: Dir, seen: int, room: nat, acts: seq<Act>)
    requires Shaped(d) && AllInRange(Visible(d)) && OnlyLooks(acts) && room < 2
    ensures Showing(d, Cursor(0, seen), [Look(room)] + acts) == Take(Listing(Visible(d)), room + Room(acts))
            <==> Room(acts) == 0
  {
    hide Visible, Entries, Shaped, AllInRange, Items, From, Showing, Room, OnlyLooks, Fill;
    var o := LookAt(d, Cursor(0, seen), room);
    ShowingLook(d, Cursor(0, seen), room, acts);
    if Room(acts) == 0 {
      NoRoomNothing(d, o.cursor, acts);
    } else {
      HeadNotAgain(d, o.cursor, acts);
      var all := Take(Listing(Visible(d)), room + Room(acts));
      assert all[0] == Dot;
      if room == 1 {
        assert all[1] == DotDot;
      }
    }
  }

  /** In every state, reading an unchanged directory from the start shows the listing of
      what is visible, cut where the room ends, exactly when the first call has room for
      "." and "..", or nothing is read after it. */
  lemma {:induction false} ReadingResumesIff(d: Dir, seen: int, room: nat, acts: seq<Act>)
    requires Shaped(d) && AllInRange(Visible(d)) && OnlyLooks(acts)
    ensures Showing(d, Cursor(0, seen), [Look(room)] + acts) == Take(Listing(Visible(d)), room + Room(acts))
            <==> room >= 2 || Room(acts) == 0
  {
    if room >= 2 {
      WithRoom(d, seen, room, acts);
    } else {
      WithoutRoom(d, seen, room, acts);
    }
  }

  lemma {:induction false} FromIs<T>(s: seq<T>, n: nat)
    requires n <= |s|
    ensures From(s, n) == s[n..]
  {
  }

  /** After the deletion of the only entry of the last of several pages, from a directory
      whose size was right: the page before it, now the last, is hidden.  A reading gets
      nothing of it that it had not got before, although every entry but the deleted one
      is still there; nothing is missed only if that page is empty or was shown already. */
  lemma {:induction false} UnderminedReading(d: Dir, name: seq<byte>, c: Cursor, acts: seq<Act>)
    requires Shaped(d) && Tight(d) && Undermines(d, name) && AllInRange(Entries(d.layout))
    requires OnlyLooks(acts) && Shaped(Delete(d, name)) && Place(Delete(d, name), c) >= 0
    ensures var n := |d.layout|;
            var d' := Delete(d, name);
            var front, hidden := Entries(d.layout[..n - 2]), d.layout[n - 2];
            && Entries(d'.layout) == front + hidden == RemoveFirst(Entries(d.layout), name)
            && Showing(d', c, acts) == Take(Items(From(front, Place(d', c))), Room(acts))
            && ((Showing(d', c, acts) == Take(Items(From(front + hidden, Place(d', c))), Room(acts)))
                <==> hidden == [] || Room(acts) <= |front| - Place(d', c) || Place(d', c) >= |front + hidden|
                     || Room(acts) == 0)
  {
    hide Call, Entries, RemoveFirst, FindIn, Showing, LookAt, Resumed, Items, Take, From;
    var n := |d.layout|;
    var d' := Delete(d, name);
    UnderminedState(d, name);
    DeleteRemoves(d, name);
    VisibleAndHidden(d');
    var front, hidden := Entries(d.layout[..n - 2]), d.layout[n - 2];
    assert d'.layout[..n - 2] == d.layout[..n - 2];
    RemovedInRange(Entries(d.layout), name);
    assert AllInRange(front) by {
      assert forall i :: 0 <= i < |front| ==> front[i] == (front + hidden)[i];
    }
    LooksShowVisible(d', c, acts);
    TakesDiffer(front, hidden, Place(d', c), Room(acts));
  }

  lemma {:induction false} RemovedInRange(es: seq<Entry>, name: seq<byte>)
    requires AllInRange(es)
    ensures AllInRange(RemoveFirst(es, name))
  {
    hide FindIn;
    var k := FindIn(es, name);
    var r := RemoveFirst(es, name);
    assert k < |es| ==> forall i :: 0 <= i < |r| ==> r[i] == if i < k then es[i] else es[i + 1];
  }

  lemma {:induction false} UnderminedState(d: Dir, name: seq<byte>)
    requires Shaped(d) && Tight(d) && Undermines(d, name)
    ensures var d' := Delete(d, name);
            d'.layout == d.layout[..|d.layout| - 1] && d'.layout != [] && d'.size % PAGE == 0
  {
    hide Entries, RecLen, Used, FindPage, ValidEntry, Encode;
    var n := |d.layout|;
    var es := d.layout[n - 1];
    FoundOn(d.layout, name);
    assert FindIn(es, name) == 0;
    assert es == [es[0]];
    EncodeOne(es[0]);
    LastFits(d, 0);
    RecPositive(es[0]);
    Shrink(d, RecLen(es[0]));
  }

  /** Taking from a prefix or from the whole is the same exactly when nothing of the rest
      is reached. */
  lemma {:induction false} TakesDiffer(front: seq<Entry>, hidden: seq<Entry>, p: nat, room: nat)
    ensures Take(Items(From(front, p)), room) == Take(Items(From(front + hidden, p)), room)
            <==> hidden == [] || room <= |front| - p || p >= |front + hidden| || room == 0
  {
    var a, b := Items(From(front, p)), Items(From(front + hidden, p));
    if hidden == [] {
      assert front + hidden == front;
    } else if p < |front| {
      assert From(front + hidden, p) == From(front, p) + hidden;
      assert forall i :: 0 <= i < |a| ==> b[i] == a[i];
    }
  }
}
