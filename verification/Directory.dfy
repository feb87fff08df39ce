/** The directory itself (osdfs.c): page buffers changed in place, and `i_size`. */
module Directory {
  import opened Sequences
  import opened ByteOrder
  import opened DirectoryPage
  import opened DirectoryModel
  import opened DirectoryTheorems
  import opened DirectoryReading
  import opened DirectorySeries

  /** The open file of `osdfs_readdir`: f_pos and private_data. */
  class OpenDir {
    var pos: int
    var seen: int

    constructor ()
      ensures pos == 0 && seen == 0
    {
      pos, seen := 0, 0;
    }

    ghost function State(): Cursor
      reads this
    {
      Cursor(pos, seen)
    }
  }

  class Directory {
    var pages: seq<array<byte>>         // the page cache; more pages than the size covers are stale
    var size: nat                       // i_size
    ghost var layout: seq<seq<Entry>>   // the entries a scan meets on each page

    ghost function Model(): Dir
      reads this
    {
      Dir(layout, size)
    }

    ghost predicate Buffers()
      reads this, pages
    {
      && (forall i :: 0 <= i < |pages| ==> pages[i].Length == PAGE)
      && (forall i, j :: 0 <= i < j < |pages| ==> pages[i] != pages[j])
    }

    ghost predicate Valid()
      reads this, pages
    {
      && Buffers() && Shaped(Model()) && |layout| <= |pages|
      && (forall i :: 0 <= i < |layout| ==> Holds(pages[i][..], layout[i]))
      && (layout != [] ==> ZerosFrom(pages[|layout| - 1][..], Tail(Model())))
    }

    constructor ()
      ensures Valid() && layout == [] && size == 0
    {
      pages, size, layout := [], 0, [];
    }

    /** `osdfs_get_page`, for a page that exists or the next one. */
    method GetPage(n: nat) returns (page: array<byte>)
      requires Buffers() && n <= |pages|
      modifies this`pages
      ensures Buffers() && n < |pages| && page == pages[n]
      ensures pages == if n < |old(pages)| then old(pages) else old(pages) + [page]
      ensures n == |old(pages)| ==> fresh(page)
    {
      if n == |pages| {
        page := new byte[PAGE];
        pages := pages + [page];
      } else {
        page := pages[n];
      }
    }

    /** `generic_commit_write`: the size only grows. */
    method CommitWrite(index: nat, to: nat)
      modifies this`size
      ensures size == if index * PAGE + to > old(size) then index * PAGE + to else old(size)
    {
      var pos := index * PAGE + to;
      if pos > size {
        size := pos;
      }
    }

    /** `entry_num` */
    method EntryNum() returns (num: nat)
      requires Valid()
      ensures num == |Entries(layout)|
    {
      num := 0;
      var n := DirPages(size);
      var i := 0;
      while i < n
        invariant 0 <= i <= n && num == |Entries(layout[..i])|
      {
        var here := CountPage(pages[i], layout[i]);
        CountNext(layout, i);
        num := num + here;
        i := i + 1;
      }
      assert layout[..n] == layout;
    }

    /** `osdfs_lookup`, up to the inode number. */
    method LookupName(name: seq<byte>) returns (ino: Option<nat>)
      requires Valid() && Name(name)
      ensures ino == Lookup(layout, name)
    {
      var i := DirPages(size) - 1;
      assert layout[..i + 1] == layout;
      while i >= 0
        invariant -1 <= i < |layout| && Lookup(layout[..i + 1], name) == Lookup(layout, name)
      {
        var found, at := FindOnPage(pages[i], layout[i], name);
        assert layout[..i + 1][..i] == layout[..i];
        if found {
          var ptr := at + |name| + 1;
          return Some(Joined(pages[i][ptr..ptr + INO]));
        }
        i := i - 1;
      }
      ino := None;
    }

    /** `entry_add` */
    method EntryAdd(e: Entry)
      requires Valid() && ValidEntry(e)
      modifies this, pages
      ensures Valid() && |old(pages)| <= |pages|
      ensures old(layout == [] ==> size % PAGE == 0) && Model() == Add(old(Model()), e)
      ensures Entries(layout)
              == old(Entries(layout)) + (if old(Tight(Model()) || Overflows(Model(), e)) then [e] else [])
    {
      hide Holds, ZerosFrom, Add, Entries, Shaped, Tight;
      ghost var d := Model();
      AddLandsIff(d, e);
      AddedSize(d, e);
      AddedLayout(d, e);
      var n := DirPages(size);
      ShapedPages(d);
      var offset := size % PAGE;
      var len := |e.name| + 2 + INO;
      if offset + len >= PAGE {
        offset := 0;
      }
      if offset == 0 {
        n := n + 1;
      }
      var page := GetPage(n - 1);
      ghost var now := pages;
      WriteEntry(page, offset, e, d);
      CommitWrite(n - 1, offset + len);
      layout := Add(d, e).layout;
      assert page == pages[|layout| - 1];
    }

    /** `entry_del` */
    method EntryDel(name: seq<byte>) returns (ok: bool)
      requires Valid() && Name(name)
      modifies this`size, this`layout, pages
      ensures Valid() && pages == old(pages)
      ensures Model() == Delete(old(Model()), name)
      ensures Entries(layout) == RemoveFirst(old(Entries(layout)), name)
      ensures ok <==> Named(old(Entries(layout)), name)
    {
      hide Holds, ZerosFrom, Entries, Delete, Shaped, Named, RemoveFirst, Used, FindIn, FindPage;
      ghost var d := Model();
      DeleteRemoves(d, name);
      NamedIff(d.layout, name);
      ShapedPages(d);
      var n := DirPages(size);
      var i := 0;
      while i < n
        invariant 0 <= i <= FindPage(layout, name) <= n
        invariant Valid() && pages == old(pages) && Model() == d
      {
        var found, at := FindOnPage(pages[i], layout[i], name);
        FoundPage(layout, name, i);
        if found {
          CutEntry(i, at, name);
          return true;
        }
        i := i + 1;
      }
      DeleteMissing(d, name);
      ok := false;
    }

    /** The commit of `entry_del`: the record at `at` of page `i` goes, and the size with
        it if the page is the last. */
    method CutEntry(i: nat, at: nat, name: seq<byte>)
      requires Valid() && i < |layout| && i == FindPage(layout, name)
      requires FindIn(layout[i], name) < |layout[i]| && at == Used(layout[i][..FindIn(layout[i], name)])
      modifies this`size, this`layout, pages
      ensures Valid() && pages == old(pages)
      ensures Model() == Delete(old(Model()), name)
    {
      hide Holds, ZerosFrom, Entries, Delete, Shaped, Used, FindIn, FindPage, Cut, RecLen, Named, RemoveFirst;
      ghost var d := Model();
      ShapedPages(d);
      var n := DirPages(size);
      ghost var p := pages[i][..];
      CutBounds(d, name, p);
      var len := |name| + 2 + INO;
      CutRecord(pages[i], at, len);
      DeletedPage(d, name, p, pages[i][..]);
      DeletedSize(d, name);
      DeleteRemoves(d, name);
      if i == n - 1 {
        size := size - len;
        CommitWrite(i, size % PAGE);
      } else {
        CommitWrite(i, PAGE);
      }
      layout := Delete(d, name).layout;
      assert Model() == Delete(d, name);
      hide Tail, DirPages;
      ghost var last := |layout| - 1;
      if layout != [] {
        NothingBeyond(pages[last][..]);
        assert last != i ==> pages[last] != pages[i];
        assert ZerosFrom(pages[last][..], Tail(Model()));
      }
    }

    /** `osdfs_readdir`; the caller's buffer takes `room` entries. */
    method Readdir(f: OpenDir, room: nat) returns (out: seq<Shown>, ok: bool)
      requires Valid()
      modifies f
      ensures Outcome(f.State(), out, ok)
              == Call(Visible(Model()), |Entries(layout)|, old(f.State()), room)
    {
      hide Holds, Shaped, Entries, Fill, Visible, ZerosFrom, Used;
      var num := EntryNum();
      var offset := f.pos;
      if offset != 0 {
        if f.seen > num {
          offset := offset - (f.seen - num);
          f.pos := offset;
          f.seen := num;
        }
      } else {
        f.seen := num;
      }
      ghost var c := Resumed(num, old(f.State()));
      assert Cursor(f.pos, f.seen) == c;
      hide Resumed;
      out := [];
      if offset == 0 {
        f.pos := f.pos + 1;
        if |out| >= room { return out, false; }
        out := out + [Dot];
      }
      if offset == 0 || offset == 1 {
        f.pos := f.pos + 1;
        if |out| >= room { return out, false; }
        out := out + [DotDot];
      }
      var shown;
      shown, ok := ReadPages(offset - 2, room - |out|);
      out := out + shown;
      f.pos := f.pos + |shown|;
    }

    /** What a process that reads the directory gets while entries are deleted. */
    method ReadAndDelete(f: OpenDir, acts: seq<Act>) returns (out: seq<Shown>)
      requires Valid() && forall i :: 0 <= i < |acts| && acts[i].Erase? ==> Name(acts[i].name)
      modifies this`size, this`layout, pages, f
      ensures Valid() && pages == old(pages)
      ensures out == Showing(old(Model()), old(f.State()), acts)
    {
      hide Call, Delete, Entries, Visible, Shaped, Holds, ZerosFrom, Name, RemoveFirst;
      ghost var d := Model();
      ghost var all := Showing(d, f.State(), acts);
      out := [];
      var i := 0;
      assert acts[0..] == acts;
      while i < |acts|
        invariant 0 <= i <= |acts| && Valid() && pages == old(pages)
        invariant out + Showing(Model(), f.State(), acts[i..]) == all
      {
        assert acts[i..][0] == acts[i] && acts[i..][1..] == acts[i + 1..];
        match acts[i] {
          case Look(room) =>
            ghost var rest := Showing(Model(), f.State(), acts[i..]);
            var more, ok := Readdir(f, room);
            assert rest == more + Showing(Model(), f.State(), acts[i + 1..]);
            Associates(out, more, Showing(Model(), f.State(), acts[i + 1..]));
            out := out + more;
          case Erase(name) =>
            var ok := EntryDel(name);
        }
        i := i + 1;
      }
      assert Showing(Model(), f.State(), []) == [];
    }

    /** The loops of `osdfs_readdir` over pages and records. */
    method ReadPages(skip: int, space: nat) returns (out: seq<Shown>, ok: bool)
      requires Valid()
      ensures (out, ok) == Fill(Visible(Model()), skip, space)
    {
      hide Holds, Shaped, Fill, Entries, Used;
      ghost var d := Model();
      ShapedPages(d);
      VisiblePages(d);
      var n := DirPages(size);
      ghost var all := Fill(Visible(d), skip, space);
      var offset, room := skip, space;
      out := [];
      assert out + all.0 == all.0;
      var i := 0;
      while i < n
        invariant 0 <= i <= n
        invariant Continues(all, out, ShownFrom(d, i), offset, room)
      {
        var limit := if i == n - 1 then size % PAGE else PAGE;
        ShownNext(d, i);
        LimitOk(d, i);
        var more, full;
        out, offset, room, more, full := ReadPage(pages[i], layout[i], limit, offset, room, out, all, ShownFrom(d, i + 1));
        if !more {
          return out, full;
        }
        i := i + 1;
      }
      ok := true;
      FillEnd(offset, room);
      assert ShownFrom(d, n) == [] && out + [] == out;
    }
  }

  /** Zero the page if it is a new one, and store the record. */
  method WriteEntry(page: array<byte>, offset: nat, e: Entry, ghost d: Dir)
    requires page.Length == PAGE && Shaped(d) && ValidEntry(e) && (d.layout == [] ==> d.size % PAGE == 0)
    requires offset == if Overflows(d, e) then 0 else d.size % PAGE
    requires !Overflows(d, e) ==> d.layout != [] && Holds(page[..], d.layout[|d.layout| - 1])
                                  && ZerosFrom(page[..], Tail(d))
    modifies page
    ensures var d' := Add(d, e);
            d'.layout != [] && Holds(page[..], d'.layout[|d'.layout| - 1]) && ZerosFrom(page[..], Tail(d'))
  {
    hide Holds, Add, Shaped, Record;
    if offset == 0 {
      forall i | 0 <= i < PAGE { page[i] := 0; }
      FreshPage(page[..]);
    }
    ghost var before := page[..];
    Fits(e);
    StoreRecord(page, offset, e);
    PageAdded(d, e, before, page[..]);
  }

  lemma {:induction false} Fits(e: Entry)
    requires ValidEntry(e)
    ensures RecLen(e) < PAGE
  {
  }

  lemma {:induction false} ShapedPages(d: Dir)
    requires Shaped(d)
    ensures |d.layout| == DirPages(d.size) && (d.layout == [] ==> d.size == 0)
  {
    EmptyIsWhole(d);
  }

  /** Only the last page of the result differs. */
  lemma {:induction false} AddedLayout(d: Dir, e: Entry)
    requires Shaped(d) && ValidEntry(e)
    ensures d.layout == [] ==> d.size % PAGE == 0
    ensures var layout := Add(d, e).layout;
            && |layout| == |d.layout| + (if Overflows(d, e) then 1 else 0) > 0
            && forall i :: 0 <= i < |layout| - 1 ==> layout[i] == d.layout[i]
  {
    EmptyIsWhole(d);
  }

  // ----- scans of one page

  method CountPage(page: array<byte>, ghost es: seq<Entry>) returns (num: nat)
    requires Holds(page[..], es)
    ensures num == |es|
  {
    num := 0;
    var ptr := 0;
    while ptr < PAGE && page[ptr] != 0
      invariant num <= |es| && ptr == Used(es[..num])
      decreases |es| - num
    {
      ScanAt(page[..], es, num);
      var n := Strlen(page, ptr, es[num].name);
      ptr := ptr + n + 2 + INO;
      num := num + 1;
    }
    ScanAt(page[..], es, num);
  }

  method FindOnPage(page: array<byte>, ghost es: seq<Entry>, name: seq<byte>) returns (found: bool, at: nat)
    requires Holds(page[..], es) && Name(name)
    ensures found <==> FindIn(es, name) < |es|
    ensures found ==> at == Used(es[..FindIn(es, name)])
                      && at + |name| + 1 + INO < PAGE
                      && Joined(page[at + |name| + 1..at + |name| + 1 + INO]) == es[FindIn(es, name)].ino
  {
    ghost var k := 0;
    at := 0;
    while at < PAGE && page[at] != 0
      invariant k <= |es| && at == Used(es[..k]) && k <= FindIn(es, name)
      decreases |es| - k
    {
      ScanAt(page[..], es, k);
      var same := Strcmp(page, at, es[k].name, name);
      if same {
        return true, at;
      }
      var n := Strlen(page, at, es[k].name);
      at := at + n + 1;
      at := at + INO + 1;
      k := k + 1;
    }
    ScanAt(page[..], es, k);
    found := false;
  }

  lemma {:induction false} CountNext(layout: seq<seq<Entry>>, i: nat)
    requires i < |layout|
    ensures |Entries(layout[..i + 1])| == |Entries(layout[..i])| + |layout[i]|
  {
    AroundOne(layout, i);
    EntriesAppend(layout[..i], [layout[i]]);
    EntriesOne(layout[i]);
  }

  lemma {:induction false} FreshPage(p: seq<byte>)
    requires |p| == PAGE && ZerosFrom(p, 0)
    ensures Holds(p, [])
  {
  }

  lemma {:induction false} AddedSize(d: Dir, e: Entry)
    requires Shaped(d) && ValidEntry(e)
    ensures d.layout == [] ==> d.size % PAGE == 0
    ensures var n := |d.layout|;
            Add(d, e).size == if Overflows(d, e) then n * PAGE + RecLen(e)
                              else (n - 1) * PAGE + d.size % PAGE + RecLen(e)
    ensures Add(d, e).size > d.size && Tail(Add(d, e)) == (if Overflows(d, e) then 0 else d.size % PAGE) + RecLen(e)
  {
    EmptyIsWhole(d);
    if d.layout != [] { TailRange(d); }
  }

  /** The page that was written holds what the addition says. */
  lemma {:induction false} PageAdded(d: Dir, e: Entry, p: seq<byte>, p': seq<byte>)
    requires Shaped(d) && ValidEntry(e) && (d.layout == [] ==> d.size % PAGE == 0)
    requires Wrote(p, p', if Overflows(d, e) then 0 else d.size % PAGE, Record(e))
    requires if Overflows(d, e) then Holds(p, []) && ZerosFrom(p, 0)
             else Holds(p, d.layout[|d.layout| - 1]) && ZerosFrom(p, Tail(d))
    ensures var d' := Add(d, e);
            d'.layout != [] && Holds(p', d'.layout[|d'.layout| - 1]) && ZerosFrom(p', Tail(d'))
  {
    AddedSize(d, e);
    if Overflows(d, e) {
      AppendsRecord(p, [], e, p');
    } else {
      TailRange(d);
      if Tight(d) {
        AppendsRecord(p, d.layout[|d.layout| - 1], e, p');
      } else {
        HidesRecord(p, d.layout[|d.layout| - 1], d.size % PAGE, e, p');
      }
    }
  }

  // ----- deleting

  lemma {:induction false} FindAt(layout: seq<seq<Entry>>, name: seq<byte>, i: nat)
    requires i <= FindPage(layout, name) && i < |layout|
    ensures i == FindPage(layout, name) <==> FindIn(layout[i], name) < |layout[i]|
  {
  }

  lemma {:induction false} FoundPage(layout: seq<seq<Entry>>, name: seq<byte>, i: nat)
    requires i <= FindPage(layout, name) && i < |layout|
    ensures if FindIn(layout[i], name) < |layout[i]| then i == FindPage(layout, name) else i < FindPage(layout, name)
    ensures FindIn(layout[i], name) < |layout[i]| ==> layout[i][FindIn(layout[i], name)].name == name
  {
    FindAt(layout, name, i);
  }

  lemma {:induction false} NamedIff(layout: seq<seq<Entry>>, name: seq<byte>)
    ensures Named(Entries(layout), name) <==> FindPage(layout, name) < |layout|
  {
    var i := FindPage(layout, name);
    if i < |layout| {
      var k := FindIn(layout[i], name);
      EntriesAround(layout, i, layout[i]);
      assert Entries(layout)[|Entries(layout[..i])| + k] == layout[i][k];
    } else {
      FindEntries(layout, name);
    }
  }

  lemma {:induction false} CutBounds(d: Dir, name: seq<byte>, p: seq<byte>)
    requires FindPage(d.layout, name) < |d.layout| && Holds(p, d.layout[FindPage(d.layout, name)])
    ensures var es := d.layout[FindPage(d.layout, name)];
            var k := FindIn(es, name);
            && k < |es| && RecLen(es[k]) == |name| + 2 + INO
            && Used(es[..k]) + RecLen(es[k]) < PAGE
  {
    var es := d.layout[FindPage(d.layout, name)];
    RecordAt(p, es, FindIn(es, name));
  }

  lemma {:induction false} NothingBeyond(p: seq<byte>)
    requires |p| == PAGE
    ensures ZerosFrom(p, PAGE)
  {
  }

  lemma {:induction false} DeleteMissing(d: Dir, name: seq<byte>)
    requires Shaped(d) && FindPage(d.layout, name) == |d.layout|
    ensures Delete(d, name) == d
  {
  }

  /** The buffers after the cut hold what the deletion says. */
  lemma {:induction false} DeletedPage(d: Dir, name: seq<byte>, p: seq<byte>, p': seq<byte>)
    requires Shaped(d) && FindPage(d.layout, name) < |d.layout|
    requires var es := d.layout[FindPage(d.layout, name)];
             Holds(p, es) && Cut(p, p', Used(es[..FindIn(es, name)]), RecLen(es[FindIn(es, name)]))
    ensures var i := FindPage(d.layout, name);
            var d' := Delete(d, name);
            && |d'.layout| <= |d.layout|
            && (i < |d'.layout| ==> Holds(p', d'.layout[i]))
            && (forall j :: 0 <= j < |d'.layout| && j != i ==> d'.layout[j] == d.layout[j])
            && (d'.layout != [] ==>
                  if i < |d.layout| - 1 then |d'.layout| == |d.layout| && Tail(d') == Tail(d)
                  else if |d'.layout| < |d.layout| then Tail(d') == PAGE
                  else ZerosFrom(p, Tail(d)) ==> ZerosFrom(p', Tail(d')))
  {
    var i := FindPage(d.layout, name);
    var es := d.layout[i];
    var k := FindIn(es, name);
    RemovesRecord(p, es, k, p');
    if i == |d.layout| - 1 {
      LastFits(d, k);
      RecordAt(p, es, k);
      Shrink(d, RecLen(es[k]));
      if ZerosFrom(p, Tail(d)) {
        CutZeros(p, p', Used(es[..k]), RecLen(es[k]), Tail(d));
      }
    }
  }

  lemma {:induction false} DeletedSize(d: Dir, name: seq<byte>)
    requires Shaped(d) && FindPage(d.layout, name) < |d.layout|
    ensures var i := FindPage(d.layout, name);
            var r := RecLen(d.layout[i][FindIn(d.layout[i], name)]);
            if i < |d.layout| - 1 then Delete(d, name).size == d.size && (i + 1) * PAGE <= d.size
            else r <= d.size && Delete(d, name).size == d.size - r
                 && i * PAGE + (d.size - r) % PAGE == d.size - r
  {
    var i := FindPage(d.layout, name);
    TailRange(d);
    if i == |d.layout| - 1 {
      var k := FindIn(d.layout[i], name);
      LastFits(d, k);
      Shrink(d, RecLen(d.layout[i][k]));
    }
  }

  // ----- reading

  /** What is shown of the pages from `i` on. */
  function ShownFrom(d: Dir, i: nat): seq<Entry>
    requires i <= |d.layout|
  {
    if i == |d.layout| then []
    else if d.size % PAGE == 0 then Entries(d.layout[i..|d.layout| - 1])
    else Entries(d.layout[i..])
  }

  function ShownOn(d: Dir, i: nat): seq<Entry>
    requires i < |d.layout|
  {
    if i == |d.layout| - 1 && d.size % PAGE == 0 then [] else d.layout[i]
  }

  lemma {:induction false} VisiblePages(d: Dir)
    ensures ShownFrom(d, 0) == Visible(d)
  {
    assert d.layout[0..] == d.layout;
  }

  lemma {:induction false} ShownNext(d: Dir, i: nat)
    requires i < |d.layout|
    ensures ShownFrom(d, i) == ShownOn(d, i) + ShownFrom(d, i + 1)
  {
    var n := |d.layout|;
    if d.size % PAGE == 0 {
      if i < n - 1 {
        assert d.layout[i..n - 1][1..] == d.layout[i + 1..n - 1];
      }
    } else {
      assert d.layout[i..][1..] == d.layout[i + 1..];
      assert d.layout[i..][0] == d.layout[i];
      assert d.layout[n..] == [];
      EntriesNone();
    }
  }

  lemma {:induction false} LimitOk(d: Dir, i: nat)
    requires Shaped(d) && i < |d.layout|
    ensures var limit := if i == |d.layout| - 1 then d.size % PAGE else PAGE;
            limit <= PAGE && ShownOn(d, i) == (if limit == 0 then [] else d.layout[i])
            && (limit == 0 || Used(d.layout[i]) <= limit)
  {
    TailRange(d);
  }

  /** `all` is `out` and then what filling goes on to give from `rest`. */
  ghost predicate Continues(all: (seq<Shown>, bool), out: seq<Shown>, rest: seq<Entry>, skip: int, room: nat) {
    var (more, ok) := Fill(rest, skip, room);
    all == (out + more, ok)
  }

  lemma {:induction false} FillEnd(skip: int, room: nat)
    ensures Fill([], skip, room) == ([], true)
  {
  }

  lemma {:induction false} FillNext(es: seq<Entry>, k: nat, rest: seq<Entry>, skip: int, room: nat)
    requires k < |es|
    ensures Fill(es[k..] + rest, skip, room)
         == if skip > 0 then Fill(es[k + 1..] + rest, skip - 1, room)
            else if !InRange(es[k].ino) then ([], false)
            else if room == 0 then ([], true)
            else var (out, ok) := Fill(es[k + 1..] + rest, 0, room - 1);
                 ([ItemOf(es[k])] + out, ok)
  {
    assert (es[k..] + rest)[0] == es[k];
    assert (es[k..] + rest)[1..] == es[k + 1..] + rest;
  }

  /** A skip that is not positive is no skip. */
  lemma {:induction false} FillAt(es: seq<Entry>, skip: int, room: nat)
    requires skip <= 0
    ensures Fill(es, skip, room) == Fill(es, 0, room)
  {
  }

  lemma {:induction false} ContinuesWith(all: (seq<Shown>, bool), out: seq<Shown>, es: seq<Entry>, k: nat,
                                         rest: seq<Entry>, skip: int, room: nat)
    requires k < |es| && Continues(all, out, es[k..] + rest, skip, room)
    ensures skip > 0 ==> Continues(all, out, es[k + 1..] + rest, skip - 1, room)
    ensures skip <= 0 && !InRange(es[k].ino) ==> all == (out, false)
    ensures skip <= 0 && InRange(es[k].ino) && room == 0 ==> all == (out, true)
    ensures skip <= 0 && InRange(es[k].ino) && room > 0 ==>
              Continues(all, out + [ItemOf(es[k])], es[k + 1..] + rest, skip, room - 1)
  {
    FillNext(es, k, rest, skip, room);
    hide Fill;
    assert out + [] == out;
    if skip <= 0 && InRange(es[k].ino) && room > 0 {
      FillAt(es[k + 1..] + rest, skip, room - 1);
      var more := Fill(es[k + 1..] + rest, 0, room - 1).0;
      assert out + ([ItemOf(es[k])] + more) == out + [ItemOf(es[k])] + more;
    }
  }

  /** The inner loop, over one page up to `limit`. */
  method ReadPage(page: array<byte>, ghost es: seq<Entry>, limit: nat, skip: int, space: nat, before: seq<Shown>,
                  ghost all: (seq<Shown>, bool), ghost rest: seq<Entry>)
    returns (out: seq<Shown>, offset: int, room: nat, more: bool, full: bool)
    requires page.Length == PAGE && Holds(page[..], es) && limit <= PAGE && (limit == 0 || Used(es) <= limit)
    requires Continues(all, before, (if limit == 0 then [] else es) + rest, skip, space)
    ensures more ==> Continues(all, out, rest, offset, room)
    ensures !more ==> all == (out, full)
  {
    hide Holds, Used, Continues;
    out, offset, room, more, full := before, skip, space, true, false;
    ghost var k := 0;
    var ptr := 0;
    if limit == 0 {
      assert [] + rest == rest;
      return;
    }
    UsedNone(es);
    while ptr < limit && page[ptr] != 0
      invariant k <= |es| && ptr == Used(es[..k])
      invariant Continues(all, out, es[k..] + rest, offset, room)
      decreases |es| - k
    {
      ScanAt(page[..], es, k);
      var n := Strlen(page, ptr, es[k].name);
      ContinuesWith(all, out, es, k, rest, offset, room);
      if offset > 0 {
        offset := offset - 1;
      } else {
        var ino := Joined(page[ptr + n + 1..ptr + n + 1 + INO]);
        if ino > 0xfff123 || ino < 0xabc123 {
          return out, offset, room, false, false;
        }
        if room == 0 {
          return out, offset, room, false, true;
        }
        out := out + [Item(page[ptr..ptr + n], ino)];
        room := room - 1;
      }
      ptr := ptr + n + 2 + INO;
      k := k + 1;
    }
    ScanEnds(page[..], es, k, limit);
    assert es[k..] + rest == rest;
  }

  lemma {:induction false} UsedNone(es: seq<Entry>)
    ensures Used(es[..0]) == 0 && es[0..] == es
  {
  }

  lemma {:induction false} ScanEnds(p: seq<byte>, es: seq<Entry>, k: nat, limit: nat)
    requires Holds(p, es) && k <= |es| && Used(es) <= limit
    requires var at := Used(es[..k]); at < limit ==> at < |p| && p[at] == 0
    ensures k == |es|
  {
    ScanAt(p, es, k);
    if k < |es| {
      UsedNext(es, k);
    }
  }
}
