/** A directory as the list of entries on each of its pages, and its recorded size
    (osdfs.c).  Everything that is appended or removed works on the last page through
    the size alone, so the size must agree with what the last page holds. */
module DirectoryModel {
  import opened ByteOrder
  import opened Sequences
  import opened DirectoryPage

  datatype Dir = Dir(layout: seq<seq<Entry>>, size: nat)

  /** `dir_pages` */
  function DirPages(size: nat): nat {
    (size + PAGE - 1) / PAGE
  }

  function Entries(layout: seq<seq<Entry>>): seq<Entry> {
    if layout == [] then [] else layout[0] + Entries(layout[1..])
  }

  /** How far the size reaches into the last page. */
  function Tail(d: Dir): int {
    d.size - (|d.layout| - 1) * PAGE
  }

  ghost predicate PageOk(es: seq<Entry>) {
    Used(es) < PAGE && AllValid(es)
  }

  /** What every operation keeps, in every state. */
  ghost predicate Shaped(d: Dir) {
    && |d.layout| == DirPages(d.size)
    && (forall i :: 0 <= i < |d.layout| ==> PageOk(d.layout[i]))
    && (d.layout != [] ==> Used(d.layout[|d.layout| - 1]) <= Tail(d))
  }

  /** The size ends where the records of the last page end. */
  predicate Tight(d: Dir) {
    d.layout == [] || Used(d.layout[|d.layout| - 1]) == Tail(d)
  }

  lemma {:induction false} PagesOf(n: nat, tail: nat)
    requires 1 <= tail <= PAGE
    ensures DirPages(n * PAGE + tail) == n + 1
    ensures (n * PAGE + tail) % PAGE == if tail == PAGE then 0 else tail
  {
    var size := n * PAGE + tail;
    Quotient(size + PAGE - 1, PAGE, n + 1, tail - 1);
    if tail < PAGE {
      Quotient(size, PAGE, n, tail);
    } else {
      Quotient(size, PAGE, n + 1, 0);
    }
  }

  lemma {:induction false} PagesOfFull(n: nat)
    ensures DirPages(n * PAGE) == n && (n * PAGE) % PAGE == 0
  {
    Quotient(n * PAGE + (PAGE - 1), PAGE, n, PAGE - 1);
    Quotient(n * PAGE, PAGE, n, 0);
  }

  lemma {:induction false} TailRange(d: Dir)
    requires |d.layout| == DirPages(d.size) && d.layout != []
    ensures 1 <= Tail(d) <= PAGE
    ensures d.size % PAGE == if Tail(d) == PAGE then 0 else Tail(d)
  {
    var q := (d.size + PAGE - 1) / PAGE;
    assert d.size + PAGE - 1 == q * PAGE + (d.size + PAGE - 1) % PAGE;
    PagesOf(q - 1, Tail(d));
  }

  lemma {:induction false} EntriesAppend(a: seq<seq<Entry>>, b: seq<seq<Entry>>)
    ensures Entries(a + b) == Entries(a) + Entries(b)
  {
    if a == [] {
      assert a + b == b;
    } else {
      assert (a + b)[0] == a[0] && (a + b)[1..] == a[1..] + b;
      EntriesAppend(a[1..], b);
      assert Entries(a + b) == a[0] + (Entries(a[1..]) + Entries(b));
    }
  }

  lemma {:induction false} EntriesOne(es: seq<Entry>)
    ensures Entries([es]) == es
  {
    assert [es][1..] == [];
    assert Entries([es]) == es + Entries([]);
  }

  lemma {:induction false} EntriesAround(layout: seq<seq<Entry>>, i: nat, es: seq<Entry>)
    requires i < |layout|
    ensures Entries(layout[i := es]) == Entries(layout[..i]) + es + Entries(layout[i + 1..])
    ensures Entries(layout) == Entries(layout[..i]) + layout[i] + Entries(layout[i + 1..])
  {
    hide Entries;
    AroundOne(layout, i);
    EntriesAppend(layout[..i] + [layout[i]], layout[i + 1..]);
    EntriesAppend(layout[..i], [layout[i]]);
    EntriesOne(layout[i]);
    AroundOne(layout[i := es], i);
    EntriesAppend(layout[..i] + [es], layout[i + 1..]);
    EntriesAppend(layout[..i], [es]);
    EntriesOne(es);
    assert layout[i := es][..i] == layout[..i] && layout[i := es][i + 1..] == layout[i + 1..];
  }

  // ----- adding

  /** The record starts a page of its own. */
  predicate Overflows(d: Dir, e: Entry) {
    d.size % PAGE == 0 || d.size % PAGE + RecLen(e) >= PAGE
  }

  /** `entry_add` */
  function Add(d: Dir, e: Entry): Dir
    requires d.layout == [] ==> d.size % PAGE == 0
  {
    var n := |d.layout|;
    if Overflows(d, e) then
      Dir(d.layout + [[e]], n * PAGE + RecLen(e))
    else if Tight(d) then
      Dir(d.layout[n - 1 := d.layout[n - 1] + [e]], d.size + RecLen(e))
    else
      Dir(d.layout, d.size + RecLen(e))
  }

  lemma {:induction false} EmptyIsWhole(d: Dir)
    requires Shaped(d)
    ensures d.layout == [] ==> d.size == 0
  {
  }

  lemma {:induction false} AddOverflow(d: Dir, e: Entry)
    requires Shaped(d) && ValidEntry(e) && Overflows(d, e)
    ensures (d.layout == [] ==> d.size % PAGE == 0)
    ensures Shaped(Add(d, e)) && Tight(Add(d, e)) && Entries(Add(d, e).layout) == Entries(d.layout) + [e]
  {
    EmptyIsWhole(d);
    EncodeOne(e);
    PagesOf(|d.layout|, RecLen(e));
    EntriesAppend(d.layout, [[e]]);
    EntriesOne([e]);
  }

  lemma {:induction false} AddTight(d: Dir, e: Entry)
    requires Shaped(d) && ValidEntry(e) && !Overflows(d, e) && Tight(d)
    ensures (d.layout == [] ==> d.size % PAGE == 0)
    ensures Shaped(Add(d, e)) && Tight(Add(d, e)) && Entries(Add(d, e).layout) == Entries(d.layout) + [e]
  {
    hide Used, RecLen, Entries, ValidEntry, Encode;
    EmptyIsWhole(d);
    TailRange(d);
    var n := |d.layout|;
    var last := d.layout[n - 1];
    EncodeAppend(last, [e]);
    EncodeOne(e);
    PagesOf(n - 1, Tail(d) + RecLen(e));
    EntriesAround(d.layout, n - 1, last + [e]);
    assert d.layout[n..] == [];
    EntriesNone();
    assert AllValid(last + [e]);
  }

  lemma {:induction false} EntriesNone()
    ensures Entries([]) == []
  {
  }

  lemma {:induction false} AddHole(d: Dir, e: Entry)
    requires Shaped(d) && ValidEntry(e) && !Overflows(d, e) && !Tight(d)
    ensures Shaped(Add(d, e)) && !Tight(Add(d, e)) && Add(d, e).layout == d.layout
  {
    TailRange(d);
    PagesOf(|d.layout| - 1, Tail(d) + RecLen(e));
  }

  /** `entry_add` appends the entry exactly when the size is right or a page is begun;
      otherwise the record is written where no scan reaches it. */
  lemma {:induction false} AddLandsIff(d: Dir, e: Entry)
    requires Shaped(d) && ValidEntry(e)
    ensures d.layout == [] ==> d.size % PAGE == 0
    ensures Shaped(Add(d, e))
    ensures Entries(Add(d, e).layout) == Entries(d.layout) + [e] <==> Tight(d) || Overflows(d, e)
    ensures !(Tight(d) || Overflows(d, e)) ==> Entries(Add(d, e).layout) == Entries(d.layout)
    ensures Tight(Add(d, e)) <==> Tight(d) || Overflows(d, e)
  {
    EmptyIsWhole(d);
    if Overflows(d, e) {
      AddOverflow(d, e);
    } else if Tight(d) {
      AddTight(d, e);
    } else {
      AddHole(d, e);
      assert |Entries(d.layout) + [e]| != |Entries(d.layout)|;
    }
  }

  /** The size grows by the record in every state, from the end of the pages if a page is
      begun. */
  lemma {:induction false} AddGrows(d: Dir, e: Entry)
    requires d.layout == [] ==> d.size % PAGE == 0
    ensures var begun := d.size % 4096 == 0 || d.size % 4096 + |e.name| + 10 >= 4096;
            && Add(d, e).size == (if begun then 4096 * |d.layout| else d.size) + |e.name| + 10
            && |Add(d, e).layout| == |d.layout| + if begun then 1 else 0
  {
  }

  // ----- deleting

  /** The first entry of that name on a page, or the number of entries. */
  function FindIn(es: seq<Entry>, name: seq<byte>): (k: nat)
    ensures k <= |es|
    ensures k < |es| ==> es[k].name == name
    ensures forall j :: 0 <= j < k ==> es[j].name != name
  {
    if es == [] then 0 else if es[0].name == name then 0 else 1 + FindIn(es[1..], name)
  }

  /** The first page with an entry of that name, or the number of pages. */
  function FindPage(layout: seq<seq<Entry>>, name: seq<byte>): (i: nat)
    ensures i <= |layout|
    ensures i < |layout| ==> FindIn(layout[i], name) < |layout[i]|
    ensures forall j :: 0 <= j < i ==> FindIn(layout[j], name) == |layout[j]|
  {
    if layout == [] then 0
    else if FindIn(layout[0], name) < |layout[0]| then 0 else 1 + FindPage(layout[1..], name)
  }

  function RemoveFirst(es: seq<Entry>, name: seq<byte>): seq<Entry> {
    var k := FindIn(es, name);
    if k < |es| then WithoutAt(es, k) else es
  }

  /** `entry_del` */
  function Delete(d: Dir, name: seq<byte>): Dir
    requires Shaped(d)
  {
    var n := |d.layout|;
    var i := FindPage(d.layout, name);
    if i == n then d
    else
      var k := FindIn(d.layout[i], name);
      var layout := d.layout[i := WithoutAt(d.layout[i], k)];
      if i < n - 1 then Dir(layout, d.size)
      else
        LastFits(d, k);
        var size := d.size - RecLen(d.layout[i][k]);
        Dir(if DirPages(size) == n then layout else d.layout[..n - 1], size)
  }

  lemma {:induction false} LastFits(d: Dir, k: nat)
    requires Shaped(d) && d.layout != [] && k < |d.layout[|d.layout| - 1]|
    ensures var es := d.layout[|d.layout| - 1];
            RecLen(es[k]) <= Used(es) <= Tail(d) <= d.size
  {
    hide RecLen, Used, Encode;
    EncodeSplit(d.layout[|d.layout| - 1], k);
    AtLeastZero(|d.layout| - 1);
  }

  lemma {:induction false} AtLeastZero(n: nat)
    ensures n * PAGE >= 0
  {
  }

  lemma {:induction false} FindAppend(a: seq<Entry>, b: seq<Entry>, name: seq<byte>)
    ensures FindIn(a + b, name) == if FindIn(a, name) < |a| then FindIn(a, name) else |a| + FindIn(b, name)
  {
    if a == [] {
      assert a + b == b;
    } else {
      assert (a + b)[0] == a[0] && (a + b)[1..] == a[1..] + b;
      FindAppend(a[1..], b, name);
    }
  }

  lemma {:induction false} FindEntries(layout: seq<seq<Entry>>, name: seq<byte>)
    requires FindPage(layout, name) == |layout|
    ensures FindIn(Entries(layout), name) == |Entries(layout)|
  {
    if layout != [] {
      FindEntries(layout[1..], name);
      FindAppend(layout[0], Entries(layout[1..]), name);
    }
  }

  lemma {:induction false} FindPageBefore(layout: seq<seq<Entry>>, name: seq<byte>, i: nat)
    requires i <= FindPage(layout, name)
    ensures FindPage(layout[..i], name) == i
  {
    if i > 0 {
      assert layout[..i][1..] == layout[1..][..i - 1];
      FindPageBefore(layout[1..], name, i - 1);
    }
  }

  lemma {:induction false} WithoutMiddle(a: seq<Entry>, es: seq<Entry>, b: seq<Entry>, k: nat)
    requires k < |es|
    ensures WithoutAt(a + es + b, |a| + k) == a + WithoutAt(es, k) + b
  {
  }

  /** What is removed from one page is the first entry of that name in the directory. */
  lemma {:induction false} RemovesFirst(layout: seq<seq<Entry>>, name: seq<byte>)
    requires FindPage(layout, name) < |layout|
    ensures var i := FindPage(layout, name);
            Entries(layout[i := WithoutAt(layout[i], FindIn(layout[i], name))])
            == RemoveFirst(Entries(layout), name)
  {
    var i := FindPage(layout, name);
    var k := FindIn(layout[i], name);
    var a, b := Entries(layout[..i]), Entries(layout[i + 1..]);
    EntriesAround(layout, i, WithoutAt(layout[i], k));
    FindPageBefore(layout, name, i);
    FindEntries(layout[..i], name);
    hide Entries, FindPage, FindIn;
    FindAppend(a, layout[i], name);
    FindAppend(a + layout[i], b, name);
    WithoutMiddle(a, layout[i], b, k);
  }

  /** Deleting leaves the last of several pages empty. */
  predicate Undermines(d: Dir, name: seq<byte>) {
    && |d.layout| > 1
    && FindPage(d.layout, name) == |d.layout| - 1
    && |d.layout[|d.layout| - 1]| == 1
  }

  lemma {:induction false} WithoutPage(es: seq<Entry>, k: nat)
    requires PageOk(es) && k < |es|
    ensures PageOk(WithoutAt(es, k)) && Used(WithoutAt(es, k)) == Used(es) - RecLen(es[k])
    ensures Used(WithoutAt(es, k)) == 0 <==> |es| == 1
  {
    hide RecLen, Used, Encode, ValidEntry;
    WithoutUsed(es, k);
    WithoutValid(es, k);
    UsedZero(WithoutAt(es, k));
  }

  lemma {:induction false} UsedZero(es: seq<Entry>)
    ensures Used(es) == 0 <==> es == []
  {
  }

  lemma {:induction false} DeleteElsewhere(d: Dir, name: seq<byte>)
    requires Shaped(d) && FindPage(d.layout, name) < |d.layout| - 1
    ensures Shaped(Delete(d, name))
    ensures Entries(Delete(d, name).layout) == RemoveFirst(Entries(d.layout), name)
    ensures Tight(Delete(d, name)) <==> Tight(d)
  {
    var i := FindPage(d.layout, name);
    RemovesFirst(d.layout, name);
    WithoutPage(d.layout[i], FindIn(d.layout[i], name));
  }

  /** Taking `r` bytes off the size drops the last page exactly when nothing is left of it. */
  lemma {:induction false} Shrink(d: Dir, r: nat)
    requires |d.layout| == DirPages(d.size) && d.layout != [] && 0 < r <= Tail(d) && r <= d.size
    ensures DirPages(d.size - r) == if r < Tail(d) then |d.layout| else |d.layout| - 1
    ensures (d.size - r) % PAGE == Tail(d) - r
  {
    TailRange(d);
    var n := |d.layout|;
    if r < Tail(d) {
      PagesOf(n - 1, Tail(d) - r);
    } else {
      PagesOfFull(n - 1);
    }
  }

  lemma {:induction false} DropEmptyPage(layout: seq<seq<Entry>>)
    requires layout != []
    ensures Entries(layout[|layout| - 1 := []]) == Entries(layout[..|layout| - 1])
  {
    var n := |layout|;
    EntriesAround(layout, n - 1, []);
    assert layout[n..] == [];
  }

  lemma {:induction false} DeleteFromLast(d: Dir, name: seq<byte>)
    requires Shaped(d) && d.layout != [] && FindPage(d.layout, name) == |d.layout| - 1
    ensures Shaped(Delete(d, name))
    ensures Entries(Delete(d, name).layout) == RemoveFirst(Entries(d.layout), name)
    ensures Tight(Delete(d, name)) <==> Tight(d) && !Undermines(d, name)
  {
    hide Entries, RecLen, Used, FindIn, FindPage, RemoveFirst, ValidEntry, WithoutAt;
    var n := |d.layout|;
    var es := d.layout[n - 1];
    FoundOn(d.layout, name);
    var k := FindIn(es, name);
    LastFits(d, k);
    RecPositive(es[k]);
    Shrink(d, RecLen(es[k]));
    RemovesFirst(d.layout, name);
    WithoutPage(es, k);
    UsedZero(WithoutAt(es, k));
    if RecLen(es[k]) == Tail(d) {
      DropEmptyPage(d.layout);
      LastBecomes(d, Delete(d, name));
    }
  }

  lemma {:induction false} FoundOn(layout: seq<seq<Entry>>, name: seq<byte>)
    requires FindPage(layout, name) < |layout|
    ensures var es := layout[FindPage(layout, name)];
            FindIn(es, name) < |es|
  {
  }

  lemma {:induction false} RecPositive(e: Entry)
    ensures RecLen(e) > 0
  {
  }

  /** When the last page goes, the one before it is not tight: it is never full. */
  lemma {:induction false} LastBecomes(d: Dir, d': Dir)
    requires Shaped(d) && |d.layout| == |d'.layout| + 1 && d'.layout == d.layout[..|d'.layout|]
    requires d'.size == d.size - Tail(d)
    ensures d'.layout != [] ==> Tail(d') == PAGE && !Tight(d') && PageOk(d'.layout[|d'.layout| - 1])
  {
  }

  /** `entry_del` removes the first entry of that name and nothing else, in every state;
      the size stays right exactly unless the last of several pages becomes empty. */
  lemma {:induction false} DeleteRemoves(d: Dir, name: seq<byte>)
    requires Shaped(d)
    ensures Shaped(Delete(d, name))
    ensures Entries(Delete(d, name).layout) == RemoveFirst(Entries(d.layout), name)
    ensures Tight(Delete(d, name)) <==> Tight(d) && !Undermines(d, name)
  {
    if FindPage(d.layout, name) == |d.layout| {
      FindEntries(d.layout, name);
    } else if FindPage(d.layout, name) < |d.layout| - 1 {
      DeleteElsewhere(d, name);
    } else {
      DeleteFromLast(d, name);
    }
  }
}
