/** Runs from the empty directory in which an addition is lost. */
module DirectoryRuns {
  import opened ByteOrder
  import opened DirectoryPage
  import opened DirectoryModel
  import opened DirectoryTheorems

  /** Two records share the first page, a third starts the second.  The third and the
      second are deleted, and one shorter than the second is added. */
  function LosingRun(a: Entry, b: Entry, c: Entry, e: Entry): seq<Op> {
    Filling(a, b, c) + Emptying(b, c, e)
  }

  function Filling(a: Entry, b: Entry, c: Entry): seq<Op> {
    [Insert(a), Insert(b), Insert(c)]
  }

  function Emptying(b: Entry, c: Entry, e: Entry): seq<Op> {
    [Remove(c.name), Remove(b.name), Insert(e)]
  }

  ghost predicate Loses(a: Entry, b: Entry, c: Entry, e: Entry) {
    && ValidEntry(a) && ValidEntry(b) && ValidEntry(c) && ValidEntry(e)
    && a.name != b.name && a.name != c.name && b.name != c.name
    && RecLen(a) + RecLen(b) < PAGE <= RecLen(a) + RecLen(b) + RecLen(c)
    && RecLen(e) < RecLen(b)
  }

  lemma {:induction false} ListRunAppend(es: seq<Entry>, p: seq<Op>, q: seq<Op>)
    ensures ListRun(es, p + q) == ListRun(ListRun(es, p), q)
    decreases |p|
  {
    if p == [] {
      assert p + q == q;
    } else {
      assert (p + q)[0] == p[0] && (p + q)[1..] == p[1..] + q;
      match p[0] {
        case Insert(e) => ListRunAppend(es + [e], p[1..], q);
        case Remove(name) => ListRunAppend(RemoveFirst(es, name), p[1..], q);
      }
    }
  }

  lemma {:induction false} RunAppend(d: Dir, p: seq<Op>, q: seq<Op>)
    requires Shaped(d) && ValidOps(p) && ValidOps(q)
    ensures ValidOps(p + q) && Shaped(Run(d, p)) && Run(d, p + q) == Run(Run(d, p), q)
    decreases |p|
  {
    hide Shaped, ValidEntry, Add, Delete;
    assert ValidOps(p + q);
    if p == [] {
      assert p + q == q;
    } else {
      assert (p + q)[0] == p[0] && (p + q)[1..] == p[1..] + q;
      StepShaped(d, p[0]);
      RunAppend(Step(d, p[0]), p[1..], q);
    }
  }

  lemma {:induction false} UsedTwo(a: Entry, b: Entry)
    ensures Used([a]) == RecLen(a) && Used([a, b]) == RecLen(a) + RecLen(b)
  {
    EncodeOne(a);
    EncodeOne(b);
    EncodeAppend([a], [b]);
    assert [a] + [b] == [a, b];
  }

  /** The three additions fill one page and start another. */
  lemma {:induction false} ThreeAdded(a: Entry, b: Entry, c: Entry, e: Entry)
    requires Loses(a, b, c, e)
    ensures Add(Dir([], 0), a) == Dir([[a]], RecLen(a))
    ensures Add(Dir([[a]], RecLen(a)), b) == Dir([[a, b]], RecLen(a) + RecLen(b))
    ensures Add(Dir([[a, b]], RecLen(a) + RecLen(b)), c) == Dir([[a, b], [c]], PAGE + RecLen(c))
  {
    UsedTwo(a, b);
    assert [a] + [b] == [a, b];
    assert [[a]][0 := [a, b]] == [[a, b]];
    assert [[a, b]] + [[c]] == [[a, b], [c]];
  }

  lemma {:induction false} FindSecond(a: Entry, b: Entry, name: seq<byte>)
    requires a.name != name
    ensures FindIn([a], name) == 1 && FindIn([a, b], name) == if b.name == name then 1 else 2
  {
    assert [a][1..] == [];
    assert [a, b][1..] == [b] && [b][1..] == [];
  }

  /** The two deletions leave the size at the page's end less one record, while the page
      holds only the first. */
  lemma {:induction false} TwoRemoved(a: Entry, b: Entry, c: Entry, e: Entry)
    requires Loses(a, b, c, e)
    requires Shaped(Dir([[a, b], [c]], PAGE + RecLen(c))) && Shaped(Dir([[a, b]], PAGE))
    ensures Delete(Dir([[a, b], [c]], PAGE + RecLen(c)), c.name) == Dir([[a, b]], PAGE)
    ensures Delete(Dir([[a, b]], PAGE), b.name) == Dir([[a]], PAGE - RecLen(b))
  {
    FindSecond(a, b, c.name);
    FindSecond(a, b, b.name);
    var two := [[a, b], [c]];
    assert two[1..] == [[c]];
    assert FindPage(two, c.name) == 1;
    assert FindIn([c], c.name) == 0;
    assert two[..1] == [[a, b]];
    assert [[a, b]][0 := [a]] == [[a]] && WithoutAt([a, b], 1) == [a];
  }

  lemma {:induction false} DirFilled(a: Entry, b: Entry, c: Entry, e: Entry)
    requires Loses(a, b, c, e)
    ensures Shaped(Dir([], 0)) && ValidOps(Filling(a, b, c))
    ensures Run(Dir([], 0), Filling(a, b, c)) == Dir([[a, b], [c]], PAGE + RecLen(c))
  {
    var ops := Filling(a, b, c);
    EmptyShaped();
    ThreeAdded(a, b, c, e);
    hide Shaped, Add, ValidEntry, RecLen;
    assert ops[1..] == [Insert(b), Insert(c)] && ops[1..][1..] == [Insert(c)] && [Insert(c)][1..] == [];
    RunStep(Dir([], 0), ops);
    RunStep(Dir([[a]], RecLen(a)), ops[1..]);
    RunStep(Dir([[a, b]], RecLen(a) + RecLen(b)), [Insert(c)]);
  }

  lemma {:induction false} DirEmptied(a: Entry, b: Entry, c: Entry, e: Entry, full: Dir)
    requires Loses(a, b, c, e) && full == Dir([[a, b], [c]], PAGE + RecLen(c)) && Shaped(full)
    ensures ValidOps(Emptying(b, c, e)) && Run(full, Emptying(b, c, e)).layout == [[a]]
  {
    var ops := Emptying(b, c, e);
    TwoShaped(a, b, c, e, full);
    TwoRemoved(a, b, c, e);
    Misplaced(a, b, c, e);
    hide Shaped, Add, Delete, ValidEntry, RecLen;
    assert ops[1..] == [Remove(b.name), Insert(e)] && ops[1..][1..] == [Insert(e)] && [Insert(e)][1..] == [];
    RunStep(full, ops);
    RunStep(Dir([[a, b]], PAGE), ops[1..]);
    RunStep(Dir([[a]], PAGE - RecLen(b)), [Insert(e)]);
  }

  /** From the empty directory, with any such entries: the directory ends with the first
      entry alone, although the last was added and never deleted. */
  lemma {:induction false} LossReached(a: Entry, b: Entry, c: Entry, e: Entry)
    requires Loses(a, b, c, e)
    ensures ValidOps(LosingRun(a, b, c, e)) && Shaped(Dir([], 0))
    ensures Entries(Run(Dir([], 0), LosingRun(a, b, c, e)).layout) == [a]
    ensures ListRun([], LosingRun(a, b, c, e)) == [a, e]
  {
    hide Shaped, ValidEntry, RecLen, Entries, Run, ListRun, Filling, Emptying;
    DirFilled(a, b, c, e);
    RunAppend(Dir([], 0), Filling(a, b, c), []);
    DirEmptied(a, b, c, e, Run(Dir([], 0), Filling(a, b, c)));
    RunAppend(Dir([], 0), Filling(a, b, c), Emptying(b, c, e));
    EntriesOne([a]);
    ListFilled(a, b, c);
    ListEmptied(a, b, c, e);
    ListRunAppend([], Filling(a, b, c), Emptying(b, c, e));
  }

  lemma {:induction false} EmptyShaped()
    ensures Shaped(Dir([], 0))
  {
  }

  lemma {:induction false} RunStep(d: Dir, ops: seq<Op>)
    requires Shaped(d) && ValidOps(ops) && ops != []
    ensures CanStep(d, ops[0]) && Shaped(Step(d, ops[0])) && ValidOps(ops[1..])
    ensures Run(d, ops) == Run(Step(d, ops[0]), ops[1..])
  {
    StepShaped(d, ops[0]);
  }

  lemma {:induction false} TwoShaped(a: Entry, b: Entry, c: Entry, e: Entry, full: Dir)
    requires Loses(a, b, c, e) && full == Dir([[a, b], [c]], PAGE + RecLen(c)) && Shaped(full)
    ensures Shaped(Dir([[a, b]], PAGE))
  {
    UsedTwo(a, b);
    assert full.layout[0] == [a, b];
  }

  /** The record is stored where the size ends, behind a zero byte. */
  lemma {:induction false} Misplaced(a: Entry, b: Entry, c: Entry, e: Entry)
    requires Loses(a, b, c, e)
    ensures Add(Dir([[a]], PAGE - RecLen(b)), e).layout == [[a]]
  {
    UsedTwo(a, b);
  }

  lemma {:induction false} ListFilled(a: Entry, b: Entry, c: Entry)
    ensures ListRun([], Filling(a, b, c)) == [a, b, c]
  {
    var ops := Filling(a, b, c);
    assert ops[1..] == [Insert(b), Insert(c)] && ops[1..][1..] == [Insert(c)] && [Insert(c)][1..] == [];
    assert [] + [a] == [a] && [a] + [b] == [a, b] && [a, b] + [c] == [a, b, c];
    assert ListRun([a, b], [Insert(c)]) == ListRun([a, b, c], []) == [a, b, c];
    assert ListRun([a], ops[1..]) == ListRun([a, b], [Insert(c)]);
  }

  lemma {:induction false} ListEmptied(a: Entry, b: Entry, c: Entry, e: Entry)
    requires Loses(a, b, c, e)
    ensures ListRun([a, b, c], Emptying(b, c, e)) == [a, e]
  {
    var ops := Emptying(b, c, e);
    Removals(a, b, c, e);
    hide RemoveFirst, FindIn, Loses;
    assert ops[1..] == [Remove(b.name), Insert(e)] && ops[1..][1..] == [Insert(e)] && [Insert(e)][1..] == [];
    assert [a] + [e] == [a, e];
    assert ListRun([a], [Insert(e)]) == ListRun([a, e], []) == [a, e];
    assert ListRun([a, b], ops[1..]) == ListRun([a], [Insert(e)]);
  }

  lemma {:induction false} Removals(a: Entry, b: Entry, c: Entry, e: Entry)
    requires Loses(a, b, c, e)
    ensures RemoveFirst([a, b, c], c.name) == [a, b] && RemoveFirst([a, b], b.name) == [a]
  {
    FindSecond(a, b, c.name);
    FindSecond(a, b, b.name);
    assert [a, b] + [c] == [a, b, c];
    FindAppend([a, b], [c], c.name);
  }

  function LongName(letter: byte, n: nat): seq<byte> {
    seq(n, i requires 0 <= i < n => letter)
  }

  /** Such entries exist: names of 2000, 2000, 100 and 5 bytes. */
  lemma {:induction false} LossExample()
    ensures Loses(Entry(LongName(97, 2000), 1), Entry(LongName(98, 2000), 2),
                  Entry(LongName(99, 100), 3), Entry(LongName(100, 5), 4))
  {
    assert LongName(97, 2000)[0] == 97 && LongName(98, 2000)[0] == 98 && LongName(99, 100)[0] == 99;
    assert Power(INO) > 4 by {
      PowerAtLeast();
    }
  }

  lemma {:induction false} PowerAtLeast()
    ensures Power(INO) > 4
  {
    assert Power(1) == 256 * Power(0);
    assert Power(2) == 256 * Power(1);
    assert Power(4) == 256 * (256 * Power(2));
    assert Power(8) == 256 * (256 * (256 * (256 * Power(4))));
  }
}
