/** The main results about directories: any run of additions and deletions is the same
    run on a list of entries. */
module DirectoryTheorems {
  import opened Sequences
  import opened ByteOrder
  import opened DirectoryPage
  import opened DirectoryModel

  datatype Op = Insert(entry: Entry) | Remove(name: seq<byte>)

  ghost predicate ValidOps(ops: seq<Op>) {
    forall i :: 0 <= i < |ops| ==> ops[i].Insert? ==> ValidEntry(ops[i].entry)
  }

  ghost predicate CanStep(d: Dir, op: Op) {
    Shaped(d) && (op.Insert? ==> ValidEntry(op.entry))
  }

  function Step(d: Dir, op: Op): Dir
    requires CanStep(d, op)
  {
    match op
    case Insert(e) => AddLandsIff(d, e); Add(d, e)
    case Remove(name) => Delete(d, name)
  }

  lemma {:induction false} StepShaped(d: Dir, op: Op)
    requires CanStep(d, op)
    ensures Shaped(Step(d, op))
  {
    match op
    case Insert(e) => AddLandsIff(d, e);
    case Remove(name) => DeleteRemoves(d, name);
  }

  function Run(d: Dir, ops: seq<Op>): Dir
    requires Shaped(d) && ValidOps(ops)
    decreases |ops|
  {
    if ops == [] then d
    else
      StepShaped(d, ops[0]);
      Run(Step(d, ops[0]), ops[1..])
  }

  /** The same operations on a plain list. */
  function ListRun(es: seq<Entry>, ops: seq<Op>): seq<Entry>
    decreases |ops|
  {
    if ops == [] then es
    else match ops[0]
      case Insert(e) => ListRun(es + [e], ops[1..])
      case Remove(name) => ListRun(RemoveFirst(es, name), ops[1..])
  }

  /** No addition of the run meets a size that is wrong. */
  predicate AlwaysLands(d: Dir, ops: seq<Op>)
    requires Shaped(d) && ValidOps(ops)
    decreases |ops|
  {
    if ops == [] then true
    else
      StepShaped(d, ops[0]);
      (ops[0].Insert? ==> Tight(d) || Overflows(d, ops[0].entry)) && AlwaysLands(Step(d, ops[0]), ops[1..])
  }

  /** No deletion of the run empties the last of several pages. */
  predicate NeverUndermines(d: Dir, ops: seq<Op>)
    requires Shaped(d) && ValidOps(ops)
    decreases |ops|
  {
    if ops == [] then true
    else
      StepShaped(d, ops[0]);
      (ops[0].Remove? ==> !Undermines(d, ops[0].name)) && NeverUndermines(Step(d, ops[0]), ops[1..])
  }

  /** Any run refines the run on the list, as long as every addition lands. */
  lemma {:induction false} RunRefinesList(d: Dir, ops: seq<Op>)
    requires Shaped(d) && ValidOps(ops) && AlwaysLands(d, ops)
    ensures Shaped(Run(d, ops)) && Entries(Run(d, ops).layout) == ListRun(Entries(d.layout), ops)
    decreases |ops|
  {
    hide Shaped, Tight, Entries, Add, Delete, Overflows, ValidEntry;
    if ops != [] {
      StepShaped(d, ops[0]);
      match ops[0] {
        case Insert(e) => AddLandsIff(d, e);
        case Remove(name) => DeleteRemoves(d, name);
      }
      RunRefinesList(Step(d, ops[0]), ops[1..]);
    }
  }

  /** From a directory whose size is right, it stays right through any run that never
      empties the last of several pages; so every addition lands. */
  lemma {:induction false} RunStaysTight(d: Dir, ops: seq<Op>)
    requires Shaped(d) && Tight(d) && ValidOps(ops) && NeverUndermines(d, ops)
    ensures AlwaysLands(d, ops)
    ensures Tight(Run(d, ops))
    decreases |ops|
  {
    hide Shaped, Tight, Entries, Add, Delete, Overflows, ValidEntry, Undermines;
    if ops != [] {
      StepShaped(d, ops[0]);
      match ops[0] {
        case Insert(e) => AddLandsIff(d, e);
        case Remove(name) => DeleteRemoves(d, name);
      }
      RunStaysTight(Step(d, ops[0]), ops[1..]);
    }
  }

  /** Additions alone never undermine a directory. */
  lemma {:induction false} AdditionsNeverUndermine(d: Dir, ops: seq<Op>)
    requires Shaped(d) && ValidOps(ops) && forall i :: 0 <= i < |ops| ==> ops[i].Insert?
    ensures NeverUndermines(d, ops)
    decreases |ops|
  {
    hide Shaped, Tight, Entries, Add, Delete, Overflows, ValidEntry, Undermines;
    if ops != [] {
      StepShaped(d, ops[0]);
      assert forall i :: 0 <= i < |ops[1..]| ==> ops[1..][i] == ops[i + 1];
      AdditionsNeverUndermine(Step(d, ops[0]), ops[1..]);
    }
  }

  lemma {:induction false} RunsFromEmpty(ops: seq<Op>)
    requires ValidOps(ops)
    ensures Shaped(Dir([], 0)) && Tight(Dir([], 0))
    ensures NeverUndermines(Dir([], 0), ops) ==> Entries(Run(Dir([], 0), ops).layout) == ListRun([], ops)
  {
    if NeverUndermines(Dir([], 0), ops) {
      RunStaysTight(Dir([], 0), ops);
      RunRefinesList(Dir([], 0), ops);
    }
  }

  /** How an entry is lost: the only record of the last page is deleted, then one of the
      page before it, then a record is added that fits there. */
  lemma {:induction false} AdditionLost(d: Dir, last: seq<byte>, other: seq<byte>, e: Entry)
    requires Shaped(d) && Tight(d) && ValidEntry(e) && Undermines(d, last)
    requires var d1 := Delete(d, last); Shaped(d1) && FindPage(d1.layout, other) == |d1.layout| - 1
    requires var d2 := Delete(Delete(d, last), other); Shaped(d2) && !Overflows(d2, e)
    ensures var d2 := Delete(Delete(d, last), other);
            (d2.layout == [] ==> d2.size % PAGE == 0) && Entries(Add(d2, e).layout) == Entries(d2.layout)
  {
    var d1 := Delete(d, last);
    DeleteRemoves(d, last);
    DeleteRemoves(d1, other);
    AddLandsIff(Delete(d1, other), e);
  }

  // ----- looking up

  /** `osdfs_lookup`: from the last page to the first, on each page from the start. */
  function Lookup(layout: seq<seq<Entry>>, name: seq<byte>): Option<nat> {
    if layout == [] then None
    else
      var es := layout[|layout| - 1];
      var k := FindIn(es, name);
      if k < |es| then Some(es[k].ino) else Lookup(layout[..|layout| - 1], name)
  }

  ghost predicate UniqueNames(es: seq<Entry>) {
    forall i, j :: 0 <= i < j < |es| ==> es[i].name != es[j].name
  }

  predicate Named(es: seq<Entry>, name: seq<byte>) {
    exists i :: 0 <= i < |es| && es[i].name == name
  }

  lemma {:induction false} EntriesLast(layout: seq<seq<Entry>>)
    requires layout != []
    ensures Entries(layout) == Entries(layout[..|layout| - 1]) + layout[|layout| - 1]
  {
    var n := |layout|;
    assert layout == layout[..n - 1] + [layout[n - 1]];
    EntriesAppend(layout[..n - 1], [layout[n - 1]]);
    EntriesOne(layout[n - 1]);
  }

  /** `r` is what a look-up of the name in the list should give. */
  ghost predicate Answers(es: seq<Entry>, name: seq<byte>, r: Option<nat>) {
    && (r.None? <==> !Named(es, name))
    && (forall i :: 0 <= i < |es| && es[i].name == name ==> r == Some(es[i].ino))
  }

  lemma {:induction false} AnswersFound(front: seq<Entry>, es: seq<Entry>, name: seq<byte>)
    requires UniqueNames(front + es) && FindIn(es, name) < |es|
    ensures Answers(front + es, name, Some(es[FindIn(es, name)].ino))
  {
    hide FindIn;
    var k := FindIn(es, name);
    var all := front + es;
    var at := |front| + k;
    assert all[at] == es[k];
    forall i | 0 <= i < |all| && all[i].name == name ensures i == at {
      assert !(i < at) && !(at < i);
    }
  }

  lemma {:induction false} AnswersOn(front: seq<Entry>, es: seq<Entry>, name: seq<byte>, r: Option<nat>)
    requires Answers(front, name, r) && FindIn(es, name) == |es|
    ensures Answers(front + es, name, r)
  {
    hide FindIn;
    var all := front + es;
    if Named(front, name) {
      var i :| 0 <= i < |front| && front[i].name == name;
      assert all[i].name == name;
    }
    forall i | 0 <= i < |all| && all[i].name == name ensures i < |front| && front[i] == all[i] {
      assert forall j :: 0 <= j < |es| ==> all[|front| + j] == es[j] && all[|front| + j].name != name;
    }
  }

  lemma {:induction false} UniqueFront(front: seq<Entry>, es: seq<Entry>)
    requires UniqueNames(front + es)
    ensures UniqueNames(front)
  {
    assert forall i :: 0 <= i < |front| ==> (front + es)[i] == front[i];
  }

  /** With unique names a look-up finds the entry of that name if there is one, on
      whatever page, and nothing otherwise. */
  lemma {:induction false} LookupFinds(layout: seq<seq<Entry>>, name: seq<byte>)
    requires UniqueNames(Entries(layout))
    ensures Answers(Entries(layout), name, Lookup(layout, name))
  {
    hide Entries, FindIn, UniqueNames, Answers;
    if layout != [] {
      var n := |layout|;
      var es := layout[n - 1];
      var front := Entries(layout[..n - 1]);
      EntriesLast(layout);
      UniqueFront(front, es);
      LookupFinds(layout[..n - 1], name);
      if FindIn(es, name) < |es| {
        AnswersFound(front, es, name);
      } else {
        AnswersOn(front, es, name, Lookup(layout[..n - 1], name));
      }
    } else {
      EntriesNone();
      AnswersNothing(name);
    }
  }

  lemma {:induction false} AnswersNothing(name: seq<byte>)
    ensures Answers([], name, None)
  {
  }

  /** Names stay unique: a new name may be added, anything may be removed. */
  lemma {:induction false} UniqueKept(es: seq<Entry>, e: Entry, name: seq<byte>)
    requires UniqueNames(es)
    ensures UniqueNames(es + [e]) <==> !Named(es, e.name)
    ensures UniqueNames(RemoveFirst(es, name)) && !Named(RemoveFirst(es, name), name)
    ensures forall x :: x in RemoveFirst(es, name) <==> x in es && x.name != name
  {
    AppendUnique(es, e);
    RemoveUnique(es, name);
    RemoveMembers(es, name);
  }

  lemma {:induction false} AppendUnique(es: seq<Entry>, e: Entry)
    requires UniqueNames(es)
    ensures UniqueNames(es + [e]) <==> !Named(es, e.name)
  {
    if Named(es, e.name) {
      var i :| 0 <= i < |es| && es[i].name == e.name;
      assert (es + [e])[i].name == (es + [e])[|es|].name;
    }
  }

  lemma {:induction false} RemoveUnique(es: seq<Entry>, name: seq<byte>)
    requires UniqueNames(es)
    ensures UniqueNames(RemoveFirst(es, name)) && !Named(RemoveFirst(es, name), name)
  {
    var k := FindIn(es, name);
    var r := RemoveFirst(es, name);
    forall i, j | 0 <= i < j < |r| ensures r[i].name != r[j].name {
      assert r[i] == if i < k then es[i] else es[i + 1];
      assert r[j] == if j < k then es[j] else es[j + 1];
    }
    forall i | 0 <= i < |r| ensures r[i].name != name {
      assert r[i] == if i < k then es[i] else es[i + 1];
    }
  }

  lemma {:induction false} RemoveMembers(es: seq<Entry>, name: seq<byte>)
    requires UniqueNames(es)
    ensures forall x :: x in RemoveFirst(es, name) <==> x in es && x.name != name
  {
    var k := FindIn(es, name);
    var r := RemoveFirst(es, name);
    RemoveUnique(es, name);
    if k < |es| {
      AroundOne(es, k);
      forall x ensures x in r <==> x in es && x.name != name {
        assert x in es <==> x in es[..k] || x == es[k] || x in es[k + 1..];
      }
    }
  }
}
