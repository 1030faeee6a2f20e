/** The coverage map of a contract (brownie/project/compiler.py,
    `_generate_coverageMap` lines 189-224, `get_fn` lines 348-359): the items
    `_isolate_lines` produces, filed by source file and function name, with
    each instruction of an item told the position of its item's entry.

    Whether one source range lies inside another is decided by the project's
    source helpers, which are not part of this model: `inside(inner, outer)`
    stands for it. */
module CoverageMap {
  import opened Wrappers
  import opened Text
  import opened PcMap
  import opened CoverageItems
  import opened IsolateLines

  type Inside = ((int, int), (int, int)) -> bool

  /** A contract of the build as `get_fn` reads it: its source file, its
      source range and its functions' names and ranges, in order. */
  datatype Build = Build(sourcePath: string, offset: (int, int), fnOffsets: seq<(string, (int, int))>)

  /** One entry of the coverage map. */
  datatype CovEntry = CovEntry(jump: nat, offset: (int, int))

  /** The coverage map: source file, then function name, then entries. */
  type Table = map<string, map<string, seq<CovEntry>>>

  predicate Hosts(b: Build, path: string, offset: (int, int), inside: Inside) {
    b.sourcePath == path && inside(offset, b.offset)
  }

  /** The first contract from `from` on that hosts the range. */
  function FirstHost(builds: seq<Build>, path: string, offset: (int, int), inside: Inside, from: nat): (r: Option<nat>)
    requires from <= |builds|
    ensures r.Some? ==>
      && from <= r.value < |builds| && Hosts(builds[r.value], path, offset, inside)
      && forall c :: from <= c < r.value ==> !Hosts(builds[c], path, offset, inside)
    ensures r.None? ==> forall c :: from <= c < |builds| ==> !Hosts(builds[c], path, offset, inside)
    decreases |builds| - from
  {
    if from == |builds| then None
    else if Hosts(builds[from], path, offset, inside) then Some(from)
    else FirstHost(builds, path, offset, inside, from + 1)
  }

  /** The first function from `from` on whose range holds the range. */
  function FirstFn(fns: seq<(string, (int, int))>, offset: (int, int), inside: Inside, from: nat): (r: Option<nat>)
    requires from <= |fns|
    ensures r.Some? ==>
      && from <= r.value < |fns| && inside(offset, fns[r.value].1)
      && forall f :: from <= f < r.value ==> !inside(offset, fns[f].1)
    ensures r.None? ==> forall f :: from <= f < |fns| ==> !inside(offset, fns[f].1)
    decreases |fns| - from
  {
    if from == |fns| then None
    else if inside(offset, fns[from].1) then Some(from)
    else FirstFn(fns, offset, inside, from + 1)
  }

  /** `get_fn` (compiler.py:348-359): the name of the first function, in the
      first contract of file `path` holding `offset`, whose range holds
      `offset`; None (the source's False) when there is no such contract or
      that contract has no such function, since only the first contract is
      searched. */
  function GetFn(builds: seq<Build>, path: string, offset: (int, int), inside: Inside): (r: Option<string>)
    ensures r.None? <==>
      || (forall c :: 0 <= c < |builds| ==> !Hosts(builds[c], path, offset, inside))
      || (exists c :: && 0 <= c < |builds| && Hosts(builds[c], path, offset, inside)
                      && (forall d :: 0 <= d < c ==> !Hosts(builds[d], path, offset, inside))
                      && (forall f :: 0 <= f < |builds[c].fnOffsets| ==> !inside(offset, builds[c].fnOffsets[f].1)))
    ensures r.Some? ==>
      exists c, f ::
        && 0 <= c < |builds| && Hosts(builds[c], path, offset, inside)
        && (forall d :: 0 <= d < c ==> !Hosts(builds[d], path, offset, inside))
        && 0 <= f < |builds[c].fnOffsets| && inside(offset, builds[c].fnOffsets[f].1)
        && (forall g :: 0 <= g < f ==> !inside(offset, builds[c].fnOffsets[g].1))
        && r.value == builds[c].fnOffsets[f].0
  {
    match FirstHost(builds, path, offset, inside, 0)
    case None => None
    case Some(c) =>
      match FirstFn(builds[c].fnOffsets, offset, inside, 0)
      case None => None
      case Some(f) => Some(builds[c].fnOffsets[f].0)
  }

  /** The function an item is filed under, or None when `get_fn` gives
      something falsy (False or the empty name) and the item is skipped. */
  function FnOf(builds: seq<Build>, inside: Inside, it: Item): Option<string> {
    var fn := GetFn(builds, it.path, (it.start, it.stop), inside);
    if fn.Some? && fn.value != "" then fn else None
  }

  function EntryOf(it: Item): CovEntry {
    CovEntry(it.jump, (it.start, it.stop))
  }

  /** The function each item is filed under. */
  type Namer = Item -> Option<string>

  function NamerOf(builds: seq<Build>, inside: Inside): Namer {
    it => FnOf(builds, inside, it)
  }

  predicate Files(name: Namer, it: Item, p: string, f: string) {
    it.path == p && name(it) == Some(f)
  }

  /** The entries of file `p` and function `f`, in the order of their items. */
  function Listed(name: Namer, items: seq<Item>, p: string, f: string): seq<CovEntry>
    decreases |items|
  {
    if |items| == 0 then []
    else
      var it := items[|items| - 1];
      Listed(name, items[..|items| - 1], p, f) + (if Files(name, it, p, f) then [EntryOf(it)] else [])
  }

  /** The coverage index of the instruction at `pc` after the items have been
      filed: the position of the entry of the last filed item holding `pc`,
      or what it was before when no filed item holds it. */
  function CoverageIndex(name: Namer, items: seq<Item>, pc: int, before: Option<nat>): Option<nat>
    decreases |items|
  {
    if |items| == 0 then before
    else
      var it := items[|items| - 1];
      var fn := name(it);
      if fn.Some? && pc in it.pcs then Some(|Listed(name, items, it.path, fn.value)| - 1)
      else CoverageIndex(name, items[..|items| - 1], pc, before)
  }

  /** The files of a list of items. */
  function PathsOf(items: seq<Item>): (r: set<string>)
    ensures forall i :: 0 <= i < |items| ==> items[i].path in r
    ensures forall p :: p in r ==> exists i :: 0 <= i < |items| && items[i].path == p
    decreases |items|
  {
    if |items| == 0 then {}
    else
      var init := items[..|items| - 1];
      var r := PathsOf(init) + {items[|items| - 1].path};
      assert forall i :: 0 <= i < |init| ==> init[i] == items[i];
      r
  }

  /** A shorter walk lists a prefix of what a longer walk lists. */
  lemma {:induction false} ListedPrefix(name: Namer, items: seq<Item>, m: nat, p: string, f: string)
    requires m <= |items|
    ensures var short := Listed(name, items[..m], p, f);
      && |short| <= |Listed(name, items, p, f)|
      && short == Listed(name, items, p, f)[..|short|]
    decreases |items| - m
  {
    if m < |items| {
      ListedPrefix(name, items, m + 1, p, f);
      TakeNext(items, m);
      assert items[..m + 1][..m] == items[..m];
    } else {
      TakeAll(items);
    }
  }

  /** An item's entry is listed under its file and function: the entry at
      position `|Listed(items[..k+1])| - 1`. */
  lemma {:induction false} ListedHas(name: Namer, items: seq<Item>, k: nat, f: string)
    requires k < |items| && name(items[k]) == Some(f)
    ensures var at := |Listed(name, items[..k + 1], items[k].path, f)| - 1;
      && 0 <= at < |Listed(name, items, items[k].path, f)|
      && Listed(name, items, items[k].path, f)[at] == EntryOf(items[k])
  {
    var upto := items[..k + 1];
    assert upto[|upto| - 1] == items[k];
    ListedPrefix(name, items, k + 1, items[k].path, f);
  }

  /** The coverage index of an instruction is the position, in its file's and
      function's list, of the entry of an item holding that instruction; when
      no filed item holds it, it is left as it was. */
  lemma {:induction false} CoverageIndexPoints(name: Namer, items: seq<Item>, pc: int, before: Option<nat>)
    ensures var ci := CoverageIndex(name, items, pc, before);
      || (&& ci == before
          && forall k :: 0 <= k < |items| && pc in items[k].pcs ==> name(items[k]).None?)
      || (exists k :: && 0 <= k < |items| && pc in items[k].pcs && name(items[k]).Some?
                      && var listed := Listed(name, items, items[k].path, name(items[k]).value);
                      && ci.Some? && ci.value < |listed| && listed[ci.value] == EntryOf(items[k]))
    decreases |items|
  {
    if |items| > 0 {
      var k := |items| - 1;
      var it := items[k];
      var fn := name(it);
      var init := items[..k];
      if fn.Some? && pc in it.pcs {
        TakeAll(items);
        ListedHas(name, items, k, fn.value);
      } else {
        CoverageIndexPoints(name, init, pc, before);
        var ci := CoverageIndex(name, init, pc, before);
        if ci != before || exists j :: 0 <= j < |init| && pc in init[j].pcs && name(init[j]).Some? {
          var j :| && 0 <= j < |init| && pc in init[j].pcs && name(init[j]).Some?
                   && var listed := Listed(name, init, init[j].path, name(init[j]).value);
                   && ci.Some? && ci.value < |listed| && listed[ci.value] == EntryOf(init[j]);
          assert init[j] == items[j];
          ListedPrefix(name, items, k, items[j].path, name(items[j]).value);
        } else {
          forall j | 0 <= j < |items| && pc in items[j].pcs
            ensures name(items[j]).None?
          {
            if j < k {
              assert init[j] == items[j];
            }
          }
        }
      }
    }
  }

  /** After the first `n` items have been filed, every file of the items has a
      table holding exactly the functions with an entry so far, each with its
      entries in item order. */
  ghost predicate Tabled(name: Namer, items: seq<Item>, n: nat, table: Table)
    requires n <= |items|
  {
    && table.Keys == PathsOf(items)
    && (forall p, f :: p in table && f in table[p] ==> table[p][f] == Listed(name, items[..n], p, f))
    && (forall p, f :: p in table && f !in table[p] ==> Listed(name, items[..n], p, f) == [])
  }

  /** After the first `n` items have been filed, every instruction's coverage
      index is as the walk so far has set it, and nothing else of the pc map
      has changed. */
  ghost predicate Indexed(name: Namer, items: seq<Item>, n: nat, pcMap: map<int, PcEntry>, indexed: map<int, PcEntry>)
    requires n <= |items|
  {
    && indexed.Keys == pcMap.Keys
    && forall pc :: pc in pcMap ==>
         indexed[pc] == pcMap[pc].(coverageIndex := CoverageIndex(name, items[..n], pc, pcMap[pc].coverageIndex))
  }

  lemma {:induction false} FiledStart(name: Namer, items: seq<Item>, pcMap: map<int, PcEntry>)
    ensures Tabled(name, items, 0, map p | p in PathsOf(items) :: map[])
    ensures Indexed(name, items, 0, pcMap, pcMap)
  {
    assert items[..0] == [];
  }

  /** `for pc in i['pc']: pcMap[pc]['coverageIndex'] = index`
      (compiler.py:221-222). */
  method SetIndex(pcMap: map<int, PcEntry>, pcs: set<int>, index: nat) returns (r: map<int, PcEntry>)
    requires pcs <= pcMap.Keys
    ensures r.Keys == pcMap.Keys
    ensures forall pc :: pc in pcMap ==>
      r[pc] == if pc in pcs then pcMap[pc].(coverageIndex := Some(index)) else pcMap[pc]
  {
    r := pcMap;
    var rest := pcs;
    while rest != {}
      invariant rest <= pcs
      invariant r.Keys == pcMap.Keys
      invariant forall pc :: pc in pcMap ==>
        r[pc] == if pc in pcs - rest then pcMap[pc].(coverageIndex := Some(index)) else pcMap[pc]
      decreases |rest|
    {
      if forall x :: x !in rest {
        assert false;
      }
      var pc :| pc in rest;
      r := r[pc := r[pc].(coverageIndex := Some(index))];
      rest := rest - {pc};
    }
  }

  /** `_generate_coverageMap` for one contract (compiler.py:206-223), given the
      items `_isolate_lines` produced: each item is filed under its file and
      the function `get_fn` names (items whose function is falsy are skipped),
      and each of its instructions gets the position of the item's entry as
      its coverage index. */
  method FileItems(pcMap: map<int, PcEntry>, items: seq<Item>, builds: seq<Build>, inside: Inside) returns (table: Table, indexed: map<int, PcEntry>)
    requires forall i :: 0 <= i < |items| ==> items[i].pcs <= pcMap.Keys
    ensures Tabled(NamerOf(builds, inside), items, |items|, table)
    ensures Indexed(NamerOf(builds, inside), items, |items|, pcMap, indexed)
  {
    ghost var name := NamerOf(builds, inside);
    table := map p | p in PathsOf(items) :: map[];
    indexed := pcMap;
    FiledStart(name, items, pcMap);
    for n := 0 to |items|
      invariant Tabled(name, items, n, table)
      invariant Indexed(name, items, n, pcMap, indexed)
    {
      var it := items[n];
      var fn := GetFn(builds, it.path, (it.start, it.stop), inside);
      assert name(it) == FnOf(builds, inside, it);
      if fn.Some? && fn.value != "" {
        var f := fn.value;
        var fns := table[it.path];
        var entries := if f in fns then fns[f] else [];
        entries := entries + [CovEntry(it.jump, (it.start, it.stop))];
        TabledNamed(name, items, n, table, f);
        assert entries == Listed(name, items[..n + 1], it.path, f);
        table := table[it.path := fns[f := entries]];
        ghost var indexed0 := indexed;
        indexed := SetIndex(indexed, it.pcs, |entries| - 1);
        IndexedNamed(name, items, n, pcMap, indexed0, f, |entries| - 1, indexed);
      } else {
        TabledUnnamed(name, items, n, table);
        IndexedUnnamed(name, items, n, pcMap, indexed);
      }
    }
  }

  lemma {:induction false} ListedStep(name: Namer, items: seq<Item>, n: nat, p: string, g: string)
    requires n < |items|
    ensures Listed(name, items[..n + 1], p, g)
         == Listed(name, items[..n], p, g) + (if Files(name, items[n], p, g) then [EntryOf(items[n])] else [])
  {
    var upto := items[..n + 1];
    TakeNext(items, n);
    assert upto[..n] == items[..n] && upto[n] == items[n];
  }

  lemma {:induction false} CoverageIndexStep(name: Namer, items: seq<Item>, n: nat, pc: int, before: Option<nat>)
    requires n < |items|
    ensures CoverageIndex(name, items[..n + 1], pc, before)
         == if name(items[n]).Some? && pc in items[n].pcs
            then Some(|Listed(name, items[..n + 1], items[n].path, name(items[n]).value)| - 1)
            else CoverageIndex(name, items[..n], pc, before)
  {
    var upto := items[..n + 1];
    TakeNext(items, n);
    assert upto[..n] == items[..n] && upto[n] == items[n];
  }

  /** Filing an item under `f` appends its entry to `f`'s list in its file. */
  lemma {:induction false} TabledNamed(name: Namer, items: seq<Item>, n: nat, table: Table, f: string)
    requires n < |items| && Tabled(name, items, n, table)
    requires name(items[n]) == Some(f)
    ensures var p := items[n].path;
      && p in table
      && var entries := (if f in table[p] then table[p][f] else []) + [EntryOf(items[n])];
         && entries == Listed(name, items[..n + 1], p, f)
         && Tabled(name, items, n + 1, table[p := table[p][f := entries]])
  {
    var it := items[n];
    var p := it.path;
    assert p in PathsOf(items);
    var was := if f in table[p] then table[p][f] else [];
    assert was == Listed(name, items[..n], p, f);
    ListedStep(name, items, n, p, f);
    var entries := was + [EntryOf(it)];
    var row := table[p][f := entries];
    var after := table[p := row];
    forall q, g | q in after && g in after[q]
      ensures after[q][g] == Listed(name, items[..n + 1], q, g)
    {
      ListedStep(name, items, n, q, g);
      if q != p {
        assert after[q] == table[q];
      } else if g != f {
        assert after[q][g] == table[p][g];
      }
    }
    forall q, g | q in after && g !in after[q]
      ensures Listed(name, items[..n + 1], q, g) == []
    {
      ListedStep(name, items, n, q, g);
      if q != p {
        assert after[q] == table[q];
      } else {
        assert g != f && g !in table[p];
      }
    }
  }

  /** Setting the coverage index of a filed item's instructions to its
      entry's position keeps the indices described. */
  lemma {:induction false} IndexedNamed(name: Namer, items: seq<Item>, n: nat, pcMap: map<int, PcEntry>,
                                        indexed0: map<int, PcEntry>, f: string, at: nat, indexed: map<int, PcEntry>)
    requires n < |items| && Indexed(name, items, n, pcMap, indexed0)
    requires name(items[n]) == Some(f)
    requires at == |Listed(name, items[..n + 1], items[n].path, f)| - 1
    requires indexed.Keys == indexed0.Keys
    requires forall pc :: pc in indexed0 ==>
      indexed[pc] == if pc in items[n].pcs then indexed0[pc].(coverageIndex := Some(at)) else indexed0[pc]
    ensures Indexed(name, items, n + 1, pcMap, indexed)
  {
    forall pc | pc in pcMap
      ensures indexed[pc] == pcMap[pc].(coverageIndex := CoverageIndex(name, items[..n + 1], pc, pcMap[pc].coverageIndex))
    {
      CoverageIndexStep(name, items, n, pc, pcMap[pc].coverageIndex);
    }
  }

  /** Skipping an item whose function is falsy changes no table. */
  lemma {:induction false} TabledUnnamed(name: Namer, items: seq<Item>, n: nat, table: Table)
    requires n < |items| && Tabled(name, items, n, table)
    requires name(items[n]).None?
    ensures Tabled(name, items, n + 1, table)
  {
    forall p, g | p in table
      ensures Listed(name, items[..n + 1], p, g) == Listed(name, items[..n], p, g)
    {
      ListedStep(name, items, n, p, g);
    }
  }

  /** Skipping an item whose function is falsy changes no coverage index. */
  lemma {:induction false} IndexedUnnamed(name: Namer, items: seq<Item>, n: nat, pcMap: map<int, PcEntry>, indexed: map<int, PcEntry>)
    requires n < |items| && Indexed(name, items, n, pcMap, indexed)
    requires name(items[n]).None?
    ensures Indexed(name, items, n + 1, pcMap, indexed)
  {
    forall pc | pc in pcMap
      ensures CoverageIndex(name, items[..n + 1], pc, pcMap[pc].coverageIndex) == CoverageIndex(name, items[..n], pc, pcMap[pc].coverageIndex)
    {
      CoverageIndexStep(name, items, n, pc, pcMap[pc].coverageIndex);
    }
  }

  /** `_generate_coverageMap` for one contract (compiler.py:206-223): the items
      of `_isolate_lines`, filed; the source's KeyError when `_isolate_lines`
      raises. */
  method GenerateCoverageMap(pcMap: map<int, PcEntry>, slice: Slicer, builds: seq<Build>, inside: Inside)
    returns (r: Result<(Table, map<int, PcEntry>)>, ghost order: seq<int>, ghost groups: seq<seq<Item>>, ghost items: seq<Item>)
    ensures forall i :: 0 <= i < |order| ==> order[i] in pcMap
    ensures forall k :: k in pcMap ==> k in order
    ensures r.Failure? <==> (exists j :: BrokenBranch(pcMap, slice, j)) || (exists pc :: Unplaced(pcMap, pc))
    ensures r.Failure? ==> r.error == KeyError
    ensures r.Success? ==>
      && Isolated(pcMap, slice, order, groups, items)
      && Tabled(NamerOf(builds, inside), items, |items|, r.value.0)
      && Indexed(NamerOf(builds, inside), items, |items|, pcMap, r.value.1)
  {
    var isolated;
    isolated, order, groups := Isolate(pcMap, slice);
    LinesFailure(pcMap, slice, order);
    if isolated.Failure? {
      return Failure(isolated.error), order, groups, [];
    }
    var lineMap := isolated.value;
    items := lineMap;
    if |lineMap| == 0 {
      FiledStart(NamerOf(builds, inside), items, pcMap);
      var empty: Table := map[];
      assert (map p | p in PathsOf(items) :: map[]) == empty;
      return Success((empty, pcMap)), order, groups, items;
    }
    var table, indexed := FileItems(pcMap, lineMap, builds, inside);
    return Success((table, indexed)), order, groups, items;
  }

  // ---------------------------------------------------------------------
  // `_generate_coverageMapTotals` (compiler.py:227-234)
  // ---------------------------------------------------------------------

  /** The weight of a function's entries: one per statement entry, two per
      branch entry (one for each direction). */
  function Weight(entries: seq<CovEntry>): nat
    decreases |entries|
  {
    if |entries| == 0 then 0
    else Weight(entries[..|entries| - 1]) + (if entries[|entries| - 1].jump != 0 then 2 else 1)
  }

  /** The branch entries of a list. */
  function Branching(entries: seq<CovEntry>): (r: seq<CovEntry>)
    ensures |r| <= |entries|
    ensures forall e :: e in r ==> e in entries && e.jump != 0
    decreases |entries|
  {
    if |entries| == 0 then []
    else
      var init := entries[..|entries| - 1];
      var last := entries[|entries| - 1];
      var r := Branching(init) + (if last.jump != 0 then [last] else []);
      assert forall e :: e in init ==> e in entries;
      r
  }

  /** The weight is the number of entries plus the number of branch entries
      (the source's `len(statements) + 2 * len(branches)`). */
  lemma {:induction false} WeightCounts(entries: seq<CovEntry>)
    ensures Weight(entries) == |entries| + |Branching(entries)|
    decreases |entries|
  {
    if |entries| > 0 {
      WeightCounts(entries[..|entries| - 1]);
    }
  }

  /** Weights add up over concatenation. */
  lemma {:induction false} WeightAppend(a: seq<CovEntry>, b: seq<CovEntry>)
    ensures Weight(a + b) == Weight(a) + Weight(b)
    decreases |b|
  {
    if |b| == 0 {
      assert a + b == a;
    } else {
      WeightAppend(a, b[..|b| - 1]);
      assert (a + b)[..|a + b| - 1] == a + b[..|b| - 1];
    }
  }

  /** One (file, function, entries) triple of the coverage map, in the order
      the source's comprehension walks them. */
  type Row = (string, string, seq<CovEntry>)

  /** The totals as written (compiler.py:227-234): one dict holding the
      running "total" and each function's weight under the function's name,
      so that a function named "total" would overwrite the running total. */
  function TotalsAsWritten(rows: seq<Row>): map<string, int>
    decreases |rows|
  {
    if |rows| == 0 then map["total" := 0]
    else
      var before := TotalsAsWritten(rows[..|rows| - 1]);
      var (_, fn, entries) := rows[|rows| - 1];
      var count := Weight(entries);
      var named := before[fn := count];
      named["total" := named["total"] + count]
  }

  /** The totals apart: the sum of all weights, and each function's weight
      (a later function of the same name, in another file, replaces an
      earlier one, as in the source). */
  datatype Totals = Totals(total: nat, perFn: map<string, nat>)

  function SumWeights(rows: seq<Row>): nat
    decreases |rows|
  {
    if |rows| == 0 then 0 else SumWeights(rows[..|rows| - 1]) + Weight(rows[|rows| - 1].2)
  }

  function CoverageTotals(rows: seq<Row>): (t: Totals)
    ensures t.total == SumWeights(rows)
    ensures forall fn :: fn in t.perFn <==> exists i :: 0 <= i < |rows| && rows[i].1 == fn
    decreases |rows|
  {
    if |rows| == 0 then Totals(0, map[])
    else
      var init := rows[..|rows| - 1];
      var before := CoverageTotals(init);
      var (_, fn, entries) := rows[|rows| - 1];
      assert forall i :: 0 <= i < |init| ==> init[i] == rows[i];
      Totals(before.total + Weight(entries), before.perFn[fn := Weight(entries)])
  }

  /** A function's total is the weight of the last row of that name. */
  lemma {:induction false} PerFnIsLastRow(rows: seq<Row>, i: nat)
    requires i < |rows|
    requires forall j :: i < j < |rows| ==> rows[j].1 != rows[i].1
    ensures rows[i].1 in CoverageTotals(rows).perFn
    ensures CoverageTotals(rows).perFn[rows[i].1] == Weight(rows[i].2)
    decreases |rows|
  {
    if i < |rows| - 1 {
      var init := rows[..|rows| - 1];
      forall j | i < j < |init|
        ensures init[j].1 != init[i].1
      {
        assert init[j] == rows[j];
      }
      PerFnIsLastRow(init, i);
      assert init[i] == rows[i];
    }
  }

  /** When no function is named "total", the dict the source builds holds the
      intended totals. */
  lemma {:induction false} TotalsAsWrittenAgrees(rows: seq<Row>)
    requires forall i :: 0 <= i < |rows| ==> rows[i].1 != "total"
    ensures var t := CoverageTotals(rows);
      && TotalsAsWritten(rows)["total"] == t.total
      && (forall fn :: fn != "total" ==> (fn in TotalsAsWritten(rows) <==> fn in t.perFn))
      && (forall fn :: fn != "total" && fn in t.perFn ==> fn in TotalsAsWritten(rows) && TotalsAsWritten(rows)[fn] == t.perFn[fn])
    decreases |rows|
  {
    if |rows| > 0 {
      var init := rows[..|rows| - 1];
      forall i | 0 <= i < |init|
        ensures init[i].1 != "total"
      {
        assert init[i] == rows[i];
      }
      TotalsAsWrittenAgrees(init);
    }
  }

  /** The function keys of the coverage map are the "Contract.fn" names of
      the build's `fn_offsets` (compiler.py:98), none of which is "total", so
      the dict the source builds holds the intended totals. */
  lemma {:induction false} QualifiedTotalsAgree(rows: seq<Row>)
    requires forall i :: 0 <= i < |rows| ==> '.' in rows[i].1
    ensures var t := CoverageTotals(rows);
      && TotalsAsWritten(rows)["total"] == t.total
      && (forall fn :: fn != "total" ==> (fn in TotalsAsWritten(rows) <==> fn in t.perFn))
      && (forall fn :: fn != "total" && fn in t.perFn ==> fn in TotalsAsWritten(rows) && TotalsAsWritten(rows)[fn] == t.perFn[fn])
  {
    forall i | 0 <= i < |rows|
      ensures rows[i].1 != "total"
    {
      assert '.' in rows[i].1;
    }
    TotalsAsWrittenAgrees(rows);
  }
}
