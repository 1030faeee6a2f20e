/** The branch pass and the statement pass of `_isolate_lines`, and the
    function as a whole (brownie/project/compiler.py:237-319).

    The source text of an offset (`_get_source`, compiler.py:322-323) comes from
    the project's sources, which are not part of this model: `slice(path,
    offset)` stands for it. */
module IsolateLines {
  import opened Wrappers
  import opened Text
  import opened PcMap
  import opened CoverageItems

  type Slicer = (string, (int, int)) -> string

  /** The per-file lists of coverage items, with the files in the order they
      were first met (a Python dict keeps insertion order). */
  datatype LineMap = LineMap(keys: seq<string>, lists: map<string, seq<Item>>)

  /** The files of a line map are listed once each, and exactly they have a
      list. */
  ghost predicate WellKeyed(lm: LineMap) {
    && (forall i, j :: 0 <= i < j < |lm.keys| ==> lm.keys[i] != lm.keys[j])
    && (forall p :: p in lm.lists <==> p in lm.keys)
  }

  /** `if path not in line_map: line_map[path] = []` */
  function Touch(lm: LineMap, path: string): (r: LineMap)
    ensures path in r.lists
    ensures WellKeyed(lm) ==> WellKeyed(r)
    ensures forall p :: p in lm.lists ==> p in r.lists && r.lists[p] == lm.lists[p]
    ensures path !in lm.lists ==> r.lists[path] == []
    ensures forall p :: p in r.lists ==> p in lm.lists || p == path
  {
    if path in lm.lists then lm else LineMap(lm.keys + [path], lm.lists[path := []])
  }

  // ---------------------------------------------------------------------
  // Python's sorted() on the program counters
  // ---------------------------------------------------------------------

  predicate Increasing(r: seq<int>) {
    forall i, j :: 0 <= i < j < |r| ==> r[i] < r[j]
  }

  lemma {:induction false} MinExists(s: set<int>)
    requires s != {}
    ensures exists m :: m in s && forall x :: x in s ==> m <= x
    decreases |s|
  {
    if forall x :: x !in s {
      assert false;
    }
    var y :| y in s;
    if s == {y} {
      assert forall x :: x in s ==> x == y;
      return;
    }
    MinExists(s - {y});
    var m :| m in s - {y} && forall x :: x in s - {y} ==> m <= x;
    MinAdd(s, y, m);
  }

  /** The least of `s` is `y` or the least of the rest. */
  lemma {:induction false} MinAdd(s: set<int>, y: int, m: int)
    requires y in s && m in s && forall x :: x in s - {y} ==> m <= x
    ensures exists l :: l in s && forall x :: x in s ==> l <= x
  {
    var least := if y < m then y else m;
    forall x | x in s
      ensures least <= x
    {
      if x != y {
        assert x in s - {y};
      }
    }
    assert least in s;
  }

  /** Appending the least of the pcs left keeps the list increasing and
      below every pc still left. */
  lemma {:induction false} PushLeast(r: seq<int>, rest: set<int>, k: int)
    requires Increasing(r) && k in rest && forall x :: x in rest ==> k <= x
    requires forall i, x :: 0 <= i < |r| && x in rest ==> r[i] < x
    ensures Increasing(r + [k])
    ensures forall i, x :: 0 <= i < |r + [k]| && x in rest - {k} ==> (r + [k])[i] < x
  {
    var r' := r + [k];
    forall i, x | 0 <= i < |r'| && x in rest - {k}
      ensures r'[i] < x
    {
      if i < |r| {
        assert r'[i] == r[i];
      }
    }
    forall i, j | 0 <= i < j < |r'|
      ensures r'[i] < r'[j]
    {
      assert r'[i] == r[i];
    }
  }

  /** `sorted(pcMap)`: the program counters in increasing order.  The pc map is
      filled in increasing program counter order, so this is also the order of
      `pcMap.items()` that the branch pass walks. */
  method SortedKeys(m: map<int, PcEntry>) returns (r: seq<int>)
    ensures Increasing(r)
    ensures forall k :: k in m <==> k in r
  {
    var rest := m.Keys;
    r := [];
    while rest != {}
      invariant rest <= m.Keys
      invariant forall k :: k in m <==> k in r || k in rest
      invariant Increasing(r)
      invariant forall i, k :: 0 <= i < |r| && k in rest ==> r[i] < k
      decreases |rest|
    {
      MinExists(rest);
      var k :| k in rest && forall x :: x in rest ==> k <= x;
      PushLeast(r, rest, k);
      r := r + [k];
      rest := rest - {k};
    }
  }

  // ---------------------------------------------------------------------
  // The branch pass (compiler.py:248-266)
  // ---------------------------------------------------------------------

  predicate IsJumpi(pcMap: map<int, PcEntry>, j: int) {
    j in pcMap && pcMap[j].path.Some? && pcMap[j].op == "JUMPI"
  }

  /** An instruction the anchor search inspects: it has a path and is not a
      JUMPDEST. */
  predicate Candidate(pcMap: map<int, PcEntry>, x: int) {
    x in pcMap && pcMap[x].path.Some? && pcMap[x].op != "JUMPDEST"
  }

  /** A candidate whose offset differs from the JUMPI's. */
  predicate IsAnchor(pcMap: map<int, PcEntry>, x: int, offset: (int, int)) {
    Candidate(pcMap, x) && pcMap[x].offset.Some? && pcMap[x].offset.value != offset
  }

  /** A candidate without an offset: reading it raises KeyError. */
  predicate Unreadable(pcMap: map<int, PcEntry>, x: int) {
    Candidate(pcMap, x) && pcMap[x].offset.None?
  }

  /** The search `next(x for x in range(top, 0, -1) if ...)` (compiler.py:258-263):
      the greatest anchor in `[1, top]`, None when there is none, and KeyError
      when a candidate without offset comes first. */
  function FindAnchor(pcMap: map<int, PcEntry>, top: int, offset: (int, int)): (r: Result<Option<int>>)
    ensures r.Success? && r.value.Some? ==>
      && 1 <= r.value.value <= top && IsAnchor(pcMap, r.value.value, offset)
      && forall y :: r.value.value < y <= top ==> !IsAnchor(pcMap, y, offset) && !Unreadable(pcMap, y)
    ensures r == Success(None) ==>
      forall y :: 1 <= y <= top ==> !IsAnchor(pcMap, y, offset) && !Unreadable(pcMap, y)
    ensures r.Failure? ==>
      && r.error == KeyError
      && exists y :: 1 <= y <= top && Unreadable(pcMap, y)
    decreases top
  {
    if top < 1 then Success(None)
    else if Candidate(pcMap, top) then
      if pcMap[top].offset.None? then
        assert Unreadable(pcMap, top);
        Failure(KeyError)
      else if pcMap[top].offset.value != offset then Success(Some(top))
      else FindAnchor(pcMap, top - 1, offset)
    else FindAnchor(pcMap, top - 1, offset)
  }

  /** What the JUMPI at `j` contributes (compiler.py:252-266): KeyError when no
      instruction follows it; nothing when an INVALID follows it, when its source
      holds " public " or when no anchor exists; otherwise the base item of the
      anchor with `jump` set to `j`. */
  function BranchOf(pcMap: map<int, PcEntry>, slice: Slicer, j: int): (r: Result<Option<Item>>)
    requires IsJumpi(pcMap, j)
    ensures r.Failure? <==>
      || j + 1 !in pcMap
      || (&& pcMap[j + 1].op != "INVALID"
          && (|| pcMap[j].offset.None?
              || (&& !Contains(slice(pcMap[j].path.value, pcMap[j].offset.value), " public ")
                  && FindAnchor(pcMap, j - 4, pcMap[j].offset.value).Failure?)))
    ensures r.Failure? ==> r.error == KeyError
    ensures r.Success? && r.value.Some? ==>
      && j + 1 in pcMap && pcMap[j + 1].op != "INVALID" && pcMap[j].offset.Some?
      && !Contains(slice(pcMap[j].path.value, pcMap[j].offset.value), " public ")
      && var found := FindAnchor(pcMap, j - 4, pcMap[j].offset.value);
         && found.Success? && found.value.Some?
         && r.value.value == Base(found.value.value, pcMap[found.value.value]).(jump := j)
    ensures r.Success? && r.value.Some? ==> r.value.value.jump == j >= 5
  {
    if j + 1 !in pcMap then Failure(KeyError)
    else if pcMap[j + 1].op == "INVALID" then Success(None)
    else if pcMap[j].offset.None? then Failure(KeyError)
    else
      var op := pcMap[j];
      if Contains(slice(op.path.value, op.offset.value), " public ") then Success(None)
      else
        var found :- FindAnchor(pcMap, j - 4, op.offset.value);
        match found
        case None => Success(None)
        case Some(a) => Success(Some(Base(a, pcMap[a]).(jump := j)))
  }

  /** The line map the branch pass builds from the program counters `js`, in
      order. */
  function Branches(pcMap: map<int, PcEntry>, slice: Slicer, js: seq<int>): (r: Result<LineMap>)
    decreases |js|
  {
    if |js| == 0 then Success(LineMap([], map[]))
    else
      var lm :- Branches(pcMap, slice, js[..|js| - 1]);
      var j := js[|js| - 1];
      if !IsJumpi(pcMap, j) then Success(lm)
      else
        var path := pcMap[j].path.value;
        var b :- BranchOf(pcMap, slice, j);
        var touched := Touch(lm, path);
        Success(touched.(lists := touched.lists[path := touched.lists[path] + (if b.Some? then [b.value] else [])]))
  }

  /** A failure on a prefix of the walk is a failure of the whole walk. */
  lemma {:induction false} BranchesFailureSticks(pcMap: map<int, PcEntry>, slice: Slicer, js: seq<int>, k: nat)
    requires k <= |js| && Branches(pcMap, slice, js[..k]).Failure?
    ensures Branches(pcMap, slice, js) == Branches(pcMap, slice, js[..k])
    decreases |js| - k
  {
    if k < |js| {
      TakeNext(js, k);
      assert js[..k + 1][..k] == js[..k];
      BranchesFailureSticks(pcMap, slice, js, k + 1);
    } else {
      TakeAll(js);
    }
  }

  /** The branch pass (compiler.py:248-266), walking the JUMPIs in increasing
      program counter order. */
  method BranchPass(pcMap: map<int, PcEntry>, slice: Slicer, order: seq<int>) returns (r: Result<LineMap>)
    ensures r == Branches(pcMap, slice, order)
  {
    var keys: seq<string> := [];
    var lists: map<string, seq<Item>> := map[];
    var k := 0;
    while k < |order|
      invariant 0 <= k <= |order|
      invariant Branches(pcMap, slice, order[..k]) == Success(LineMap(keys, lists))
    {
      var j := order[k];
      TakeNext(order, k);
      ghost var js := order[..k + 1];
      assert js[..|js| - 1] == order[..k];
      assert js[|js| - 1] == j;
      ghost var before := LineMap(keys, lists);
      if j in pcMap && pcMap[j].path.Some? && pcMap[j].op == "JUMPI" {
        var path := pcMap[j].path.value;
        if path !in lists {
          keys := keys + [path];
          lists := lists[path := []];
        }
        var b := BranchOf(pcMap, slice, j);
        assert b.Failure? ==> Branches(pcMap, slice, js).Failure?;
        if b.Failure? {
          BranchesFailureSticks(pcMap, slice, order, k + 1);
          return Failure(b.error);
        }
        assert Touch(before, path) == LineMap(keys, lists);
        if b.value.Some? {
          lists := lists[path := lists[path] + [b.value.value]];
        } else {
          assert lists[path] + [] == lists[path];
          assert lists[path := lists[path] + []] == lists;
        }
      }
      k := k + 1;
    }
    TakeAll(order);
    return Success(LineMap(keys, lists));
  }

  /** A JUMPI whose branch item cannot be built: the branch pass raises. */
  predicate BrokenBranch(pcMap: map<int, PcEntry>, slice: Slicer, j: int) {
    IsJumpi(pcMap, j) && BranchOf(pcMap, slice, j).Failure?
  }

  /** The branch pass fails exactly when one of the walked program counters
      is a JUMPI whose branch item cannot be built. */
  lemma {:induction false} BranchesFailure(pcMap: map<int, PcEntry>, slice: Slicer, js: seq<int>)
    ensures Branches(pcMap, slice, js).Failure? <==>
      exists i :: 0 <= i < |js| && BrokenBranch(pcMap, slice, js[i])
    decreases |js|
  {
    if |js| > 0 {
      var init := js[..|js| - 1];
      BranchesFailure(pcMap, slice, init);
      if exists i :: 0 <= i < |js| && BrokenBranch(pcMap, slice, js[i]) {
        var i :| 0 <= i < |js| && BrokenBranch(pcMap, slice, js[i]);
        if i < |js| - 1 {
          assert init[i] == js[i];
        }
      }
      if Branches(pcMap, slice, init).Failure? {
        var i :| 0 <= i < |init| && BrokenBranch(pcMap, slice, init[i]);
        assert js[i] == init[i];
      }
    }
  }

  // ---------------------------------------------------------------------
  // The statement pass (compiler.py:268-290)
  // ---------------------------------------------------------------------

  /** An item of file `path` whose source range holds the offset `at`. */
  predicate Covers(it: Item, path: string, at: int) {
    it.path == path && it.start <= at < it.stop
  }

  /** The search `next(i for i in line_map[path] if ...)` (compiler.py:275-279)
      from position `from` on: the first item covering `at`, or None. */
  function FirstCovering(items: seq<Item>, path: string, at: int, from: nat): (r: Option<nat>)
    requires from <= |items|
    ensures r.Some? ==>
      && from <= r.value < |items| && Covers(items[r.value], path, at)
      && forall i :: from <= i < r.value ==> !Covers(items[i], path, at)
    ensures r.None? ==> forall i :: from <= i < |items| ==> !Covers(items[i], path, at)
    decreases |items| - from
  {
    if from == |items| then None
    else if Covers(items[from], path, at) then Some(from)
    else FirstCovering(items, path, at, from + 1)
  }

  /** An instruction with a file but no source offset: reading its source
      raises KeyError (compiler.py:270). */
  predicate Unplaced(pcMap: map<int, PcEntry>, pc: int) {
    pc in pcMap && pcMap[pc].path.Some? && pcMap[pc].offset.None?
  }

  /** One pass of the statement loop for the instruction at `pc`: instructions
      without a file are skipped, ones whose source holds ";" are skipped, the
      first item covering the offset's start takes the instruction (and grows
      to the offset's end unless it is a branch item, which is then left
      alone), and when no item covers it a new base item is appended. */
  function StatementStep(pcMap: map<int, PcEntry>, slice: Slicer, lm: LineMap, pc: int): (r: Result<LineMap>)
    requires pc in pcMap
    ensures r.Failure? <==> Unplaced(pcMap, pc)
    ensures r.Failure? ==> r.error == KeyError
  {
    var op := pcMap[pc];
    if op.path.None? then Success(lm)
    else if op.offset.None? then Failure(KeyError)
    else
      var path := op.path.value;
      var (start, stop) := op.offset.value;
      if Contains(slice(path, (start, stop)), ";") then Success(lm)
      else
        var t := Touch(lm, path);
        var items := t.lists[path];
        match FirstCovering(items, path, start, 0)
        case None => Success(t.(lists := t.lists[path := items + [Base(pc, op)]]))
        case Some(n) =>
          var ln := items[n];
          if stop > ln.stop && ln.jump != 0 then Success(t)
          else
            var grown := ln.(stop := if stop > ln.stop then stop else ln.stop, pcs := ln.pcs + {pc});
            Success(t.(lists := t.lists[path := items[n := grown]]))
  }

  /** The line map after the statement pass has walked `js`, in order,
      starting from `lm`. */
  function Statements(pcMap: map<int, PcEntry>, slice: Slicer, lm: LineMap, js: seq<int>): Result<LineMap>
    requires forall i :: 0 <= i < |js| ==> js[i] in pcMap
    decreases |js|
  {
    if |js| == 0 then Success(lm)
    else
      var before :- Statements(pcMap, slice, lm, js[..|js| - 1]);
      StatementStep(pcMap, slice, before, js[|js| - 1])
  }

  /** The statement pass fails exactly when a walked instruction has a file but
      no offset. */
  lemma {:induction false} StatementsFailure(pcMap: map<int, PcEntry>, slice: Slicer, lm: LineMap, js: seq<int>)
    requires forall i :: 0 <= i < |js| ==> js[i] in pcMap
    ensures Statements(pcMap, slice, lm, js).Failure? <==>
      exists i :: 0 <= i < |js| && Unplaced(pcMap, js[i])
    decreases |js|
  {
    if |js| > 0 {
      var init := js[..|js| - 1];
      StatementsFailure(pcMap, slice, lm, init);
      if exists i :: 0 <= i < |js| && Unplaced(pcMap, js[i]) {
        var i :| 0 <= i < |js| && Unplaced(pcMap, js[i]);
        if i < |js| - 1 {
          assert init[i] == js[i];
        }
      }
      if Statements(pcMap, slice, lm, init).Failure? {
        var i :| 0 <= i < |init| && Unplaced(pcMap, init[i]);
        assert js[i] == init[i];
      }
    }
  }

  /** The statement pass (compiler.py:268-290), updating the items in place. */
  method StatementPass(pcMap: map<int, PcEntry>, slice: Slicer, lm: LineMap, order: seq<int>) returns (r: Result<LineMap>)
    requires forall i :: 0 <= i < |order| ==> order[i] in pcMap
    ensures r == Statements(pcMap, slice, lm, order)
  {
    var keys := lm.keys;
    var lists := lm.lists;
    for k := 0 to |order|
      invariant Statements(pcMap, slice, lm, order[..k]) == Success(LineMap(keys, lists))
    {
      var pc := order[k];
      TakeNext(order, k);
      ghost var js := order[..k + 1];
      assert js[..|js| - 1] == order[..k];
      assert js[|js| - 1] == pc;
      ghost var before := LineMap(keys, lists);
      var op := pcMap[pc];
      if op.path.Some? {
        if op.offset.None? {
          StatementsPrefixFailure(pcMap, slice, lm, order, k + 1);
          return Failure(KeyError);
        }
        var path := op.path.value;
        var (start, stop) := op.offset.value;
        if !Contains(slice(path, (start, stop)), ";") {
          if path !in lists {
            keys := keys + [path];
            lists := lists[path := []];
          }
          assert Touch(before, path) == LineMap(keys, lists);
          var items := lists[path];
          var found := FirstCovering(items, path, start, 0);
          if found.None? {
            lists := lists[path := items + [Base(pc, op)]];
          } else {
            var ln := items[found.value];
            if stop <= ln.stop || ln.jump == 0 {
              if stop > ln.stop {
                ln := ln.(stop := stop);
              }
              ln := ln.(pcs := ln.pcs + {pc});
              lists := lists[path := items[found.value := ln]];
            }
          }
        }
      }
    }
    TakeAll(order);
    return Success(LineMap(keys, lists));
  }

  /** A failure on a prefix of the statement walk is the failure of the whole
      walk. */
  lemma {:induction false} StatementsPrefixFailure(pcMap: map<int, PcEntry>, slice: Slicer, lm: LineMap, js: seq<int>, k: nat)
    requires forall i :: 0 <= i < |js| ==> js[i] in pcMap
    requires k <= |js| && Statements(pcMap, slice, lm, js[..k]).Failure?
    ensures Statements(pcMap, slice, lm, js) == Statements(pcMap, slice, lm, js[..k])
    decreases |js| - k
  {
    if k < |js| {
      TakeNext(js, k);
      assert js[..k + 1][..k] == js[..k];
      StatementsPrefixFailure(pcMap, slice, lm, js, k + 1);
    } else {
      TakeAll(js);
    }
  }

  // ---------------------------------------------------------------------
  // What the two passes keep true of every item
  // ---------------------------------------------------------------------

  /** A branch item is the item its JUMPI's anchor search builds, with at most
      more program counters: the statement pass never moves a branch item's
      source range. */
  ghost predicate Anchored(pcMap: map<int, PcEntry>, slice: Slicer, it: Item) {
    it.jump != 0 ==>
      && IsJumpi(pcMap, it.jump)
      && var b := BranchOf(pcMap, slice, it.jump);
         && b.Success? && b.value.Some?
         && b.value.value.pcs <= it.pcs
         && it.(pcs := b.value.value.pcs) == b.value.value
  }

  /** An item of the list of file `p`: a statement item belongs to that file
      (a branch item carries its anchor's file, which may differ), its program
      counters are instructions of the pc map, and a branch item is anchored. */
  ghost predicate Kept(pcMap: map<int, PcEntry>, slice: Slicer, p: string, it: Item) {
    && (it.jump == 0 ==> it.path == p)
    && it.pcs <= pcMap.Keys
    && Anchored(pcMap, slice, it)
  }

  ghost predicate Sound(pcMap: map<int, PcEntry>, slice: Slicer, lm: LineMap) {
    && WellKeyed(lm)
    && forall p, i :: p in lm.lists && 0 <= i < |lm.lists[p]| ==> Kept(pcMap, slice, p, lm.lists[p][i])
  }

  lemma {:induction false} BranchOfKept(pcMap: map<int, PcEntry>, slice: Slicer, j: int)
    requires IsJumpi(pcMap, j)
    requires BranchOf(pcMap, slice, j).Success? && BranchOf(pcMap, slice, j).value.Some?
    ensures forall p :: Kept(pcMap, slice, p, BranchOf(pcMap, slice, j).value.value)
  {
    var it := BranchOf(pcMap, slice, j).value.value;
    var a := FindAnchor(pcMap, j - 4, pcMap[j].offset.value).value.value;
    assert it.pcs == {a} && a in pcMap;
  }

  /** The branch pass builds a sound line map. */
  lemma {:induction false} BranchesSound(pcMap: map<int, PcEntry>, slice: Slicer, js: seq<int>)
    requires Branches(pcMap, slice, js).Success?
    ensures Sound(pcMap, slice, Branches(pcMap, slice, js).value)
    decreases |js|
  {
    if |js| > 0 {
      var init := js[..|js| - 1];
      BranchesSound(pcMap, slice, init);
      var j := js[|js| - 1];
      if IsJumpi(pcMap, j) {
        var lm := Branches(pcMap, slice, init).value;
        var path := pcMap[j].path.value;
        var b := BranchOf(pcMap, slice, j).value;
        var t := Touch(lm, path);
        var after := Branches(pcMap, slice, js).value;
        assert after == t.(lists := t.lists[path := t.lists[path] + (if b.Some? then [b.value] else [])]);
        if b.Some? {
          BranchOfKept(pcMap, slice, j);
        }
        forall p, i | p in after.lists && 0 <= i < |after.lists[p]|
          ensures Kept(pcMap, slice, p, after.lists[p][i])
        {
          if p != path || i < |t.lists[path]| {
            assert after.lists[p][i] == t.lists[p][i];
          }
        }
      }
    }
  }

  /** One statement step keeps the line map sound. */
  lemma {:induction false} StatementStepSound(pcMap: map<int, PcEntry>, slice: Slicer, lm: LineMap, pc: int)
    requires pc in pcMap && Sound(pcMap, slice, lm)
    requires StatementStep(pcMap, slice, lm, pc).Success?
    ensures Sound(pcMap, slice, StatementStep(pcMap, slice, lm, pc).value)
  {
    var op := pcMap[pc];
    if op.path.Some? {
      var path := op.path.value;
      var (start, stop) := op.offset.value;
      if !Contains(slice(path, (start, stop)), ";") {
        var t := Touch(lm, path);
        var items := t.lists[path];
        var after := StatementStep(pcMap, slice, lm, pc).value;
        assert forall p, i :: p in t.lists && 0 <= i < |t.lists[p]| ==> Kept(pcMap, slice, p, t.lists[p][i]);
        match FirstCovering(items, path, start, 0)
        case None =>
          forall p, i | p in after.lists && 0 <= i < |after.lists[p]|
            ensures Kept(pcMap, slice, p, after.lists[p][i])
          {
            if p != path || i < |items| {
              assert after.lists[p][i] == t.lists[p][i];
            }
          }
        case Some(n) =>
          var ln := items[n];
          if stop <= ln.stop || ln.jump == 0 {
            var grown := ln.(stop := if stop > ln.stop then stop else ln.stop, pcs := ln.pcs + {pc});
            assert Kept(pcMap, slice, path, ln);
            assert Kept(pcMap, slice, path, grown);
            forall p, i | p in after.lists && 0 <= i < |after.lists[p]|
              ensures Kept(pcMap, slice, p, after.lists[p][i])
            {
              if p != path || i != n {
                assert after.lists[p][i] == t.lists[p][i];
              }
            }
          }
      }
    }
  }

  /** The statement pass keeps the line map sound. */
  lemma {:induction false} StatementsSound(pcMap: map<int, PcEntry>, slice: Slicer, lm: LineMap, js: seq<int>)
    requires forall i :: 0 <= i < |js| ==> js[i] in pcMap
    requires Sound(pcMap, slice, lm) && Statements(pcMap, slice, lm, js).Success?
    ensures Sound(pcMap, slice, Statements(pcMap, slice, lm, js).value)
    decreases |js|
  {
    if |js| > 0 {
      var init := js[..|js| - 1];
      StatementsSound(pcMap, slice, lm, init);
      StatementStepSound(pcMap, slice, Statements(pcMap, slice, lm, init).value, js[|js| - 1]);
    }
  }

  // ---------------------------------------------------------------------
  // The whole function (compiler.py:237-319)
  // ---------------------------------------------------------------------

  /** The line map after the branch pass and the statement pass, both walking
      the program counters in the order `order`. */
  function Lines(pcMap: map<int, PcEntry>, slice: Slicer, order: seq<int>): Result<LineMap>
    requires forall i :: 0 <= i < |order| ==> order[i] in pcMap
  {
    var lm :- Branches(pcMap, slice, order);
    Statements(pcMap, slice, lm, order)
  }

  /** Whatever the walking order, the two passes fail exactly when some JUMPI's
      branch item cannot be built or some instruction has a file but no offset. */
  lemma {:induction false} LinesFailure(pcMap: map<int, PcEntry>, slice: Slicer, order: seq<int>)
    requires forall i :: 0 <= i < |order| ==> order[i] in pcMap
    requires forall k :: k in pcMap ==> k in order
    ensures Lines(pcMap, slice, order).Failure? <==>
      (exists j :: BrokenBranch(pcMap, slice, j)) || (exists pc :: Unplaced(pcMap, pc))
  {
    BranchesFailure(pcMap, slice, order);
    var branches := Branches(pcMap, slice, order);
    if branches.Success? {
      StatementsFailure(pcMap, slice, branches.value, order);
      if exists pc :: Unplaced(pcMap, pc) {
        var pc :| Unplaced(pcMap, pc);
        assert pc in order;
        var i :| 0 <= i < |order| && order[i] == pc;
        assert Unplaced(pcMap, order[i]);
      }
    } else {
      var i :| 0 <= i < |order| && BrokenBranch(pcMap, slice, order[i]);
    }
  }

  /** The branch and statement passes always fail with a KeyError. */
  lemma {:induction false} LinesKeyError(pcMap: map<int, PcEntry>, slice: Slicer, order: seq<int>)
    requires forall i :: 0 <= i < |order| ==> order[i] in pcMap
    requires Lines(pcMap, slice, order).Failure?
    ensures Lines(pcMap, slice, order).error == KeyError
  {
    var branches := Branches(pcMap, slice, order);
    if branches.Success? {
      StatementsKeyError(pcMap, slice, branches.value, order);
    } else {
      BranchesKeyError(pcMap, slice, order);
    }
  }

  lemma {:induction false} BranchesKeyError(pcMap: map<int, PcEntry>, slice: Slicer, js: seq<int>)
    requires Branches(pcMap, slice, js).Failure?
    ensures Branches(pcMap, slice, js).error == KeyError
    decreases |js|
  {
    var init := js[..|js| - 1];
    if Branches(pcMap, slice, init).Failure? {
      BranchesKeyError(pcMap, slice, init);
    }
  }

  lemma {:induction false} StatementsKeyError(pcMap: map<int, PcEntry>, slice: Slicer, lm: LineMap, js: seq<int>)
    requires forall i :: 0 <= i < |js| ==> js[i] in pcMap
    requires Statements(pcMap, slice, lm, js).Failure?
    ensures Statements(pcMap, slice, lm, js).error == KeyError
    decreases |js|
  {
    var init := js[..|js| - 1];
    if Statements(pcMap, slice, lm, init).Failure? {
      StatementsKeyError(pcMap, slice, lm, init);
    }
  }

  /** `group` is the list the sort and merge pass leaves for a file whose
      passes produced `items` (its properties are `MergePassMerged`'s). */
  predicate Merged(group: seq<Item>, items: seq<Item>) {
    group == MergePass(items)
  }

  /** `[x for v in line_map.values() for x in v]` */
  function Concat(groups: seq<seq<Item>>): seq<Item>
    decreases |groups|
  {
    if |groups| == 0 then [] else Concat(groups[..|groups| - 1]) + groups[|groups| - 1]
  }

  /** An item of the result: its program counters are instructions of the pc
      map, and a branch item is anchored. */
  ghost predicate Placed(pcMap: map<int, PcEntry>, slice: Slicer, it: Item) {
    it.pcs <= pcMap.Keys && Anchored(pcMap, slice, it)
  }

  /** Merging a sound list keeps every item placed. */
  lemma {:induction false} MergedPlaced(pcMap: map<int, PcEntry>, slice: Slicer, p: string, group: seq<Item>, items: seq<Item>)
    requires forall i :: 0 <= i < |items| ==> Kept(pcMap, slice, p, items[i])
    requires Merged(group, items)
    ensures forall i :: 0 <= i < |group| ==> Placed(pcMap, slice, group[i])
  {
    var sorted := SortItems(items);
    MergePassMerged(items);
    forall j | 0 <= j < |sorted|
      ensures Kept(pcMap, slice, p, sorted[j])
    {
      assert sorted[j] in multiset(items);
      var k :| 0 <= k < |items| && items[k] == sorted[j];
    }
    PcsBound(sorted, pcMap.Keys);
    forall i | 0 <= i < |group|
      ensures Placed(pcMap, slice, group[i])
    {
      PcsHas(group, i);
      if group[i].jump != 0 {
        JumpItemsHas(group, i);
        JumpItemsIn(sorted, group[i]);
        var k :| 0 <= k < |sorted| && sorted[k] == group[i];
      }
    }
  }

  /** One more file's merged list keeps every group merged from its file's list. */
  lemma {:induction false} MergedSnoc(lm: LineMap, groups: seq<seq<Item>>, merged: seq<Item>)
    requires |groups| < |lm.keys|
    requires forall h :: 0 <= h < |groups| ==> lm.keys[h] in lm.lists && Merged(groups[h], lm.lists[lm.keys[h]])
    requires lm.keys[|groups|] in lm.lists && Merged(merged, lm.lists[lm.keys[|groups|]])
    ensures forall h :: 0 <= h < |groups + [merged]| ==>
      lm.keys[h] in lm.lists && Merged((groups + [merged])[h], lm.lists[lm.keys[h]])
  {
    forall h | 0 <= h < |groups + [merged]|
      ensures lm.keys[h] in lm.lists && Merged((groups + [merged])[h], lm.lists[lm.keys[h]])
    {
      if h < |groups| {
        assert (groups + [merged])[h] == groups[h];
      }
    }
  }

  lemma {:induction false} ConcatSnoc(groups: seq<seq<Item>>, g: seq<Item>)
    ensures Concat(groups + [g]) == Concat(groups) + g
  {
    Snoc(groups, g);
  }

  lemma {:induction false} PlacedAppend(pcMap: map<int, PcEntry>, slice: Slicer, a: seq<Item>, b: seq<Item>)
    requires forall i :: 0 <= i < |a| ==> Placed(pcMap, slice, a[i])
    requires forall i :: 0 <= i < |b| ==> Placed(pcMap, slice, b[i])
    ensures forall i :: 0 <= i < |a + b| ==> Placed(pcMap, slice, (a + b)[i])
  {
    forall i | 0 <= i < |a + b|
      ensures Placed(pcMap, slice, (a + b)[i])
    {
      if i >= |a| {
        assert (a + b)[i] == b[i - |a|];
      }
    }
  }

  /** The sort and merge pass (compiler.py:292-318) over every file's list, in
      the order the files were first met, and the concatenation of the merged
      lists (compiler.py:319). */
  method MergeAll(pcMap: map<int, PcEntry>, slice: Slicer, lm: LineMap) returns (out: seq<Item>, ghost groups: seq<seq<Item>>)
    requires Sound(pcMap, slice, lm)
    ensures |groups| == |lm.keys| && out == Concat(groups)
    ensures forall g :: 0 <= g < |groups| ==> lm.keys[g] in lm.lists && Merged(groups[g], lm.lists[lm.keys[g]])
    ensures forall i :: 0 <= i < |out| ==> Placed(pcMap, slice, out[i])
  {
    out := [];
    groups := [];
    for g := 0 to |lm.keys|
      invariant |groups| == g && out == Concat(groups)
      invariant forall h :: 0 <= h < g ==> lm.keys[h] in lm.lists && Merged(groups[h], lm.lists[lm.keys[h]])
      invariant forall i :: 0 <= i < |out| ==> Placed(pcMap, slice, out[i])
    {
      var path := lm.keys[g];
      assert path in lm.lists;
      var merged := MergeOverlaps(lm.lists[path]);
      assert Merged(merged, lm.lists[path]);
      MergedPlaced(pcMap, slice, path, merged, lm.lists[path]);
      ConcatSnoc(groups, merged);
      PlacedAppend(pcMap, slice, out, merged);
      MergedSnoc(lm, groups, merged);
      out := out + merged;
      groups := groups + [merged];
    }
  }

  /** What a successful `_isolate_lines` returns: the concatenation of the
      merged lists of the files of the line map, in the order the files were
      first met, every item placed. */
  ghost predicate Isolated(pcMap: map<int, PcEntry>, slice: Slicer, order: seq<int>, groups: seq<seq<Item>>, items: seq<Item>)
    requires forall i :: 0 <= i < |order| ==> order[i] in pcMap
  {
    && Lines(pcMap, slice, order).Success?
    && var lm := Lines(pcMap, slice, order).value;
    && |groups| == |lm.keys| && items == Concat(groups)
    && (forall g :: 0 <= g < |groups| ==> lm.keys[g] in lm.lists && Merged(groups[g], lm.lists[lm.keys[g]]))
    && forall i :: 0 <= i < |items| ==> Placed(pcMap, slice, items[i])
  }

  /** `_isolate_lines` (compiler.py:237-319): the branch pass and the statement
      pass over the program counters in increasing order, then each file's list
      sorted and merged, and the lists concatenated in the order their files
      were first met. */
  method Isolate(pcMap: map<int, PcEntry>, slice: Slicer) returns (r: Result<seq<Item>>, ghost order: seq<int>, ghost groups: seq<seq<Item>>)
    ensures Increasing(order) && (forall k :: k in pcMap <==> k in order)
    ensures forall i :: 0 <= i < |order| ==> order[i] in pcMap
    ensures r.Failure? <==> Lines(pcMap, slice, order).Failure?
    ensures r.Failure? ==> r.error == KeyError
    ensures r.Success? ==> Isolated(pcMap, slice, order, groups, r.value)
  {
    var sorted := SortedKeys(pcMap);
    order := sorted;
    assert forall i :: 0 <= i < |order| ==> order[i] in pcMap by {
      forall i | 0 <= i < |order| ensures order[i] in pcMap {
        assert order[i] in order;
      }
    }
    var branches := BranchPass(pcMap, slice, sorted);
    if branches.Failure? {
      LinesKeyError(pcMap, slice, order);
      return Failure(branches.error), order, [];
    }
    var lines := StatementPass(pcMap, slice, branches.value, sorted);
    if lines.Failure? {
      LinesKeyError(pcMap, slice, order);
      return Failure(lines.error), order, [];
    }
    BranchesSound(pcMap, slice, order);
    StatementsSound(pcMap, slice, branches.value, order);
    var out;
    out, groups := MergeAll(pcMap, slice, lines.value);
    return Success(out), order, groups;
  }
}
