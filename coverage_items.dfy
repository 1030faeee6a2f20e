/** Line-based coverage items and the sort/merge pass of `_isolate_lines`
    (brownie/project/compiler.py:293-333).

    A coverage item is a source range `[start, stop)` of one file together with
    the program counters that execute it.  A branch item is anchored on the
    instruction before a JUMPI and remembers the JUMPI's program counter in
    `jump`; a statement item has `jump == 0`, which plays the role of Python's
    `False` (the source compares and tests `jump` as a number and as a truth
    value alike, and no JUMPI that yields an item sits at program counter 0). */
module CoverageItems {
  import opened Wrappers
  import opened Text
  import opened PcMap

  datatype Item = Item(path: string, start: int, stop: int, pcs: set<int>, jump: nat)

  /** `_base(pc, op)` (compiler.py:326-333): a statement item covering the
      instruction's own offset and nothing but its program counter. */
  function Base(pc: int, op: PcEntry): (it: Item)
    requires op.path.Some? && op.offset.Some?
    ensures it.path == op.path.value && (it.start, it.stop) == op.offset.value
    ensures it.pcs == {pc} && it.jump == 0
  {
    Item(op.path.value, op.offset.value.0, op.offset.value.1, {pc}, 0)
  }

  // ---------------------------------------------------------------------
  // Ordering by the key (path, start, stop) (compiler.py:294-297)
  // ---------------------------------------------------------------------

  predicate StrLt(a: string, b: string) {
    StrLe(a, b) && a != b
  }

  /** Python's tuple comparison of `(path, start, stop)`. */
  predicate KeyLe(a: Item, b: Item) {
    || StrLt(a.path, b.path)
    || (a.path == b.path && (a.start < b.start || (a.start == b.start && a.stop <= b.stop)))
  }

  /** The order the merge pass relies on: by path, then by start. */
  predicate PathStartLe(a: Item, b: Item) {
    StrLt(a.path, b.path) || (a.path == b.path && a.start <= b.start)
  }

  predicate Sorted(s: seq<Item>) {
    forall i, j :: 0 <= i < j < |s| ==> KeyLe(s[i], s[j])
  }

  predicate PathStartSorted(s: seq<Item>) {
    forall i, j :: 0 <= i < j < |s| ==> PathStartLe(s[i], s[j])
  }

  lemma {:induction false} KeyLeTotal(a: Item, b: Item)
    ensures KeyLe(a, b) || KeyLe(b, a)
  {
    StrLeTotal(a.path, b.path);
  }

  lemma {:induction false} KeyLeTransitive(a: Item, b: Item, c: Item)
    requires KeyLe(a, b) && KeyLe(b, c)
    ensures KeyLe(a, c)
  {
    if a.path != b.path && b.path != c.path {
      StrLeTransitive(a.path, b.path, c.path);
      if a.path == c.path {
        StrLeAntisymmetric(a.path, b.path);
      }
    }
  }

  /** Two items between which a third lies in path order share its path when
      they share theirs. */
  lemma {:induction false} PathSqueezed(a: Item, b: Item, c: Item)
    requires PathStartLe(a, b) && PathStartLe(b, c) && a.path == c.path
    ensures a.path == b.path == c.path && a.start <= b.start <= c.start
  {
    if a.path != b.path {
      StrLeAntisymmetric(a.path, b.path);
    }
  }

  /** Inserts `x` after every element whose key is at most its own, so that
      equal keys keep their order. */
  function Insert(x: Item, s: seq<Item>): (r: seq<Item>)
    ensures multiset(r) == multiset(s) + multiset{x}
    decreases |s|
  {
    if |s| == 0 || KeyLe(s[|s| - 1], x) then s + [x]
    else
      TakeAllButLast(s);
      Insert(x, s[..|s| - 1]) + [s[|s| - 1]]
  }

  /** Python's `sorted(items, key=lambda k: (k['path'], k['start'], k['stop']))`,
      which is stable: insertion of each item after the ones before it. */
  function SortItems(s: seq<Item>): (r: seq<Item>)
    ensures multiset(r) == multiset(s)
    decreases |s|
  {
    if |s| == 0 then []
    else
      TakeAllButLast(s);
      Insert(s[|s| - 1], SortItems(s[..|s| - 1]))
  }

  lemma {:induction false} InsertSorted(x: Item, s: seq<Item>)
    requires Sorted(s)
    ensures Sorted(Insert(x, s))
    decreases |s|
  {
    if |s| == 0 || KeyLe(s[|s| - 1], x) {
      var r := s + [x];
      forall i, j | 0 <= i < j < |r| ensures KeyLe(r[i], r[j]) {
        if j == |s| && i < |s| - 1 {
          KeyLeTransitive(s[i], s[|s| - 1], x);
        }
      }
    } else {
      var last := s[|s| - 1];
      var init := s[..|s| - 1];
      InsertSorted(x, init);
      var ins := Insert(x, init);
      var r := ins + [last];
      KeyLeTotal(last, x);
      assert multiset(ins) == multiset(init) + multiset{x};
      forall k | 0 <= k < |ins| ensures KeyLe(ins[k], last) {
        assert ins[k] in multiset(ins);
        if ins[k] != x {
          assert ins[k] in multiset(init);
          var m :| 0 <= m < |init| && init[m] == ins[k];
        }
      }
    }
  }

  /** The sorted items are in key order and are a permutation of the input. */
  lemma {:induction false} SortItemsSorted(s: seq<Item>)
    ensures Sorted(SortItems(s)) && multiset(SortItems(s)) == multiset(s)
    decreases |s|
  {
    if |s| > 0 {
      SortItemsSorted(s[..|s| - 1]);
      InsertSorted(s[|s| - 1], SortItems(s[..|s| - 1]));
    }
  }

  lemma {:induction false} SortedPathStart(s: seq<Item>)
    requires Sorted(s)
    ensures PathStartSorted(s)
  {
    forall i, j | 0 <= i < j < |s| ensures PathStartLe(s[i], s[j]) {
      assert KeyLe(s[i], s[j]);
    }
  }

  // ---------------------------------------------------------------------
  // The merge pass (compiler.py:298-318)
  // ---------------------------------------------------------------------

  /** What the merge pass leaves between neighbours: statement items neither
      touch nor overlap, and a statement item does not overlap a following
      branch item of the same file. */
  predicate Separated(a: Item, b: Item) {
    && (a.jump == 0 && b.jump == 0 ==> a.stop < b.start)
    && (a.jump == 0 && b.jump != 0 && a.path == b.path ==> a.stop <= b.start)
  }

  /** The branch items of a list, in order. */
  function JumpItems(s: seq<Item>): (r: seq<Item>)
    ensures |r| <= |s|
    decreases |s|
  {
    if |s| == 0 then []
    else JumpItems(s[..|s| - 1]) + (if s[|s| - 1].jump != 0 then [s[|s| - 1]] else [])
  }

  /** The program counters of a list of items. */
  function Pcs(s: seq<Item>): set<int>
    decreases |s|
  {
    if |s| == 0 then {} else Pcs(s[..|s| - 1]) + s[|s| - 1].pcs
  }

  lemma {:induction false} JumpItemsAppend(a: seq<Item>, b: seq<Item>)
    ensures JumpItems(a + b) == JumpItems(a) + JumpItems(b)
    decreases |b|
  {
    if |b| == 0 {
      assert a + b == a;
    } else {
      var init, last := b[..|b| - 1], b[|b| - 1];
      var tail := if last.jump != 0 then [last] else [];
      JumpItemsAppend(a, init);
      assert (a + b)[..|a + b| - 1] == a + init;
      assert JumpItems(a + b) == JumpItems(a + init) + tail;
      assert JumpItems(b) == JumpItems(init) + tail;
      assert JumpItems(a) + JumpItems(init) + tail == JumpItems(a) + (JumpItems(init) + tail);
    }
  }

  lemma {:induction false} PcsAppend(a: seq<Item>, b: seq<Item>)
    ensures Pcs(a + b) == Pcs(a) + Pcs(b)
    decreases |b|
  {
    if |b| == 0 {
      assert a + b == a;
    } else {
      var init := b[..|b| - 1];
      PcsAppend(a, init);
      assert (a + b)[..|a + b| - 1] == a + init;
    }
  }

  /** Each item's program counters are among those of its list. */
  lemma {:induction false} PcsHas(s: seq<Item>, i: nat)
    requires i < |s|
    ensures s[i].pcs <= Pcs(s)
    decreases |s|
  {
    if i < |s| - 1 {
      var init := s[..|s| - 1];
      PcsHas(init, i);
      assert init[i] == s[i];
    }
  }

  /** A bound on every item's program counters bounds those of the list. */
  lemma {:induction false} PcsBound(s: seq<Item>, bound: set<int>)
    requires forall i :: 0 <= i < |s| ==> s[i].pcs <= bound
    ensures Pcs(s) <= bound
    decreases |s|
  {
    if |s| > 0 {
      var init := s[..|s| - 1];
      forall i | 0 <= i < |init|
        ensures init[i].pcs <= bound
      {
        assert init[i] == s[i];
      }
      PcsBound(init, bound);
    }
  }

  /** The branch items of a list are exactly its items with a jump. */
  lemma {:induction false} JumpItemsHas(s: seq<Item>, i: nat)
    requires i < |s| && s[i].jump != 0
    ensures s[i] in JumpItems(s)
    decreases |s|
  {
    if i < |s| - 1 {
      var init := s[..|s| - 1];
      JumpItemsHas(init, i);
      assert init[i] == s[i];
    }
  }

  lemma {:induction false} JumpItemsIn(s: seq<Item>, x: Item)
    requires x in JumpItems(s)
    ensures x in s && x.jump != 0
    decreases |s|
  {
    var init := s[..|s| - 1];
    if x in JumpItems(init) {
      JumpItemsIn(init, x);
      var k :| 0 <= k < |init| && init[k] == x;
      assert s[k] == x;
    } else {
      assert x == s[|s| - 1];
    }
  }

  lemma {:induction false} JumpItemsOne(x: Item)
    ensures JumpItems([x]) == if x.jump != 0 then [x] else []
  {
    assert [x][..0] == [];
  }

  lemma {:induction false} PcsOne(x: Item)
    ensures Pcs([x]) == x.pcs
  {
    assert [x][..0] == [];
  }

  /** Deleting a statement item (the case "JUMPI overlaps cannot merge")
      keeps the branch items. */
  lemma {:induction false} DeleteKeepsJumps(s: seq<Item>, i: nat)
    requires i < |s| && s[i].jump == 0
    ensures JumpItems(s[..i] + s[i + 1..]) == JumpItems(s)
  {
    var pre, post := s[..i], s[i + 1..];
    Around(s, i);
    JumpItemsAppend(pre, [s[i]] + post);
    JumpItemsAppend([s[i]], post);
    JumpItemsAppend(pre, post);
    JumpItemsOne(s[i]);
  }

  /** Deleting an item invents no program counter. */
  lemma {:induction false} DeleteKeepsPcs(s: seq<Item>, i: nat)
    requires i < |s|
    ensures Pcs(s[..i] + s[i + 1..]) <= Pcs(s)
  {
    var pre, post := s[..i], s[i + 1..];
    Around(s, i);
    PcsAppend(pre, [s[i]] + post);
    PcsAppend([s[i]], post);
    PcsAppend(pre, post);
  }

  /** Folding statement item `i + 1` into statement item `i` keeps the branch
      items. */
  lemma {:induction false} FoldKeepsJumps(s: seq<Item>, i: nat, merged: Item)
    requires i + 1 < |s| && s[i].jump == 0 && s[i + 1].jump == 0 && merged.jump == 0
    ensures JumpItems(s[..i] + [merged] + s[i + 2..]) == JumpItems(s)
  {
    var pre, post := s[..i], s[i + 2..];
    AroundTwo(s, i, merged);
    assert JumpItems([s[i + 1]] + post) == JumpItems(post) by {
      JumpItemsAppend([s[i + 1]], post);
      JumpItemsOne(s[i + 1]);
    }
    assert JumpItems([s[i]] + ([s[i + 1]] + post)) == JumpItems(post) by {
      JumpItemsAppend([s[i]], [s[i + 1]] + post);
      JumpItemsOne(s[i]);
    }
    assert JumpItems([merged] + post) == JumpItems(post) by {
      JumpItemsAppend([merged], post);
      JumpItemsOne(merged);
    }
    JumpItemsAppend(pre, [s[i]] + ([s[i + 1]] + post));
    JumpItemsAppend(pre, [merged] + post);
  }

  /** Folding two items into one that holds both their program counters keeps
      every program counter. */
  lemma {:induction false} FoldKeepsPcs(s: seq<Item>, i: nat, merged: Item)
    requires i + 1 < |s| && merged.pcs == s[i].pcs + s[i + 1].pcs
    ensures Pcs(s[..i] + [merged] + s[i + 2..]) == Pcs(s)
  {
    var pre, post := s[..i], s[i + 2..];
    AroundTwo(s, i, merged);
    PcsAppend(pre, [s[i]] + ([s[i + 1]] + post));
    PcsAppend([s[i]], [s[i + 1]] + post);
    PcsAppend([s[i + 1]], post);
    PcsAppend(pre, [merged] + post);
    PcsAppend([merged], post);
    PcsOne(s[i]);
    PcsOne(s[i + 1]);
    PcsOne(merged);
  }

  /** Statement item `b` folded into statement item `a` (compiler.py:313-316):
      the program counters of both and the larger stop. */
  function Fold(a: Item, b: Item): Item {
    a.(pcs := a.pcs + b.pcs, stop := if a.stop >= b.stop then a.stop else b.stop)
  }

  /** The merge walk from index `i` (compiler.py:300-318): stop when no pair
      is left; step over a branch item; delete a statement item that overlaps
      the branch item after it, or step over it; fold the next statement item
      into this one when they touch or overlap; otherwise step on. */
  function MergeFrom(r: seq<Item>, i: nat): seq<Item>
    requires i <= |r|
    decreases 2 * |r| - i
  {
    if |r| <= i + 1 then r
    else if r[i].jump != 0 then MergeFrom(r, i + 1)
    else if r[i + 1].jump != 0 then
      if r[i].stop > r[i + 1].start then MergeFrom(r[..i] + r[i + 1..], i)
      else MergeFrom(r, i + 1)
    else if r[i].stop >= r[i + 1].start then MergeFrom(r[..i] + [Fold(r[i], r[i + 1])] + r[i + 2..], i)
    else MergeFrom(r, i + 1)
  }

  /** One file's list after the sort and the merge walk (compiler.py:293-318). */
  function MergePass(items: seq<Item>): seq<Item> {
    MergeFrom(SortItems(items), 0)
  }

  /** What the merge walk leaves: neighbours separated, the list in path
      order, the branch items those of the sorted list, and no program counter
      that was not there. */
  ghost predicate MergeResult(out: seq<Item>, sorted: seq<Item>) {
    && (forall j :: 0 <= j < |out| - 1 ==> Separated(out[j], out[j + 1]))
    && PathStartSorted(out)
    && JumpItems(out) == JumpItems(sorted)
    && Pcs(out) <= Pcs(sorted)
  }

  /** The walk from a state that keeps its invariant ends in a merged list. */
  lemma {:induction false} MergeFromWalked(r: seq<Item>, i: nat, sorted: seq<Item>)
    requires Walked(r, i, sorted)
    ensures MergeResult(MergeFrom(r, i), sorted)
    decreases 2 * |r| - i
  {
    if |r| <= i + 1 {
    } else if r[i].jump != 0 {
      Step(r, i, sorted);
      MergeFromWalked(r, i + 1, sorted);
    } else if r[i + 1].jump != 0 {
      if r[i].stop > r[i + 1].start {
        DeleteOverlapped(r, i, sorted);
        MergeFromWalked(r[..i] + r[i + 1..], i, sorted);
      } else {
        Step(r, i, sorted);
        MergeFromWalked(r, i + 1, sorted);
      }
    } else if r[i].stop >= r[i + 1].start {
      FoldNext(r, i, Fold(r[i], r[i + 1]), sorted);
      MergeFromWalked(r[..i] + [Fold(r[i], r[i + 1])] + r[i + 2..], i, sorted);
    } else {
      Step(r, i, sorted);
      MergeFromWalked(r, i + 1, sorted);
    }
  }

  /** The merge pass leaves neighbours separated and the list in path order,
      keeps every branch item and invents no program counter. */
  lemma {:induction false} MergePassMerged(items: seq<Item>)
    ensures MergeResult(MergePass(items), SortItems(items))
  {
    var sorted := SortItems(items);
    SortItemsSorted(items);
    SortedPathStart(sorted);
    MergeFromWalked(sorted, 0, sorted);
  }

  /** Without branch items the walk only folds, and every program counter
      survives. */
  lemma {:induction false} MergeFromAllPcs(r: seq<Item>, i: nat)
    requires i <= |r| && forall j :: 0 <= j < |r| ==> r[j].jump == 0
    ensures Pcs(MergeFrom(r, i)) == Pcs(r)
    decreases 2 * |r| - i
  {
    if |r| <= i + 1 {
    } else if r[i].stop >= r[i + 1].start {
      var d := r[..i] + [Fold(r[i], r[i + 1])] + r[i + 2..];
      FoldKeepsPcs(r, i, Fold(r[i], r[i + 1]));
      forall j | 0 <= j < |d|
        ensures d[j].jump == 0
      {
        if j > i {
          assert d[j] == r[j + 1];
        }
      }
      MergeFromAllPcs(d, i);
    } else {
      MergeFromAllPcs(r, i + 1);
    }
  }

  /** A file whose passes produced statement items only keeps every program
      counter through the merge pass: a statement item is lost only when it
      overlaps a following branch item. */
  lemma {:induction false} MergePassAllPcs(items: seq<Item>)
    requires forall j :: 0 <= j < |items| ==> items[j].jump == 0
    ensures Pcs(MergePass(items)) == Pcs(SortItems(items))
  {
    var sorted := SortItems(items);
    forall j | 0 <= j < |sorted|
      ensures sorted[j].jump == 0
    {
      assert sorted[j] in multiset(items);
      var k :| 0 <= k < |items| && items[k] == sorted[j];
    }
    MergeFromAllPcs(sorted, 0);
  }

  /** The merge pass over one file's list (compiler.py:293-318): sorts the
      items, then walks them with index `i`, skipping branch items, deleting a
      statement item that overlaps the branch item after it, and folding a
      statement item that touches or overlaps the next statement item into it. */
  method MergeOverlaps(items: seq<Item>) returns (r: seq<Item>)
    ensures r == MergePass(items)
    ensures MergeResult(r, SortItems(items))
  {
    r := SortItems(items);
    var i := 0;
    while true
      invariant i <= |r| && MergeFrom(r, i) == MergePass(items)
      decreases 2 * |r| - i
    {
      if |r| <= i + 1 {
        break;
      }
      if r[i].jump != 0 {
        i := i + 1;
        continue;
      }
      if r[i + 1].jump != 0 {
        if r[i].stop > r[i + 1].start {
          r := r[..i] + r[i + 1..];
        } else {
          i := i + 1;
        }
        continue;
      }
      if r[i].stop >= r[i + 1].start {
        var merged := r[i].(pcs := r[i].pcs + r[i + 1].pcs, stop := if r[i].stop >= r[i + 1].stop then r[i].stop else r[i + 1].stop);
        r := r[..i] + [merged] + r[i + 2..];
        continue;
      }
      i := i + 1;
    }
    MergePassMerged(items);
  }

  /** The merge walk at index `i`: every pair before `i` is separated, the
      list stays in path order, no branch item is lost and no program counter
      is invented. */
  ghost predicate Walked(r: seq<Item>, i: int, sorted: seq<Item>) {
    && 0 <= i <= |r|
    && (forall j :: 0 <= j < i && j + 1 < |r| ==> Separated(r[j], r[j + 1]))
    && PathStartSorted(r)
    && JumpItems(r) == JumpItems(sorted)
    && Pcs(r) <= Pcs(sorted)
  }

  /** Moving past a pair that is already separated keeps the walk's invariant. */
  lemma {:induction false} Step(r: seq<Item>, i: nat, sorted: seq<Item>)
    requires Walked(r, i, sorted) && i + 1 < |r|
    requires r[i].jump != 0 || (r[i + 1].jump != 0 && r[i].stop <= r[i + 1].start)
             || (r[i].jump == 0 && r[i + 1].jump == 0 && r[i].stop < r[i + 1].start)
    ensures Walked(r, i + 1, sorted)
  {
  }

  /** The deletion step keeps the walk's invariant. */
  lemma {:induction false} DeleteOverlapped(r: seq<Item>, i: nat, sorted: seq<Item>)
    requires Walked(r, i, sorted) && i + 1 < |r|
    requires r[i].jump == 0 && r[i + 1].jump != 0
    ensures Walked(r[..i] + r[i + 1..], i, sorted)
  {
    var d := r[..i] + r[i + 1..];
    DeleteKeepsJumps(r, i);
    DeleteKeepsPcs(r, i);
    forall j | 0 <= j < i && j + 1 < |d| ensures Separated(d[j], d[j + 1]) {
      if j + 1 < i {
        assert d[j] == r[j] && d[j + 1] == r[j + 1];
        assert Separated(r[j], r[j + 1]);
      } else {
        assert d[j] == r[i - 1] && d[j + 1] == r[i + 1];
        assert Separated(r[i - 1], r[i]);
        if r[i - 1].jump == 0 && r[i - 1].path == r[i + 1].path {
          PathSqueezed(r[i - 1], r[i], r[i + 1]);
        }
      }
    }
    DeleteKeepsOrder(r, i);
  }

  lemma {:induction false} DeleteKeepsOrder(r: seq<Item>, i: nat)
    requires i < |r| && PathStartSorted(r)
    ensures PathStartSorted(r[..i] + r[i + 1..])
  {
    var d := r[..i] + r[i + 1..];
    forall a, b | 0 <= a < b < |d| ensures PathStartLe(d[a], d[b]) {
      var a' := if a < i then a else a + 1;
      var b' := if b < i then b else b + 1;
      assert d[a] == r[a'] && d[b] == r[b'];
    }
  }

  /** The folding step keeps the walk's invariant. */
  lemma {:induction false} FoldNext(r: seq<Item>, i: nat, merged: Item, sorted: seq<Item>)
    requires Walked(r, i, sorted) && i + 1 < |r|
    requires r[i].jump == 0 && r[i + 1].jump == 0
    requires merged == r[i].(pcs := r[i].pcs + r[i + 1].pcs, stop := merged.stop)
    ensures Walked(r[..i] + [merged] + r[i + 2..], i, sorted)
  {
    var d := r[..i] + [merged] + r[i + 2..];
    FoldKeepsJumps(r, i, merged);
    FoldKeepsPcs(r, i, merged);
    forall j | 0 <= j < i && j + 1 < |d| ensures Separated(d[j], d[j + 1]) {
      assert d[j] == r[j];
      if j + 1 < i {
        assert d[j + 1] == r[j + 1];
      } else {
        assert Separated(r[j], r[j + 1]);
      }
    }
    forall a, b | 0 <= a < b < |d| ensures PathStartLe(d[a], d[b]) {
      var a' := if a <= i then a else a + 1;
      var b' := if b <= i then b else b + 1;
      assert PathStartLe(r[a'], r[b']);
    }
  }
}
