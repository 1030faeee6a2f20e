/** Merging coverage evaluations of several runs (brownie/test/coverage.py,
    `merge_coverage`, lines 88-112) and two small helpers of the same file
    (`_list_to_set`, lines 115-120, and `_maxindex`, lines 183-185).

    A run's evaluation maps each contract to its functions, keyed by (source
    file, function name).  A function's evaluation holds its percentage, kept
    here in ten-thousandths (the source rounds it to four decimals), and,
    unless it was collapsed to `{'pct': 0}` or `{'pct': 1}`, its `tx`, `true`
    and `false` index collections. */
module CoverageMerge {
  import opened Wrappers
  import opened Text
  import opened CoverageEval

  /** One function's evaluation as a run saves it: `pct` is absent for a
      function traced but never scored, `sets` absent once collapsed. */
  datatype FnReport = FnReport(pct: Option<nat>, sets: Option<Hits>)

  const Full: nat := 10000

  type ContractReport = map<(string, string), FnReport>

  type Report = map<string, ContractReport>

  /** The union step of a merge (coverage.py:107-111): the collections are
      joined, an index seen both ways is promoted to `tx`, and `true` and
      `false` keep only what is not in `tx`. */
  function MergeSets(a: Hits, b: Hits): (r: Hits)
    ensures r.tx !! r.onTrue && r.tx !! r.onFalse && r.onTrue !! r.onFalse
    ensures a.tx + b.tx <= r.tx
    ensures a.tx + a.onTrue + a.onFalse + b.tx + b.onTrue + b.onFalse == r.tx + r.onTrue + r.onFalse
  {
    var t := a.onTrue + b.onTrue;
    var f := a.onFalse + b.onFalse;
    var tx := a.tx + b.tx + (t * f);
    Hits(tx, t - tx, f - tx)
  }

  /** The merge of one function as written (coverage.py:101-111): an incoming
      side without `pct` raises KeyError; an incoming 0 or an equal side keeps
      the current one; either side at 1 gives `{'pct': 1}`; otherwise the
      collections are merged, and reading them from a side that has none
      raises KeyError.  The current `pct` is kept. */
  function MergeFnAsWritten(f: FnReport, c: FnReport): (r: Result<FnReport>)
    ensures c.pct == Some(0) ==> r == Success(f)
    ensures f == c && c.pct.Some? ==> r == Success(f)
    ensures r.Success? && r.value != f ==>
      r.value == FnReport(Some(Full), None) || (r.value.pct == f.pct && r.value.sets.Some?)
  {
    if c.pct.None? then Failure(KeyError)
    else if c.pct.value == 0 || f == c then Success(f)
    else if f.pct.None? then Failure(KeyError)
    else if f.pct.value == Full || c.pct.value == Full then Success(FnReport(Some(Full), None))
    else if f.sets.None? || c.sets.None? then Failure(KeyError)
    else Success(FnReport(f.pct, Some(MergeSets(f.sets.value, c.sets.value))))
  }

  /** A function never reached in the first run (`{'pct': 0}`) and partly
      covered in the second cannot be merged as written: the current side has
      no `true` collection. */
  lemma UnreachedThenPartialFails()
    ensures MergeFnAsWritten(FnReport(Some(0), None), FnReport(Some(5000), Some(Hits({0}, {}, {}))))
      == Failure(KeyError)
  {
  }

  /** The merge of one function used by the model: as written, except that a
      current side never reached takes the incoming side over. */
  function MergeFn(f: FnReport, c: FnReport): (r: Result<FnReport>)
    ensures c.pct == Some(0) ==> r == Success(f)
    ensures f.pct == Some(0) && c.pct.Some? && c.pct != Some(0) ==> r == Success(c)
    ensures f == c && c.pct.Some? ==> r == Success(f)
    ensures (&& (f.pct == Some(Full) || c.pct == Some(Full)) && c.pct.Some? && c.pct != Some(0)
             && f.pct.Some? && f.pct != Some(0) && f != c) ==>
      r == Success(FnReport(Some(Full), None))
  {
    if c.pct.Some? && c.pct.value != 0 && f.pct == Some(0) then Success(c)
    else MergeFnAsWritten(f, c)
  }

  /** Pairwise disjoint collections. */
  predicate Disjoint(h: Hits) {
    h.tx !! h.onTrue && h.tx !! h.onFalse && h.onTrue !! h.onFalse
  }

  /** Merging a disjoint evaluation with itself gives it back: the `f == c`
      shortcut (coverage.py:103) changes no result. */
  lemma {:induction false} MergeSetsSelf(a: Hits)
    requires Disjoint(a)
    ensures MergeSets(a, a) == a
  {
    var r := MergeSets(a, a);
    assert a.onTrue * a.onFalse == {};
    assert r.tx == a.tx;
  }

  /** The order of two runs does not matter to the collections. */
  lemma {:induction false} MergeSetsCommutes(a: Hits, b: Hits)
    ensures MergeSets(a, b) == MergeSets(b, a)
  {
    assert a.tx + b.tx == b.tx + a.tx;
    assert a.onTrue + b.onTrue == b.onTrue + a.onTrue;
    assert a.onFalse + b.onFalse == b.onFalse + a.onFalse;
  }

  /** The collections of three runs: everything fully hit anywhere or seen
      both ways across the runs is fully hit, the rest keeps its direction. */
  function Joined(a: Hits, b: Hits, c: Hits): Hits {
    var t := a.onTrue + b.onTrue + c.onTrue;
    var f := a.onFalse + b.onFalse + c.onFalse;
    var tx := a.tx + b.tx + c.tx + (t * f);
    Hits(tx, t - tx, f - tx)
  }

  lemma {:induction false} MergeSetsLeft(a: Hits, b: Hits, c: Hits)
    ensures MergeSets(MergeSets(a, b), c) == Joined(a, b, c)
  {
    var ab := MergeSets(a, b);
    var r := MergeSets(ab, c);
    var j := Joined(a, b, c);
    assert r.tx == j.tx by {
      forall i | i in j.tx
        ensures i in r.tx
      {
        if i !in a.tx + b.tx + c.tx && i !in ab.tx {
          assert i in ab.onTrue + c.onTrue && i in ab.onFalse + c.onFalse;
        }
      }
    }
  }

  /** Merging runs one after the other does not depend on how they are
      grouped, so the merged collections do not depend on the order of the
      files. */
  lemma {:induction false} MergeSetsAssociates(a: Hits, b: Hits, c: Hits)
    ensures MergeSets(MergeSets(a, b), c) == MergeSets(a, MergeSets(b, c))
  {
    MergeSetsLeft(a, b, c);
    MergeSetsLeft(b, c, a);
    MergeSetsCommutes(a, MergeSets(b, c));
    assert Joined(a, b, c) == Joined(b, c, a) by {
      assert a.tx + b.tx + c.tx == b.tx + c.tx + a.tx;
      assert a.onTrue + b.onTrue + c.onTrue == b.onTrue + c.onTrue + a.onTrue;
      assert a.onFalse + b.onFalse + c.onFalse == b.onFalse + c.onFalse + a.onFalse;
    }
  }

  // ---------------------------------------------------------------------
  // Contracts and runs
  // ---------------------------------------------------------------------

  /** The merge of one contract's functions (coverage.py:99-111): every
      function of the incoming side must be in the current one (KeyError
      otherwise); functions only in the current side are kept. */
  function MergeContract(f: ContractReport, c: ContractReport): (r: Result<ContractReport>)
    ensures r.Success? ==> r.value.Keys == f.Keys
    ensures r.Failure? <==> exists key :: key in c && (key !in f || MergeFn(f[key], c[key]).Failure?)
    ensures r.Success? ==> forall key :: key in f ==>
      r.value[key] == if key in c then MergeFn(f[key], c[key]).value else f[key]
  {
    if exists key :: key in c && (key !in f || MergeFn(f[key], c[key]).Failure?) then Failure(KeyError)
    else Success(map key | key in f :: if key in c then MergeFn(f[key], c[key]).value else f[key])
  }

  /** The merge of one run into the merged evaluation (coverage.py:96-111): a
      contract first seen is taken over as it is. */
  function MergeRun(merged: Report, run: Report): (r: Result<Report>)
    ensures r.Success? ==> r.value.Keys == merged.Keys + run.Keys
    ensures r.Failure? <==> exists name :: name in run && name in merged && MergeContract(merged[name], run[name]).Failure?
    ensures r.Success? ==> forall name :: name in run && name !in merged ==> r.value[name] == run[name]
    ensures r.Success? ==> forall name :: name in merged && name !in run ==> r.value[name] == merged[name]
  {
    if exists name :: name in run && name in merged && MergeContract(merged[name], run[name]).Failure? then Failure(KeyError)
    else
      Success(map name | name in merged.Keys + run.Keys ::
        if name !in merged then run[name]
        else if name in run then MergeContract(merged[name], run[name]).value
        else merged[name])
  }

  /** `merge_coverage` over the first `n` files (coverage.py:88-112); a file
      that does not exist is `None` and is skipped. */
  function MergeFiles(files: seq<Option<Report>>, n: nat): Result<Report>
    requires n <= |files|
  {
    if n == 0 then Success(map[])
    else
      var merged :- MergeFiles(files, n - 1);
      if files[n - 1].None? then Success(merged) else MergeRun(merged, files[n - 1].value)
  }

  /** The merged evaluation covers exactly the contracts of the files that
      exist. */
  lemma {:induction false} MergeFilesContracts(files: seq<Option<Report>>, n: nat)
    requires n <= |files| && MergeFiles(files, n).Success?
    ensures forall name :: name in MergeFiles(files, n).value <==>
      exists i :: 0 <= i < n && files[i].Some? && name in files[i].value
  {
    if n > 0 {
      MergeFilesContracts(files, n - 1);
      var before := MergeFiles(files, n - 1).value;
      forall name | name in MergeFiles(files, n).value
        ensures exists i :: 0 <= i < n && files[i].Some? && name in files[i].value
      {
        if name in before {
          var i :| 0 <= i < n - 1 && files[i].Some? && name in files[i].value;
          assert 0 <= i < n;
        } else {
          assert files[n - 1].Some? && name in files[n - 1].value;
        }
      }
      forall name | exists i :: 0 <= i < n && files[i].Some? && name in files[i].value
        ensures name in MergeFiles(files, n).value
      {
        var i :| 0 <= i < n && files[i].Some? && name in files[i].value;
        if i < n - 1 {
          assert name in before;
        }
      }
    }
  }

  lemma {:induction false} MergeFilesSticks(files: seq<Option<Report>>, n: nat, m: nat)
    requires n <= m <= |files| && MergeFiles(files, n).Failure?
    ensures MergeFiles(files, m) == MergeFiles(files, n)
    decreases m
  {
    if n < m {
      MergeFilesSticks(files, n, m - 1);
    }
  }

  // ---------------------------------------------------------------------
  // The procedure
  // ---------------------------------------------------------------------

  /** The merge of one contract, function by function, in place. */
  method MergeContractInPlace(f: ContractReport, c: ContractReport) returns (r: Result<ContractReport>)
    ensures r == MergeContract(f, c)
  {
    var merged := f;
    var todo := c.Keys;
    ghost var done: set<(string, string)> := {};
    while todo != {}
      invariant todo + done == c.Keys && todo !! done
      invariant done <= f.Keys && merged.Keys == f.Keys
      invariant forall key :: key in done ==> MergeFn(f[key], c[key]).Success?
      invariant forall key :: key in merged ==>
        merged[key] == if key in done then MergeFn(f[key], c[key]).value else f[key]
      decreases todo
    {
      if forall key :: key !in todo {
        assert false;
      }
      var key :| key in todo;
      if key !in merged {
        assert key in c && key !in f;
        return Failure(KeyError);
      }
      var m := MergeFn(merged[key], c[key]);
      if m.Failure? {
        assert key in c && MergeFn(f[key], c[key]).Failure?;
        return Failure(KeyError);
      }
      merged := merged[key := m.value];
      todo := todo - {key};
      done := done + {key};
    }
    assert merged == map key | key in f :: if key in c then MergeFn(f[key], c[key]).value else f[key];
    r := Success(merged);
  }

  /** `merged` holds `merged0` with the contracts of `run` named in `done`
      merged in, each of them without a `KeyError`. */
  ghost predicate PartlyMerged(merged0: Report, run: Report, done: set<string>, merged: Report)
  {
    && done <= run.Keys
    && merged.Keys == merged0.Keys + done
    && (forall name :: name in done && name in merged0 ==> MergeContract(merged0[name], run[name]).Success?)
    && (forall name :: name in merged ==>
          merged[name] == if name !in done then merged0[name]
            else if name !in merged0 then run[name]
            else MergeContract(merged0[name], run[name]).value)
  }

  /** Merging in one more contract of `run` keeps `PartlyMerged`. */
  lemma {:induction false} PartlyMergedStep(merged0: Report, run: Report, done: set<string>, merged: Report, name: string, m: ContractReport)
    requires PartlyMerged(merged0, run, done, merged)
    requires name in run && name !in done
    requires name !in merged0 ==> m == run[name]
    requires name in merged0 ==> MergeContract(merged0[name], run[name]) == Success(m)
    ensures PartlyMerged(merged0, run, done + {name}, merged[name := m])
  {
    var merged1, done1 := merged[name := m], done + {name};
    forall other | other in merged1
      ensures merged1[other] == if other !in done1 then merged0[other]
        else if other !in merged0 then run[other]
        else MergeContract(merged0[other], run[other]).value
    {
      if other != name {
        assert merged1[other] == merged[other];
      }
    }
  }

  /** Once every contract of `run` is merged in, the result is `MergeRun`'s. */
  lemma {:induction false} PartlyMergedAll(merged0: Report, run: Report, merged: Report)
    requires PartlyMerged(merged0, run, run.Keys, merged)
    ensures MergeRun(merged0, run) == Success(merged)
  {
    assert merged == map name | name in merged0.Keys + run.Keys ::
      if name !in merged0 then run[name]
      else if name in run then MergeContract(merged0[name], run[name]).value
      else merged0[name];
  }

  /** One run merged in, contract by contract. */
  method MergeRunInPlace(merged0: Report, run: Report) returns (r: Result<Report>)
    ensures r == MergeRun(merged0, run)
  {
    var merged := merged0;
    var todo := run.Keys;
    ghost var done: set<string> := {};
    while todo != {}
      invariant todo + done == run.Keys && todo !! done
      invariant PartlyMerged(merged0, run, done, merged)
      decreases todo
    {
      if forall name :: name !in todo {
        assert false;
      }
      var name :| name in todo;
      if name !in merged {
        PartlyMergedStep(merged0, run, done, merged, name, run[name]);
        merged := merged[name := run[name]];
      } else {
        var m := MergeContractInPlace(merged[name], run[name]);
        if m.Failure? {
          assert name in run && name in merged0 && MergeContract(merged0[name], run[name]).Failure?;
          return Failure(KeyError);
        }
        PartlyMergedStep(merged0, run, done, merged, name, m.value);
        merged := merged[name := m.value];
      }
      todo := todo - {name};
      done := done + {name};
    }
    PartlyMergedAll(merged0, run, merged);
    r := Success(merged);
  }

  /** `merge_coverage(coverage_files)` (coverage.py:88-112), with the files
      already read. */
  method MergeCoverage(files: seq<Option<Report>>) returns (r: Result<Report>)
    ensures r == MergeFiles(files, |files|)
  {
    var merged: Report := map[];
    for n := 0 to |files|
      invariant MergeFiles(files, n) == Success(merged)
    {
      if files[n].None? {
        continue;
      }
      var m := MergeRunInPlace(merged, files[n].value);
      if m.Failure? {
        MergeFilesSticks(files, n + 1, |files|);
        return m;
      }
      merged := m.value;
    }
    r := Success(merged);
  }

  // ---------------------------------------------------------------------
  // Helpers
  // ---------------------------------------------------------------------

  /** A collection as a run saves it (a list) or as it is read back (a set). */
  datatype Elems = ListOf(items: seq<int>) | SetOf(members: set<int>)

  function Members(e: Elems): set<int> {
    match e
    case ListOf(items) => set i | i in items
    case SetOf(members) => members
  }

  /** `_list_to_set(obj, key)` (coverage.py:115-120): the entry becomes the
      set of its elements, or the empty set when absent, and is returned. */
  function ListToSet(obj: map<string, Elems>, key: string): (r: (map<string, Elems>, set<int>))
    ensures r.0.Keys == obj.Keys + {key}
    ensures forall other :: other in obj && other != key ==> r.0[other] == obj[other]
    ensures r.0[key] == SetOf(r.1)
    ensures key in obj ==> forall i :: i in r.1 <==> i in Members(obj[key])
    ensures key !in obj ==> r.1 == {}
  {
    var s := if key in obj then Members(obj[key]) else {};
    (obj[key := SetOf(s)], s)
  }

  /** Converting twice is converting once. */
  lemma {:induction false} ListToSetTwice(obj: map<string, Elems>, key: string)
    ensures ListToSet(ListToSet(obj, key).0, key) == ListToSet(obj, key)
  {
    var (once, elems) := ListToSet(obj, key);
    assert Members(once[key]) == elems;
    assert once[key := SetOf(elems)] == once;
  }

  predicate Closer(c: char) {
    c == ';' || c == '}' || c == '{'
  }

  lemma {:induction false} OneCharOccurs(s: string, c: char, i: int)
    ensures OccursAt(s, [c], i) <==> 0 <= i < |s| && s[i] == c
  {
    if 0 <= i < |s| && s[i] == c {
      assert s[i..i + 1] == [c];
    }
  }

  lemma {:induction false} LastOf(s: string, c: char)
    ensures RFind(s, [c]).None? <==> forall j :: 0 <= j < |s| ==> s[j] != c
    ensures RFind(s, [c]).Some? ==>
      RFind(s, [c]).value < |s| && s[RFind(s, [c]).value] == c
      && forall j :: RFind(s, [c]).value < j < |s| ==> s[j] != c
  {
    var r := RFind(s, [c]);
    if r.Some? {
      OneCharOccurs(s, [c][0], r.value);
      forall j | r.value < j < |s|
        ensures s[j] != c
      {
        OneCharOccurs(s, c, j);
      }
    } else {
      forall j | 0 <= j < |s|
        ensures s[j] != c
      {
        OneCharOccurs(s, c, j);
      }
    }
  }

  function MaxOpt(a: Option<nat>, b: Option<nat>): (r: Option<nat>)
    ensures r.None? <==> a.None? && b.None?
    ensures r.Some? ==> r == a || r == b
    ensures a.Some? ==> r.Some? && a.value <= r.value
    ensures b.Some? ==> r.Some? && b.value <= r.value
  {
    if a.None? then b else if b.None? then a else Some(if a.value < b.value then b.value else a.value)
  }

  /** `_maxindex(source)` (coverage.py:183-185). */
  function MaxIndex(source: string): Result<nat> {
    var last := MaxOpt(MaxOpt(RFind(source, ";"), RFind(source, "}")), RFind(source, "{"));
    if last.None? then Failure(ValueError) else Success(last.value + 1)
  }

  /** `_maxindex` gives one past the last `;`, `}` or `{`, and ValueError
      when there is none. */
  lemma {:induction false} MaxIndexIsPastLastCloser(source: string)
    ensures MaxIndex(source).Failure? <==> forall j :: 0 <= j < |source| ==> !Closer(source[j])
    ensures MaxIndex(source).Failure? ==> MaxIndex(source).error == ValueError
    ensures MaxIndex(source).Success? ==>
      1 <= MaxIndex(source).value <= |source| && Closer(source[MaxIndex(source).value - 1])
      && forall j :: MaxIndex(source).value <= j < |source| ==> !Closer(source[j])
  {
    LastOf(source, ';');
    LastOf(source, '}');
    LastOf(source, '{');
  }
}
