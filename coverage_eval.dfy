/** Coverage evaluation (brownie/test/coverage.py, `analyze_coverage`, lines
    12-85): the traces of the transactions of a test run are folded into, for
    every (contract, source file, function), the set of coverage map entries
    fully hit (`tx`) and the branch entries seen going one way only (`true`,
    `false`); each function is then given a count against its total.

    The source nests its dicts as contract, then file, then function; here a
    (contract, file, function) key stands for that path.  The build the
    source reads contracts from is the map `builds`. */
module CoverageEval {
  import opened Wrappers
  import opened Text
  import opened PcMap
  import opened CoverageMap

  /** One step of a transaction trace; an empty name or file is the source's
      falsy value. */
  datatype Step = Step(pc: int, op: string, contractName: string, filename: string)

  /** A transaction: whether it has a receiver, and its trace. */
  datatype Tx = Tx(receiver: bool, trace: seq<Step>)

  /** What the build holds for a contract. */
  datatype Contract = Contract(pcMap: map<int, PcEntry>, coverageMap: Table)

  type Key = (string, string, string)

  /** `{'tx': set(), 'true': set(), 'false': set()}` */
  datatype Hits = Hits(tx: set<int>, onTrue: set<int>, onFalse: set<int>)

  /** The state of the walk: the contracts whose build has been read, the
      global hits, and the current transaction's hits on branch entries. */
  datatype Walk = Walk(loaded: set<string>, eval: map<Key, Hits>, txHits: map<Key, set<int>>)

  /** `next(i for i in maps if i['jump'] == pc)`, as a position: the first
      entry whose jump is `pc` (Python's `False == 0` makes a statement entry
      match pc 0). */
  function FirstJump(entries: seq<CovEntry>, pc: int, from: nat): (r: Option<nat>)
    requires from <= |entries|
    ensures r.Some? ==>
      && from <= r.value < |entries| && entries[r.value].jump == pc
      && forall i :: from <= i < r.value ==> entries[i].jump != pc
    ensures r.None? ==> forall i :: from <= i < |entries| ==> entries[i].jump != pc
    decreases |entries| - from
  {
    if from == |entries| then None
    else if entries[from].jump == pc then Some(from)
    else FirstJump(entries, pc, from + 1)
  }

  /** The entries of a key, when the build has them. */
  predicate HasEntries(builds: map<string, Contract>, k: Key) {
    k.0 in builds && k.1 in builds[k.0].coverageMap && k.2 in builds[k.0].coverageMap[k.1]
  }

  function EntriesOf(builds: map<string, Contract>, k: Key): seq<CovEntry>
    requires HasEntries(builds, k)
  {
    builds[k.0].coverageMap[k.1][k.2]
  }

  /** `idx` is the position of a branch entry of the key. */
  predicate IsBranch(builds: map<string, Contract>, k: Key, idx: int) {
    HasEntries(builds, k) && 0 <= idx < |EntriesOf(builds, k)| && EntriesOf(builds, k)[idx].jump != 0
  }

  /** The walk with the function's hits created where missing (the
      `setdefault` calls, coverage.py:41-42). */
  function Opened(w: Walk, k: Key): (r: Walk)
    ensures k in r.eval && k in r.txHits
    ensures r.loaded == w.loaded
    ensures k in w.eval ==> r.eval == w.eval
    ensures k !in w.eval ==> r.eval == w.eval[k := Hits({}, {}, {})]
    ensures k in w.txHits ==> r.txHits == w.txHits
    ensures k !in w.txHits ==> r.txHits == w.txHits[k := {}]
  {
    var h := if k in w.eval then w.eval[k] else Hits({}, {}, {});
    var th := if k in w.txHits then w.txHits[k] else {};
    w.(eval := w.eval[k := h], txHits := w.txHits[k := th])
  }

  /** A non-JUMPI step inside a function (coverage.py:43-52): without a
      coverage index nothing more happens; otherwise the index (IndexError
      past the end) is a branch hit of the transaction when its entry is a
      branch, and fully hit when it is a statement. */
  function Record(w: Walk, k: Key, ci: Option<nat>, entries: seq<CovEntry>): (r: Result<Walk>)
    requires k in w.eval && k in w.txHits
    ensures r.Failure? <==> ci.Some? && ci.value >= |entries|
    ensures r.Failure? ==> r.error == IndexError
    ensures r.Success? ==> r.value.loaded == w.loaded
    ensures r.Success? && ci.Some? && entries[ci.value].jump != 0 ==>
      r.value == w.(txHits := w.txHits[k := w.txHits[k] + {ci.value}])
    ensures r.Success? && ci.Some? && entries[ci.value].jump == 0 ==>
      r.value == w.(eval := w.eval[k := w.eval[k].(tx := w.eval[k].tx + {ci.value})])
    ensures ci.None? ==> r == Success(w)
  {
    if ci.None? then Success(w)
    else
      var idx := ci.value;
      if idx >= |entries| then Failure(IndexError)
      else if entries[idx].jump != 0 then Success(w.(txHits := w.txHits[k := w.txHits[k] + {idx}]))
      else Success(w.(eval := w.eval[k := w.eval[k].(tx := w.eval[k].tx + {idx})]))
  }

  /** A JUMPI step inside a function (coverage.py:54-63), `next` being the pc
      of the following step if there is one.  The branch entry is the first
      whose jump is this pc (StopIteration if none).  Unless its anchor was
      hit in this transaction and it is not yet fully hit, nothing changes;
      otherwise its direction (IndexError without a next step) is `false`
      when the next pc is `pc + 1` and `true` otherwise, and the entry joins
      that direction's set, or, when it was already seen the other way,
      leaves that set and is fully hit. */
  function Branch(w: Walk, k: Key, pc: int, next: Option<int>, entries: seq<CovEntry>): (r: Result<Walk>)
    requires k in w.eval && k in w.txHits
    ensures r.Success? ==> r.value.loaded == w.loaded && r.value.txHits == w.txHits
    ensures r.Success? ==> r.value.eval.Keys == w.eval.Keys
    ensures r.Success? ==> forall k' :: k' in w.eval && k' != k ==> r.value.eval[k'] == w.eval[k']
  {
    match FirstJump(entries, pc, 0)
    case None => Failure(StopIteration)
    case Some(idx) =>
      var h := w.eval[k];
      if idx !in w.txHits[k] || idx in h.tx then Success(w)
      else if next.None? then Failure(IndexError)
      else
        var taken := next.value != pc + 1;
        var seen := if taken then h.onTrue else h.onFalse;
        var other := if taken then h.onFalse else h.onTrue;
        if idx !in other then
          Success(w.(eval := w.eval[k := if taken then h.(onTrue := seen + {idx}) else h.(onFalse := seen + {idx})]))
        else
          var moved := if taken then h.(onFalse := other - {idx}) else h.(onTrue := other - {idx});
          Success(w.(eval := w.eval[k := moved.(tx := h.tx + {idx})]))
  }

  /** One trace step (coverage.py:22-63).  Steps without a contract name or
      file change nothing; otherwise the contract is loaded (KeyError if the
      build lacks it), its pc map entry and that entry's function read
      (KeyError if either is missing) and an empty function name changes
      nothing more.  The function's hits are
      created (KeyError if the file is not in the coverage map), and the step
      is recorded by `Record` or, for a JUMPI, by `Branch` (KeyError if the
      function is not in the coverage map). */
  function TraceStep(builds: map<string, Contract>, w: Walk, trace: seq<Step>, i: nat): (r: Result<Walk>)
    requires i < |trace|
  {
    var t := trace[i];
    if t.contractName == "" || t.filename == "" then Success(w)
    else if t.contractName !in builds then Failure(KeyError)
    else
      var c := builds[t.contractName];
      var w1 := w.(loaded := w.loaded + {t.contractName});
      if t.pc !in c.pcMap then Failure(KeyError)
      else
        var fn := c.pcMap[t.pc].fn;
        if fn.None? then Failure(KeyError)
        else if fn.value == "" then Success(w1)
        else if t.filename !in c.coverageMap then Failure(KeyError)
        else
          var k := (t.contractName, t.filename, fn.value);
          var w2 := Opened(w1, k);
          if t.op != "JUMPI" && c.pcMap[t.pc].coverageIndex.None? then Success(w2)
          else if fn.value !in c.coverageMap[t.filename] then Failure(KeyError)
          else
            var entries := c.coverageMap[t.filename][fn.value];
            if t.op != "JUMPI" then Record(w2, k, c.pcMap[t.pc].coverageIndex, entries)
            else Branch(w2, k, t.pc, if i + 1 < |trace| then Some(trace[i + 1].pc) else None, entries)
  }

  /** The walk after the first `n` steps of a trace. */
  function Trace(builds: map<string, Contract>, w: Walk, trace: seq<Step>, n: nat): Result<Walk>
    requires n <= |trace|
  {
    if n == 0 then Success(w)
    else
      var before :- Trace(builds, w, trace, n - 1);
      TraceStep(builds, before, trace, n - 1)
  }

  /** The walk after the first `n` transactions: one without a receiver is
      skipped, and each other starts with no branch hits of its own
      (coverage.py:17-20). */
  function History(builds: map<string, Contract>, history: seq<Tx>, n: nat): Result<Walk>
    requires n <= |history|
  {
    if n == 0 then Success(Walk({}, map[], map[]))
    else
      var before :- History(builds, history, n - 1);
      var tx := history[n - 1];
      if !tx.receiver then Success(before)
      else Trace(builds, before.(txHits := map[]), tx.trace, |tx.trace|)
  }

  // ---------------------------------------------------------------------
  // The invariant the walk keeps
  // ---------------------------------------------------------------------

  /** Every function's three sets are pairwise disjoint, the one-way sets and
      the transaction's branch hits hold only branch entries, and every
      loaded contract is in the build. */
  ghost predicate Consistent(builds: map<string, Contract>, w: Walk) {
    && w.loaded <= builds.Keys
    && (forall k :: k in w.eval ==>
          && w.eval[k].tx !! w.eval[k].onTrue
          && w.eval[k].tx !! w.eval[k].onFalse
          && w.eval[k].onTrue !! w.eval[k].onFalse)
    && (forall k, idx :: k in w.eval && idx in w.eval[k].onTrue ==> IsBranch(builds, k, idx))
    && (forall k, idx :: k in w.eval && idx in w.eval[k].onFalse ==> IsBranch(builds, k, idx))
    && (forall k, idx :: k in w.txHits && idx in w.txHits[k] ==> IsBranch(builds, k, idx))
  }

  lemma {:induction false} OpenedConsistent(builds: map<string, Contract>, w: Walk, k: Key)
    requires Consistent(builds, w)
    ensures Consistent(builds, Opened(w, k))
  {
  }

  lemma {:induction false} RecordConsistent(builds: map<string, Contract>, w: Walk, k: Key, ci: Option<nat>)
    requires Consistent(builds, w) && k in w.eval && k in w.txHits && HasEntries(builds, k)
    requires Record(w, k, ci, EntriesOf(builds, k)).Success?
    ensures Consistent(builds, Record(w, k, ci, EntriesOf(builds, k)).value)
  {
    var r := Record(w, k, ci, EntriesOf(builds, k)).value;
    if ci.Some? && EntriesOf(builds, k)[ci.value].jump == 0 {
      assert ci.value !in w.eval[k].onTrue && ci.value !in w.eval[k].onFalse;
      assert forall k' :: k' in r.eval && k' != k ==> r.eval[k'] == w.eval[k'];
    }
  }

  lemma {:induction false} BranchConsistent(builds: map<string, Contract>, w: Walk, k: Key, pc: int, next: Option<int>)
    requires Consistent(builds, w) && k in w.eval && k in w.txHits && HasEntries(builds, k)
    requires Branch(w, k, pc, next, EntriesOf(builds, k)).Success?
    ensures Consistent(builds, Branch(w, k, pc, next, EntriesOf(builds, k)).value)
  {
    var r := Branch(w, k, pc, next, EntriesOf(builds, k)).value;
    var idx := FirstJump(EntriesOf(builds, k), pc, 0).value;
    if idx in w.txHits[k] && idx !in w.eval[k].tx {
      assert IsBranch(builds, k, idx);
      var h := w.eval[k];
      var h' := r.eval[k];
      assert h'.tx !! h'.onTrue && h'.tx !! h'.onFalse && h'.onTrue !! h'.onFalse;
      assert forall i :: i in h'.onTrue ==> i in h.onTrue || i == idx;
      assert forall i :: i in h'.onFalse ==> i in h.onFalse || i == idx;
    }
  }

  /** One trace step keeps the walk consistent. */
  lemma {:induction false} TraceStepConsistent(builds: map<string, Contract>, w: Walk, trace: seq<Step>, i: nat)
    requires i < |trace| && Consistent(builds, w)
    requires TraceStep(builds, w, trace, i).Success?
    ensures Consistent(builds, TraceStep(builds, w, trace, i).value)
  {
    var t := trace[i];
    if t.contractName != "" && t.filename != "" {
      var c := builds[t.contractName];
      var fn := c.pcMap[t.pc].fn;
      var w1 := w.(loaded := w.loaded + {t.contractName});
      assert Consistent(builds, w1);
      if fn.value != "" {
        var k := (t.contractName, t.filename, fn.value);
        var w2 := Opened(w1, k);
        OpenedConsistent(builds, w1, k);
        if t.op != "JUMPI" && c.pcMap[t.pc].coverageIndex.None? {
        } else if t.op != "JUMPI" {
          RecordConsistent(builds, w2, k, c.pcMap[t.pc].coverageIndex);
        } else {
          BranchConsistent(builds, w2, k, t.pc, if i + 1 < |trace| then Some(trace[i + 1].pc) else None);
        }
      }
    }
  }

  lemma {:induction false} TraceConsistent(builds: map<string, Contract>, w: Walk, trace: seq<Step>, n: nat)
    requires n <= |trace| && Consistent(builds, w)
    requires Trace(builds, w, trace, n).Success?
    ensures Consistent(builds, Trace(builds, w, trace, n).value)
  {
    if n > 0 {
      TraceConsistent(builds, w, trace, n - 1);
      TraceStepConsistent(builds, Trace(builds, w, trace, n - 1).value, trace, n - 1);
    }
  }

  /** After any history, every function's `tx`, `true` and `false` sets are
      pairwise disjoint and the one-way sets hold only branch entries
      (coverage.py:59-63). */
  lemma {:induction false} HistoryConsistent(builds: map<string, Contract>, history: seq<Tx>, n: nat)
    requires n <= |history| && History(builds, history, n).Success?
    ensures Consistent(builds, History(builds, history, n).value)
  {
    if n > 0 {
      HistoryConsistent(builds, history, n - 1);
      var before := History(builds, history, n - 1).value;
      var tx := history[n - 1];
      if tx.receiver {
        TraceConsistent(builds, before.(txHits := map[]), tx.trace, |tx.trace|);
      }
    }
  }

  // ---------------------------------------------------------------------
  // Hits are never lost
  // ---------------------------------------------------------------------

  /** Every function traced in `w` is still traced in `w'`, its fully hit
      entries are still fully hit, and every entry hit one way or fully is
      still hit. */
  ghost predicate Grows(w: Walk, w': Walk) {
    && w.loaded <= w'.loaded
    && w.eval.Keys <= w'.eval.Keys
    && (forall k :: k in w.eval ==> w.eval[k].tx <= w'.eval[k].tx)
    && (forall k :: k in w.eval ==>
          w.eval[k].tx + w.eval[k].onTrue + w.eval[k].onFalse
          <= w'.eval[k].tx + w'.eval[k].onTrue + w'.eval[k].onFalse)
  }

  lemma {:induction false} GrowsTransitive(a: Walk, b: Walk, c: Walk)
    requires Grows(a, b) && Grows(b, c)
    ensures Grows(a, c)
  {
  }

  lemma {:induction false} RecordGrows(w: Walk, k: Key, ci: Option<nat>, entries: seq<CovEntry>)
    requires k in w.eval && k in w.txHits && Record(w, k, ci, entries).Success?
    ensures Grows(w, Record(w, k, ci, entries).value)
  {
  }

  lemma {:induction false} BranchGrows(w: Walk, k: Key, pc: int, next: Option<int>, entries: seq<CovEntry>)
    requires k in w.eval && k in w.txHits && Branch(w, k, pc, next, entries).Success?
    ensures Grows(w, Branch(w, k, pc, next, entries).value)
  {
    var r := Branch(w, k, pc, next, entries).value;
    assert w.eval[k].tx <= r.eval[k].tx;
  }

  lemma {:induction false} TraceStepGrows(builds: map<string, Contract>, w: Walk, trace: seq<Step>, i: nat)
    requires i < |trace| && TraceStep(builds, w, trace, i).Success?
    ensures Grows(w, TraceStep(builds, w, trace, i).value)
  {
    var t := trace[i];
    if t.contractName != "" && t.filename != "" {
      var c := builds[t.contractName];
      var fn := c.pcMap[t.pc].fn;
      var w1 := w.(loaded := w.loaded + {t.contractName});
      assert Grows(w, w1);
      if fn.value != "" {
        var k := (t.contractName, t.filename, fn.value);
        var w2 := Opened(w1, k);
        assert Grows(w1, w2);
        GrowsTransitive(w, w1, w2);
        if t.op != "JUMPI" && c.pcMap[t.pc].coverageIndex.None? {
        } else if t.op != "JUMPI" {
          var entries := c.coverageMap[t.filename][fn.value];
          RecordGrows(w2, k, c.pcMap[t.pc].coverageIndex, entries);
          GrowsTransitive(w, w2, Record(w2, k, c.pcMap[t.pc].coverageIndex, entries).value);
        } else {
          var entries := c.coverageMap[t.filename][fn.value];
          var next := if i + 1 < |trace| then Some(trace[i + 1].pc) else None;
          BranchGrows(w2, k, t.pc, next, entries);
          GrowsTransitive(w, w2, Branch(w2, k, t.pc, next, entries).value);
        }
      }
    }
  }

  lemma {:induction false} TraceGrows(builds: map<string, Contract>, w: Walk, trace: seq<Step>, n: nat)
    requires n <= |trace| && Trace(builds, w, trace, n).Success?
    ensures Grows(w, Trace(builds, w, trace, n).value)
  {
    if n > 0 {
      TraceGrows(builds, w, trace, n - 1);
      var before := Trace(builds, w, trace, n - 1).value;
      TraceStepGrows(builds, before, trace, n - 1);
      GrowsTransitive(w, before, TraceStep(builds, before, trace, n - 1).value);
    }
  }

  /** A later transaction never loses a hit recorded by an earlier one
      (coverage.py:17-63 only add to `tx`, and move an entry from one
      direction only into `tx`). */
  lemma {:induction false} HistoryGrows(builds: map<string, Contract>, history: seq<Tx>, m: nat, n: nat)
    requires m <= n <= |history| && History(builds, history, n).Success?
    ensures History(builds, history, m).Success?
    ensures Grows(History(builds, history, m).value, History(builds, history, n).value)
    decreases n
  {
    if m < n {
      HistoryGrows(builds, history, m, n - 1);
      var before := History(builds, history, n - 1).value;
      var tx := history[n - 1];
      if tx.receiver {
        var start := before.(txHits := map[]);
        TraceGrows(builds, start, tx.trace, |tx.trace|);
        assert Grows(before, start);
        GrowsTransitive(before, start, History(builds, history, n).value);
      }
      GrowsTransitive(History(builds, history, m).value, before, History(builds, history, n).value);
    }
  }

  /** A failure ends the trace. */
  lemma {:induction false} TraceSticks(builds: map<string, Contract>, w: Walk, trace: seq<Step>, n: nat, m: nat)
    requires n <= m <= |trace| && Trace(builds, w, trace, n).Failure?
    ensures Trace(builds, w, trace, m) == Trace(builds, w, trace, n)
    decreases m
  {
    if n < m {
      TraceSticks(builds, w, trace, n, m - 1);
    }
  }

  /** A failure ends the analysis. */
  lemma {:induction false} HistorySticks(builds: map<string, Contract>, history: seq<Tx>, n: nat, m: nat)
    requires n <= m <= |history| && History(builds, history, n).Failure?
    ensures History(builds, history, m) == History(builds, history, n)
    decreases m
  {
    if n < m {
      HistorySticks(builds, history, n, m - 1);
    }
  }

  // ---------------------------------------------------------------------
  // Percentages (coverage.py:66-84)
  // ---------------------------------------------------------------------

  /** A function's evaluation: never reached (`{'pct': 0}`), fully covered
      (`{'pct': 1}`), partly covered with its hits and `count / total`, or
      traced but absent from the coverage map and so never scored. */
  datatype Outcome =
    | Unreached
    | Complete
    | Partial(hits: Hits, count: nat, total: nat)
    | Traced(hits: Hits)

  /** What entry `idx` contributes: a fully hit branch 2, a fully hit
      statement 1, a branch seen one way 1, anything else 0. */
  function Credit(entries: seq<CovEntry>, h: Hits, idx: nat): nat
    requires idx < |entries|
  {
    if idx in h.tx then (if entries[idx].jump != 0 then 2 else 1)
    else if entries[idx].jump == 0 then 0
    else if idx in h.onTrue || idx in h.onFalse then 1
    else 0
  }

  /** `count` after the first `n` entries (coverage.py:75-83). */
  function Count(entries: seq<CovEntry>, h: Hits, n: nat): nat
    requires n <= |entries|
  {
    if n == 0 then 0 else Count(entries, h, n - 1) + Credit(entries, h, n - 1)
  }

  /** `round(count / total, 4) == 1`, i.e. `count / total` is at least
      0.99995. */
  predicate Rounds(count: nat, total: nat) {
    20000 * count >= 19999 * total
  }

  /** The score of a traced function: ZeroDivisionError when its list of
      entries is empty, otherwise `Complete` when the rounded ratio is 1. */
  function Score(entries: seq<CovEntry>, h: Hits): Result<Outcome> {
    var total := Weight(entries);
    if total == 0 then Failure(ZeroDivisionError)
    else
      var count := Count(entries, h, |entries|);
      if Rounds(count, total) then Success(Complete) else Success(Partial(h, count, total))
  }

  /** The functions of the coverage maps of the loaded contracts. */
  function Mapped(builds: map<string, Contract>, loaded: set<string>): (r: set<Key>)
    ensures forall k :: k in r <==> k.0 in loaded && HasEntries(builds, k)
  {
    set c, p, f | c in loaded && c in builds && p in builds[c].coverageMap && f in builds[c].coverageMap[p] :: (c, p, f)
  }

  /** The evaluation of one function after the walk. */
  function KeyOutcome(builds: map<string, Contract>, w: Walk, k: Key): Result<Outcome>
    requires k in w.eval || k in Mapped(builds, w.loaded)
  {
    if k !in Mapped(builds, w.loaded) then Success(Traced(w.eval[k]))
    else if k !in w.eval then Success(Unreached)
    else Score(EntriesOf(builds, k), w.eval[k])
  }

  /** The scored evaluation (coverage.py:66-84). */
  function Scored(builds: map<string, Contract>, w: Walk): Result<map<Key, Outcome>> {
    var keys := Mapped(builds, w.loaded) + w.eval.Keys;
    if exists k :: k in keys && KeyOutcome(builds, w, k).Failure? then Failure(ZeroDivisionError)
    else Success(map k | k in keys :: KeyOutcome(builds, w, k).value)
  }

  /** `analyze_coverage(history)` (coverage.py:12-85). */
  function Analyze(builds: map<string, Contract>, history: seq<Tx>): Result<map<Key, Outcome>> {
    var w :- History(builds, history, |history|);
    Scored(builds, w)
  }

  /** Each entry gives at most its weight, and exactly its weight just when
      it is fully hit (given that a statement is never hit one way only). */
  lemma {:induction false} CreditBound(entries: seq<CovEntry>, h: Hits, idx: nat)
    requires idx < |entries|
    ensures Credit(entries, h, idx) <= Weight(entries[..idx + 1]) - Weight(entries[..idx])
    ensures Credit(entries, h, idx) == Weight(entries[..idx + 1]) - Weight(entries[..idx]) <==> idx in h.tx
  {
    assert entries[..idx + 1][..idx] == entries[..idx];
  }

  /** The count never exceeds the total, and reaches it exactly when every
      entry is fully hit. */
  lemma {:induction false} CountBound(entries: seq<CovEntry>, h: Hits, n: nat)
    requires n <= |entries|
    ensures Count(entries, h, n) <= Weight(entries[..n])
    ensures Count(entries, h, n) == Weight(entries[..n]) <==> forall idx :: 0 <= idx < n ==> idx in h.tx
  {
    if n > 0 {
      CountBound(entries, h, n - 1);
      CreditBound(entries, h, n - 1);
    }
  }

  lemma {:induction false} WeightPositive(entries: seq<CovEntry>)
    ensures Weight(entries) >= |entries|
    decreases |entries|
  {
    if |entries| > 0 {
      WeightPositive(entries[..|entries| - 1]);
    }
  }

  /** A traced function is scored ZeroDivisionError exactly when its list of
      entries is empty; otherwise its count is at most its total, it is
      complete when every entry is fully hit, and, with fewer than 20000 as
      total (where rounding cannot reach 1 early), only then. */
  lemma {:induction false} ScoreMeaning(entries: seq<CovEntry>, h: Hits)
    ensures Score(entries, h).Failure? <==> |entries| == 0
    ensures Score(entries, h).Success? && Score(entries, h).value.Partial? ==>
      Score(entries, h).value.count < Score(entries, h).value.total == Weight(entries)
    ensures (|entries| > 0 && forall idx :: 0 <= idx < |entries| ==> idx in h.tx) ==> Score(entries, h) == Success(Complete)
    ensures Score(entries, h) == Success(Complete) && Weight(entries) < 20000 ==>
      forall idx :: 0 <= idx < |entries| ==> idx in h.tx
  {
    WeightPositive(entries);
    CountBound(entries, h, |entries|);
    assert entries[..|entries|] == entries;
  }

  // ---------------------------------------------------------------------
  // The procedure
  // ---------------------------------------------------------------------

  /** The count of one function, entry by entry (coverage.py:74-83). */
  method CountHits(entries: seq<CovEntry>, h: Hits) returns (count: nat)
    ensures count == Count(entries, h, |entries|)
  {
    count := 0;
    for idx := 0 to |entries|
      invariant count == Count(entries, h, idx)
    {
      if idx in h.tx {
        count := count + if entries[idx].jump != 0 then 2 else 1;
        continue;
      }
      if entries[idx].jump == 0 {
        continue;
      }
      if idx in h.onTrue || idx in h.onFalse {
        count := count + 1;
      }
    }
  }

  lemma {:induction false} ScoredFails(builds: map<string, Contract>, w: Walk, k: Key)
    requires k in Mapped(builds, w.loaded) && KeyOutcome(builds, w, k).Failure?
    ensures Scored(builds, w) == Failure(ZeroDivisionError)
  {
  }

  lemma {:induction false} ScoredSucceeds(builds: map<string, Contract>, w: Walk, out: map<Key, Outcome>)
    requires out.Keys == Mapped(builds, w.loaded) + w.eval.Keys
    requires forall k :: k in out ==> KeyOutcome(builds, w, k) == Success(out[k])
    ensures Scored(builds, w) == Success(out)
  {
    var keys := Mapped(builds, w.loaded) + w.eval.Keys;
    assert out == map k | k in keys :: KeyOutcome(builds, w, k).value;
  }

  /** The evaluation of one function of the coverage map: never reached
      when it was never traced, otherwise its count against its total
      (coverage.py:67-84). */
  method ScoreOne(builds: map<string, Contract>, w: Walk, k: Key) returns (r: Result<Outcome>)
    requires k in Mapped(builds, w.loaded)
    ensures r == KeyOutcome(builds, w, k)
  {
    if k !in w.eval {
      return Success(Unreached);
    }
    var entries := EntriesOf(builds, k);
    var total := Weight(entries);
    if total == 0 {
      return Failure(ZeroDivisionError);
    }
    var count := CountHits(entries, w.eval[k]);
    if Rounds(count, total) {
      r := Success(Complete);
    } else {
      r := Success(Partial(w.eval[k], count, total));
    }
  }

  /** `out` holds the evaluation of the functions in `done` and, for every
      other traced function, its hits. */
  ghost predicate ScoredSoFar(builds: map<string, Contract>, w: Walk, done: set<Key>, out: map<Key, Outcome>)
    requires done <= Mapped(builds, w.loaded)
  {
    && out.Keys == done + w.eval.Keys
    && forall k :: k in out ==>
         if k in done then KeyOutcome(builds, w, k) == Success(out[k]) else out[k] == Traced(w.eval[k])
  }

  lemma {:induction false} ScoredStep(builds: map<string, Contract>, w: Walk, done: set<Key>, out: map<Key, Outcome>, k: Key, o: Outcome)
    requires done <= Mapped(builds, w.loaded) && k in Mapped(builds, w.loaded) && k !in done
    requires ScoredSoFar(builds, w, done, out) && KeyOutcome(builds, w, k) == Success(o)
    ensures ScoredSoFar(builds, w, done + {k}, out[k := o])
  {
  }

  lemma {:induction false} ScoredAll(builds: map<string, Contract>, w: Walk, out: map<Key, Outcome>)
    requires ScoredSoFar(builds, w, Mapped(builds, w.loaded), out)
    ensures Scored(builds, w) == Success(out)
  {
    forall k | k in out
      ensures KeyOutcome(builds, w, k) == Success(out[k])
    {
    }
    ScoredSucceeds(builds, w, out);
  }

  /** Scores every function of the loaded contracts' coverage maps
      (coverage.py:66-84). */
  method ScoreAll(builds: map<string, Contract>, w: Walk) returns (r: Result<map<Key, Outcome>>)
    ensures r == Scored(builds, w)
  {
    var out: map<Key, Outcome> := map k | k in w.eval :: Traced(w.eval[k]);
    var todo := Mapped(builds, w.loaded);
    ghost var all := todo;
    ghost var done: set<Key> := {};
    while todo != {}
      invariant all == Mapped(builds, w.loaded)
      invariant todo + done == all && todo !! done
      invariant ScoredSoFar(builds, w, done, out)
      decreases todo
    {
      if forall k :: k !in todo {
        assert false;
      }
      var k :| k in todo;
      var o := ScoreOne(builds, w, k);
      if o.Failure? {
        ScoredFails(builds, w, k);
        return Failure(ZeroDivisionError);
      }
      ScoredStep(builds, w, done, out, k, o.value);
      out := out[k := o.value];
      todo := todo - {k};
      done := done + {k};
    }
    ScoredAll(builds, w, out);
    r := Success(out);
  }

  /** A non-JUMPI step with a coverage index (coverage.py:45-52). */
  method RecordStep(w: Walk, k: Key, ci: Option<nat>, entries: seq<CovEntry>) returns (r: Result<Walk>)
    requires k in w.eval && k in w.txHits
    ensures r == Record(w, k, ci, entries)
  {
    var eval, txHits := w.eval, w.txHits;
    if ci.None? {
      return Success(w);
    }
    var idx := ci.value;
    if idx >= |entries| {
      return Failure(IndexError);
    }
    if entries[idx].jump != 0 {
      txHits := txHits[k := txHits[k] + {idx}];
    } else {
      eval := eval[k := eval[k].(tx := eval[k].tx + {idx})];
    }
    r := Success(Walk(w.loaded, eval, txHits));
  }

  /** A JUMPI step (coverage.py:54-63). */
  method BranchStep(w: Walk, k: Key, pc: int, next: Option<int>, entries: seq<CovEntry>) returns (r: Result<Walk>)
    requires k in w.eval && k in w.txHits
    ensures r == Branch(w, k, pc, next, entries)
  {
    var eval := w.eval;
    var found := FirstJump(entries, pc, 0);
    if found.None? {
      return Failure(StopIteration);
    }
    var idx := found.value;
    var h := eval[k];
    if idx !in w.txHits[k] || idx in h.tx {
      return Success(w);
    }
    if next.None? {
      return Failure(IndexError);
    }
    if next.value != pc + 1 {
      if idx !in h.onFalse {
        eval := eval[k := h.(onTrue := h.onTrue + {idx})];
      } else {
        eval := eval[k := h.(onFalse := h.onFalse - {idx}, tx := h.tx + {idx})];
      }
    } else {
      if idx !in h.onTrue {
        eval := eval[k := h.(onFalse := h.onFalse + {idx})];
      } else {
        eval := eval[k := h.(onTrue := h.onTrue - {idx}, tx := h.tx + {idx})];
      }
    }
    r := Success(w.(eval := eval));
  }

  /** The walk over one transaction's trace (coverage.py:20-63), updating
      the evaluation in place; the transaction's own branch hits start empty. */
  method WalkTrace(builds: map<string, Contract>, loaded0: set<string>, eval0: map<Key, Hits>, trace: seq<Step>)
    returns (r: Result<Walk>)
    ensures r == Trace(builds, Walk(loaded0, eval0, map[]), trace, |trace|)
  {
    var loaded := loaded0;
    var eval := eval0;
    var txHits: map<Key, set<int>> := map[];
    ghost var start := Walk(loaded, eval, txHits);
    var i := 0;
    while i < |trace|
      invariant i <= |trace|
      invariant Trace(builds, start, trace, i) == Success(Walk(loaded, eval, txHits))
    {
      var stepped := WalkStep(builds, loaded, eval, txHits, trace, i);
      if stepped.Failure? {
        TraceSticks(builds, start, trace, i + 1, |trace|);
        return Failure(stepped.error);
      }
      loaded, eval, txHits := stepped.value.loaded, stepped.value.eval, stepped.value.txHits;
      i := i + 1;
    }
    r := Success(Walk(loaded, eval, txHits));
  }

  /** One pass of the trace loop (coverage.py:22-63): the contract's build
      is loaded, the function's hit sets are opened, and the step is
      recorded at its coverage index or, for a JUMPI, as a branch. */
  method WalkStep(builds: map<string, Contract>, loaded0: set<string>, eval0: map<Key, Hits>, txHits0: map<Key, set<int>>,
                  trace: seq<Step>, i: nat)
    returns (r: Result<Walk>)
    requires i < |trace|
    ensures r == TraceStep(builds, Walk(loaded0, eval0, txHits0), trace, i)
  {
    var loaded, eval, txHits := loaded0, eval0, txHits0;
    var t := trace[i];
    if t.contractName == "" || t.filename == "" {
      return Success(Walk(loaded, eval, txHits));
    }
    if t.contractName !in builds {
      return Failure(KeyError);
    }
    var c := builds[t.contractName];
    loaded := loaded + {t.contractName};
    if t.pc !in c.pcMap || c.pcMap[t.pc].fn.None? {
      return Failure(KeyError);
    }
    var entry := c.pcMap[t.pc];
    var fn := entry.fn.value;
    if fn == "" {
      return Success(Walk(loaded, eval, txHits));
    }
    if t.filename !in c.coverageMap {
      return Failure(KeyError);
    }
    var k := (t.contractName, t.filename, fn);
    if k !in eval {
      eval := eval[k := Hits({}, {}, {})];
    }
    if k !in txHits {
      txHits := txHits[k := {}];
    }
    if t.op != "JUMPI" && entry.coverageIndex.None? {
      return Success(Walk(loaded, eval, txHits));
    }
    if fn !in c.coverageMap[t.filename] {
      return Failure(KeyError);
    }
    var entries := c.coverageMap[t.filename][fn];
    var next := if i + 1 < |trace| then Some(trace[i + 1].pc) else None;
    if t.op != "JUMPI" {
      r := RecordStep(Walk(loaded, eval, txHits), k, entry.coverageIndex, entries);
    } else {
      r := BranchStep(Walk(loaded, eval, txHits), k, t.pc, next, entries);
    }
  }

  /** `analyze_coverage(history)` (coverage.py:12-85): walks every trace,
      updating the evaluation in place, then scores it. */
  method AnalyzeCoverage(builds: map<string, Contract>, history: seq<Tx>) returns (r: Result<map<Key, Outcome>>)
    ensures r == Analyze(builds, history)
  {
    var w := Walk({}, map[], map[]);
    for n := 0 to |history|
      invariant History(builds, history, n) == Success(w)
    {
      var tx := history[n];
      if !tx.receiver {
        continue;
      }
      var walked := WalkTrace(builds, w.loaded, w.eval, tx.trace);
      if walked.Failure? {
        HistorySticks(builds, history, n + 1, |history|);
        return Failure(walked.error);
      }
      w := walked.value;
    }
    r := ScoreAll(builds, w);
  }
}
