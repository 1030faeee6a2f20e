/** Network state bookkeeping (brownie/network/state.py): the transaction
    history with its gas profile, the undo/redo buffers of the chain, and the
    registry of deployed contracts.

    The RPC is not modelled: a snapshot id is whatever the RPC hands back, here
    the next value of a counter, and reverting to a snapshot hands back a new
    one in the same way. */
module ChainState {
  import opened Wrappers
  import opened Text

  // ---------------------------------------------------------------------
  // Transaction history (state.py:29-103)
  // ---------------------------------------------------------------------

  /** A transaction receipt as the history reads it; a contract deployment has
      no receiver. */
  datatype Receipt = Receipt(blockNumber: int, sender: string, receiver: Option<string>)

  /** The conditions the history filters on. */
  datatype Criterion =
    | MinedBy(height: int)
    | SentBy(account: string)
    | SentTo(account: string)
    | Involves(account: string)

  predicate Meets(c: Criterion, r: Receipt) {
    match c
    case MinedBy(height) => r.blockNumber <= height
    case SentBy(account) => r.sender == account
    case SentTo(account) => r.receiver == Some(account)
    case Involves(account) => r.receiver == Some(account) || r.sender == account
  }

  /** `[i for i in s if ...]`: exactly the receipts of `s` that meet the
      condition. */
  function Keep(s: seq<Receipt>, c: Criterion): (r: seq<Receipt>)
    ensures |r| <= |s|
    ensures forall x :: x in r <==> x in s && Meets(c, x)
    decreases |s|
  {
    if |s| == 0 then []
    else
      var init := Keep(s[..|s| - 1], c);
      assert forall x :: x in s <==> x in s[..|s| - 1] || x == s[|s| - 1] by {
        assert s == s[..|s| - 1] + [s[|s| - 1]];
      }
      init + (if Meets(c, s[|s| - 1]) then [s[|s| - 1]] else [])
  }

  /** Filtering one more receipt appends it when it meets the condition. */
  lemma {:induction false} KeepSnoc(s: seq<Receipt>, x: Receipt, c: Criterion)
    ensures Keep(s + [x], c) == Keep(s, c) + (if Meets(c, x) then [x] else [])
  {
    var t := s + [x];
    assert t[..|t| - 1] == s && t[|t| - 1] == x;
  }

  /** A non-empty `b` is its front and its last element. */
  lemma {:induction false} SplitLast<T>(a: seq<T>, b: seq<T>)
    requires |b| > 0
    ensures b == b[..|b| - 1] + [b[|b| - 1]]
    ensures a + b == (a + b[..|b| - 1]) + [b[|b| - 1]]
  {
    assert b == b[..|b| - 1] + [b[|b| - 1]];
  }

  /** Concatenation is associative. */
  lemma {:induction false} AppendAssoc<T>(p: seq<T>, q: seq<T>, r: seq<T>)
    ensures (p + q) + r == p + (q + r)
  {
    assert forall i :: 0 <= i < |p| + |q| + |r| ==> ((p + q) + r)[i] == (p + (q + r))[i];
  }

  /** Filtering keeps the order: filtering a concatenation concatenates the
      filtered parts. */
  lemma {:induction false} KeepAppend(a: seq<Receipt>, b: seq<Receipt>, c: Criterion)
    ensures Keep(a + b, c) == Keep(a, c) + Keep(b, c)
    decreases |b|
  {
    if |b| > 0 {
      var b', x := b[..|b| - 1], b[|b| - 1];
      SplitLast(a, b);
      KeepSnoc(a + b', x, c);
      KeepSnoc(b', x, c);
      KeepAppend(a, b', c);
      AppendAssoc(Keep(a, c), Keep(b', c), if Meets(c, x) then [x] else []);
    } else {
      assert a + b == a;
    }
  }

  /** A function's gas statistics. */
  datatype Gas = Gas(avg: nat, high: nat, low: nat, count: nat)

  /** One more call using `used` gas (state.py:87-103). */
  function GasStep(g: Option<Gas>, used: nat): Gas {
    match g
    case None => Gas(used, used, used, 1)
    case Some(g) =>
      Gas((g.avg * g.count + used) / (g.count + 1),
          if g.high < used then used else g.high,
          if g.low < used then g.low else used,
          g.count + 1)
  }

  /** The statistics after calls using `values` gas, in order. */
  function Profile(values: seq<nat>): Gas
    requires |values| > 0
    decreases |values|
  {
    if |values| == 1 then GasStep(None, values[0])
    else GasStep(Some(Profile(values[..|values| - 1])), values[|values| - 1])
  }

  function Sum(values: seq<nat>): nat
    decreases |values|
  {
    if |values| == 0 then 0 else Sum(values[..|values| - 1]) + values[|values| - 1]
  }

  lemma {:induction false} DivBetween(x: nat, d: nat, lo: nat, hi: nat)
    requires d > 0 && lo * d <= x <= hi * d
    ensures lo <= x / d <= hi && (x / d) * d <= x
  {
    var q := x / d;
    assert q * d <= x < (q + 1) * d;
  }

  lemma {:induction false} MulLe(a: nat, b: nat, c: nat)
    requires a <= b
    ensures a * c <= b * c
  {
  }

  /** One more call keeps `low <= avg <= high`, and the running mean times
      the count never exceeds the gas used in total. */
  lemma {:induction false} GasStepOrdered(g: Gas, used: nat)
    requires g.count >= 1 && g.low <= g.avg <= g.high
    ensures var p := GasStep(Some(g), used);
      && p.low <= p.avg <= p.high
      && p.avg * p.count <= g.avg * g.count + used
  {
    var lo := if g.low < used then g.low else used;
    var hi := if g.high < used then used else g.high;
    var c := g.count;
    var x := g.avg * c + used;
    MulLe(lo, g.avg, c);
    MulLe(g.avg, hi, c);
    MulSucc(lo, c);
    MulSucc(hi, c);
    assert lo * (c + 1) <= x <= hi * (c + 1);
    DivBetween(x, c + 1, lo, hi);
    assert GasStep(Some(g), used) == Gas(x / (c + 1), hi, lo, c + 1);
  }

  lemma {:induction false} MulSucc(a: nat, c: nat)
    ensures a * (c + 1) == a * c + a
  {
  }

  /** `count` is the number of calls, and `high` and `low` are the largest
      and smallest gas used. */
  lemma {:induction false} ProfileRange(values: seq<nat>)
    requires |values| > 0
    ensures Profile(values).count == |values|
    ensures forall i :: 0 <= i < |values| ==> Profile(values).low <= values[i] <= Profile(values).high
    ensures Profile(values).low in values && Profile(values).high in values
    decreases |values|
  {
    var n := |values|;
    if n > 1 {
      var init := values[..n - 1];
      ProfileRange(init);
      var g := Profile(init);
      var p := Profile(values);
      forall i | 0 <= i < n
        ensures p.low <= values[i] <= p.high
      {
        if i < n - 1 {
          assert values[i] == init[i];
        }
      }
      assert g.low in values && g.high in values by {
        assert values == init + [values[n - 1]];
      }
    }
  }

  /** `avg`, an integer running mean, lies between `low` and `high` and never
      exceeds the true mean. */
  lemma {:induction false} ProfileMean(values: seq<nat>)
    requires |values| > 0
    ensures Profile(values).count >= 1
    ensures Profile(values).low <= Profile(values).avg <= Profile(values).high
    ensures Profile(values).avg * Profile(values).count <= Sum(values)
    decreases |values|
  {
    if |values| > 1 {
      var init := values[..|values| - 1];
      ProfileMean(init);
      GasStepOrdered(Profile(init), values[|values| - 1]);
    }
  }

  /** The profile after one more call is that call folded into the profile
      before it. */
  lemma {:induction false} ProfileSnoc(seen: seq<nat>, used: nat)
    ensures Profile(seen + [used]) == GasStep(if |seen| == 0 then None else Some(Profile(seen)), used)
  {
    assert (seen + [used])[..|seen|] == seen;
  }

  /** `TxHistory`: the receipts of the session in order, and the gas profile
      of every function called. */
  class TxHistory {
    var list: seq<Receipt>
    var gasProfile: map<string, Gas>
    /** The gas used by every call recorded, per function. */
    ghost var gasUsed: map<string, seq<nat>>

    /** Every profile is the statistics of the calls recorded for it. */
    ghost predicate Valid()
      reads this
    {
      && gasProfile.Keys == gasUsed.Keys
      && forall name :: name in gasUsed ==> |gasUsed[name]| > 0 && gasProfile[name] == Profile(gasUsed[name])
    }

    constructor()
      ensures Valid() && list == [] && gasProfile == map[]
    {
      list := [];
      gasProfile := map[];
      gasUsed := map[];
    }

    /** `_revert(height)` (state.py:61-62): only the receipts mined at or
        below `height` remain, in order. */
    method Revert(height: int)
      modifies this
      ensures list == Keep(old(list), MinedBy(height))
      ensures gasProfile == old(gasProfile) && gasUsed == old(gasUsed)
    {
      list := Keep(list, MinedBy(height));
    }

    /** `_add_tx(tx)` (state.py:64-65). */
    method AddTx(tx: Receipt)
      modifies this
      ensures list == old(list) + [tx]
      ensures gasProfile == old(gasProfile) && gasUsed == old(gasUsed)
    {
      list := list + [tx];
    }

    /** `from_sender(account)` (state.py:74-76). */
    function FromSender(account: string): (r: seq<Receipt>)
      reads this
      ensures forall x :: x in r <==> x in list && x.sender == account
    {
      Keep(list, SentBy(account))
    }

    /** `to_receiver(account)` (state.py:78-80). */
    function ToReceiver(account: string): (r: seq<Receipt>)
      reads this
      ensures forall x :: x in r <==> x in list && x.receiver == Some(account)
    {
      Keep(list, SentTo(account))
    }

    /** `of_address(account)` (state.py:82-84). */
    function OfAddress(account: string): (r: seq<Receipt>)
      reads this
      ensures forall x :: x in r <==> x in list && (x.receiver == Some(account) || x.sender == account)
    {
      Keep(list, Involves(account))
    }

    /** `_gas(fn_name, gas_used)` (state.py:86-103): the first call sets every
        figure to the gas used, a later one folds it in. */
    method RecordGas(fnName: string, used: nat)
      requires Valid()
      modifies this
      ensures Valid()
      ensures gasUsed == old(gasUsed)[fnName := (if fnName in old(gasUsed) then old(gasUsed)[fnName] else []) + [used]]
      ensures gasProfile == old(gasProfile)[fnName := GasStep(if fnName in old(gasProfile) then Some(old(gasProfile)[fnName]) else None, used)]
      ensures list == old(list)
    {
      ghost var seen := if fnName in gasUsed then gasUsed[fnName] else [];
      ProfileSnoc(seen, used);
      gasUsed := gasUsed[fnName := seen + [used]];
      if fnName !in gasProfile {
        gasProfile := gasProfile[fnName := Gas(used, used, used, 1)];
        return;
      }
      var gas := gasProfile[fnName];
      gas := gas.(avg := (gas.avg * gas.count + used) / (gas.count + 1),
                  high := if gas.high < used then used else gas.high,
                  low := if gas.low < used then gas.low else used);
      gas := gas.(count := gas.count + 1);
      gasProfile := gasProfile[fnName := gas];
    }
  }

  /** The figures `_gas` keeps stay ordered: after any calls, `low <= avg <=
      high` for every function. */
  lemma {:induction false} ProfileOrdered(h: TxHistory, name: string)
    requires h.Valid() && name in h.gasProfile
    ensures h.gasProfile[name].low <= h.gasProfile[name].avg <= h.gasProfile[name].high
    ensures h.gasProfile[name].count >= 1
  {
    ProfileMean(h.gasUsed[name]);
  }

  // ---------------------------------------------------------------------
  // Undo and redo (state.py:189-347)
  // ---------------------------------------------------------------------

  /** A call that can be replayed: the function and its arguments. */
  datatype Call = Call(fn: string, args: seq<string>, kwargs: map<string, string>)

  /** An undo entry: the snapshot taken before the call, and the call. */
  type Entry = (Option<nat>, Call)

  function Calls(u: seq<Entry>): (r: seq<Call>)
    ensures |r| == |u|
    ensures forall i :: 0 <= i < |u| ==> r[i] == u[i].1
  {
    seq(|u|, i requires 0 <= i < |u| => u[i].1)
  }

  function Reversed<T>(s: seq<T>): (r: seq<T>)
    ensures |r| == |s|
    ensures forall i :: 0 <= i < |s| ==> r[i] == s[|s| - 1 - i]
  {
    seq(|s|, i requires 0 <= i < |s| => s[|s| - 1 - i])
  }

  lemma {:induction false} ReversedTwice<T>(s: seq<T>)
    ensures Reversed(Reversed(s)) == s
  {
  }

  /** The entries a replay of `calls` appends to the undo buffer: each is
      recorded with the snapshot current before it, the first with `current`
      and the others with the snapshots taken in turn from `next` on. */
  function Replayed(current: Option<nat>, next: nat, calls: seq<Call>): (r: seq<Entry>)
    ensures Calls(r) == calls
  {
    seq(|calls|, i requires 0 <= i < |calls| => (if i == 0 then current else Some(next + i - 1), calls[i]))
  }

  /** Undo then the corrected redo (`Chain.Redo`) of the same number of
      calls restores the calls of the undo buffer and the redo buffer. */
  lemma {:induction false} UndoRedoRoundTrip(u: seq<Entry>, r: seq<Call>, n: nat, current: Option<nat>, next: nat)
    requires 1 <= n <= |u|
    ensures var u1 := u[..|u| - n];
            var r1 := r + Reversed(Calls(u[|u| - n..]));
            && |r1| >= n
            && r1[..|r1| - n] == r
            && Calls(u1 + Replayed(current, next, Reversed(r1[|r1| - n..]))) == Calls(u)
  {
    var u1 := u[..|u| - n];
    var r1 := r + Reversed(Calls(u[|u| - n..]));
    assert r1[|r1| - n..] == Reversed(Calls(u[|u| - n..]));
    ReversedTwice(Calls(u[|u| - n..]));
    var back := u1 + Replayed(current, next, Reversed(r1[|r1| - n..]));
    assert Calls(back) == Calls(u1) + Calls(u[|u| - n..]);
    assert Calls(u) == Calls(u1) + Calls(u[|u| - n..]) by {
      assert u == u1 + u[|u| - n..];
    }
  }

  /** One pass of the undo loop: the top entry left is the next call moved,
      and the buffer without it is one entry shorter. */
  lemma {:induction false} UndoStep(u: seq<Entry>, num: nat, i: nat)
    requires 0 < i <= num <= |u|
    ensures var left := u[..|u| - num + i];
      var moved := Reversed(Calls(u[|u| - num..]));
      && left[|left| - 1].1 == moved[num - i]
      && left[..|left| - 1] == u[..|u| - num + i - 1]
      && moved[..num - i + 1] == moved[..num - i] + [moved[num - i]]
  {
    var moved := Reversed(Calls(u[|u| - num..]));
    assert moved[num - i] == Calls(u[|u| - num..])[i - 1];
  }

  /** Replaying one more call records it under the id it runs at. */
  lemma {:induction false} ReplayedSnoc(current: Option<nat>, next: nat, calls: seq<Call>, call: Call)
    ensures Replayed(current, next, calls + [call])
      == Replayed(current, next, calls) + [(if |calls| == 0 then current else Some(next + |calls| - 1), call)]
  {
    var a, b := Replayed(current, next, calls + [call]), Replayed(current, next, calls);
    assert forall i :: 0 <= i < |b| ==> a[i] == b[i];
  }

  /** One pass of `redo`'s loop: the top of the redo buffer is the next call
      to replay, and replaying it extends the replayed entries by one. */
  lemma {:induction false} RedoStep(rb: seq<Call>, num: nat, i: nat, current: Option<nat>, next: nat)
    requires 0 < i <= num <= |rb|
    ensures var left := rb[..|rb| - num + i];
      var replay := Reversed(rb[|rb| - num..]);
      && left[|left| - 1] == replay[num - i]
      && left[..|left| - 1] == rb[..|rb| - num + i - 1]
      && Replayed(current, next, replay[..num - i + 1])
         == Replayed(current, next, replay[..num - i]) + [(if num - i == 0 then current else Some(next + num - i - 1), replay[num - i])]
  {
    var replay := Reversed(rb[|rb| - num..]);
    assert replay[num - i] == rb[|rb| - num..][i - 1];
    assert replay[..num - i + 1] == replay[..num - i] + [replay[num - i]];
    ReplayedSnoc(current, next, replay[..num - i], replay[num - i]);
  }

  /** The calls `redo(num)` makes as written: the top of the redo buffer,
      `num` times. */
  function Repeated(call: Call, n: nat): (r: seq<Call>)
    ensures |r| == n
    ensures forall i :: 0 <= i < n ==> r[i] == call
  {
    seq(n, i => call)
  }

  /** The redo buffer once `calls` are recorded one after the other by
      `_add_to_undo_buffer` (state.py:193-196): a call equal to the top pops
      it, any other call empties the buffer. */
  function RecordedRedo(rb: seq<Call>, calls: seq<Call>): (r: seq<Call>)
    ensures |r| <= |rb|
    decreases |calls|
  {
    if |calls| == 0 then rb
    else RecordedRedo(if |rb| > 0 && rb[|rb| - 1] == calls[0] then rb[..|rb| - 1] else [], calls[1..])
  }

  /** Recording the undone calls in the order `Redo` replays them pops them
      off the redo buffer one by one. */
  lemma {:induction false} RecordedReplayPops(rb: seq<Call>, num: nat)
    requires num <= |rb|
    ensures RecordedRedo(rb, Reversed(rb[|rb| - num..])) == rb[..|rb| - num]
    decreases num
  {
    if num > 0 {
      var calls := Reversed(rb[|rb| - num..]);
      var rest := rb[..|rb| - 1];
      assert calls[0] == rb[|rb| - 1];
      assert calls[1..] == Reversed(rest[|rest| - (num - 1)..]);
      RecordedReplayPops(rest, num - 1);
      assert rest[..|rest| - (num - 1)] == rb[..|rb| - num];
    }
  }

  /** As written, `redo(num)` with two different calls on top of the redo
      buffer calls the top one twice where `Redo` replays the top two: the
      undo buffer gets the wrong calls. */
  lemma {:induction false} RedoAsWrittenDiffers(rb: seq<Call>, num: nat)
    requires 2 <= num <= |rb| && rb[|rb| - 1] != rb[|rb| - 2]
    ensures Repeated(rb[|rb| - 1], num)[1] != Reversed(rb[|rb| - num..])[1]
    ensures Repeated(rb[|rb| - 1], num) != Reversed(rb[|rb| - num..])
  {
    assert Reversed(rb[|rb| - num..])[1] == rb[|rb| - num..][num - 2];
  }

  /** With `a, b, c` on the redo buffer (`c` on top, `b != c`), `redo(2)` as
      written calls `c` twice; recording those calls empties the redo
      buffer, where the corrected replay of `c` then `b` leaves `[a]`. */
  lemma {:induction false} RedoAsWrittenLosesBuffer(a: Call, b: Call, c: Call)
    requires b != c
    ensures Repeated(c, 2) == [c, c]
    ensures RecordedRedo([a, b, c], Repeated(c, 2)) == []
    ensures Reversed([a, b, c][1..]) == [c, b]
    ensures RecordedRedo([a, b, c], Reversed([a, b, c][1..])) == [a]
  {
    assert Repeated(c, 2) == [c, c];
    assert [a, b, c][..2] == [a, b];
    assert [a, b][..1] == [a];
    assert RecordedRedo([a, b], [c]) == RecordedRedo([], []);
    assert RecordedRedo([a, b, c], [c, c]) == RecordedRedo([a, b], [c]);
    assert Reversed([a, b, c][1..]) == [c, b];
    assert RecordedRedo([a, b, c], [c, b]) == RecordedRedo([a, b], [b]);
    assert RecordedRedo([a, b], [b]) == RecordedRedo([a], []);
  }

  /** `Chain`: the undo and redo buffers and the snapshot ids of the test
      RPC. */
  class Chain {
    var undoBuffer: seq<Entry>
    var redoBuffer: seq<Call>
    var snapshotId: Option<nat>
    var resetId: Option<nat>
    var currentId: Option<nat>
    var timeOffset: int
    /** The id the RPC hands out for the next snapshot. */
    var nextId: nat

    constructor()
      ensures undoBuffer == [] && redoBuffer == []
      ensures snapshotId.None? && resetId.None? && currentId.None? && timeOffset == 0 && nextId == 0
    {
      undoBuffer := [];
      redoBuffer := [];
      snapshotId := None;
      resetId := None;
      currentId := None;
      timeOffset := 0;
      nextId := 0;
    }

    /** `_snap()`: a new snapshot of the RPC. */
    method Snap() returns (id: nat)
      modifies this
      ensures id == old(nextId) && nextId == old(nextId) + 1
      ensures undoBuffer == old(undoBuffer) && redoBuffer == old(redoBuffer)
      ensures snapshotId == old(snapshotId) && resetId == old(resetId) && currentId == old(currentId)
      ensures timeOffset == old(timeOffset)
    {
      id := nextId;
      nextId := nextId + 1;
    }

    /** `_add_to_undo_buffer` (state.py:189-197): the call is recorded with
        the current snapshot; the redo buffer loses its top when the call
        replays it, and is emptied otherwise. */
    method AddToUndoBuffer(call: Call)
      modifies this
      ensures undoBuffer == old(undoBuffer) + [(old(currentId), call)]
      ensures redoBuffer == if |old(redoBuffer)| > 0 && old(redoBuffer)[|old(redoBuffer)| - 1] == call
        then old(redoBuffer)[..|old(redoBuffer)| - 1] else []
      ensures currentId == Some(old(nextId)) && nextId == old(nextId) + 1
      ensures snapshotId == old(snapshotId) && resetId == old(resetId) && timeOffset == old(timeOffset)
    {
      undoBuffer := undoBuffer + [(currentId, call)];
      if |redoBuffer| > 0 && redoBuffer[|redoBuffer| - 1] == call {
        redoBuffer := redoBuffer[..|redoBuffer| - 1];
      } else {
        redoBuffer := [];
      }
      var id := Snap();
      currentId := Some(id);
    }

    /** `undo(num)` (state.py:199-226): ValueError unless `1 <= num <=` the
        buffer's length; otherwise the top `num` entries move, latest first,
        to the redo buffer, and the chain goes back to the snapshot taken
        before the earliest of them. */
    method Undo(num: int) returns (r: Result<()>)
      modifies this
      ensures r.Failure? <==> num < 1 || |old(undoBuffer)| == 0 || num > |old(undoBuffer)|
      ensures r.Failure? ==> r.error == ValueError && undoBuffer == old(undoBuffer) && redoBuffer == old(redoBuffer)
      ensures r.Failure? ==> currentId == old(currentId) && nextId == old(nextId)
      ensures r.Success? ==>
        && undoBuffer == old(undoBuffer)[..|old(undoBuffer)| - num]
        && redoBuffer == old(redoBuffer) + Reversed(Calls(old(undoBuffer)[|old(undoBuffer)| - num..]))
        && currentId == Some(old(nextId)) && nextId == old(nextId) + 1
      ensures snapshotId == old(snapshotId) && resetId == old(resetId) && timeOffset == old(timeOffset)
    {
      if num < 1 || |undoBuffer| == 0 || num > |undoBuffer| {
        return Failure(ValueError);
      }
      ghost var u := undoBuffer;
      ghost var moved := Reversed(Calls(u[|u| - num..]));
      var i := num;
      while i > 0
        invariant 0 <= i <= num
        invariant undoBuffer == u[..|u| - num + i]
        invariant redoBuffer == old(redoBuffer) + moved[..num - i]
        invariant currentId == old(currentId) && nextId == old(nextId)
        invariant snapshotId == old(snapshotId) && resetId == old(resetId) && timeOffset == old(timeOffset)
      {
        UndoStep(u, num, i);
        var entry := undoBuffer[|undoBuffer| - 1];
        undoBuffer := undoBuffer[..|undoBuffer| - 1];
        redoBuffer := redoBuffer + [entry.1];
        i := i - 1;
      }
      assert moved[..num] == moved;
      var id := Snap();
      currentId := Some(id);
      r := Success(());
    }

    /** `redo(num)` as written (state.py:242-254): ValueError unless `1 <=
        num <=` the buffer's length; otherwise `_redo_buffer[-1]` is called
        `num` times while `_undo_lock` is held. `_add_to_undo_buffer` takes
        the same lock (state.py:190), so no call is recorded and the top
        stays the same during the loop: the answer is the calls made, and
        nothing changes until the lock is released. */
    method RedoAsWritten(num: int) returns (r: Result<seq<Call>>)
      ensures r.Failure? <==> num < 1 || |redoBuffer| == 0 || num > |redoBuffer|
      ensures r.Failure? ==> r.error == ValueError
      ensures r.Success? ==> 1 <= num <= |redoBuffer| && r.value == Repeated(redoBuffer[|redoBuffer| - 1], num)
    {
      if num < 1 || |redoBuffer| == 0 || num > |redoBuffer| {
        return Failure(ValueError);
      }
      var made: seq<Call> := [];
      for i := 0 to num
        invariant made == Repeated(redoBuffer[|redoBuffer| - 1], i)
      {
        var call := redoBuffer[|redoBuffer| - 1];
        made := made + [call];
      }
      r := Success(made);
    }

    /** `redo(num)` as evidently intended (state.py:228-254): ValueError
        unless `1 <= num <=` the buffer's length; otherwise the top `num`
        calls of the redo buffer are replayed, latest first, and each replay
        records itself through `_add_to_undo_buffer`, which takes it off the
        redo buffer. */
    method Redo(num: int) returns (r: Result<()>)
      modifies this
      ensures r.Failure? <==> num < 1 || |old(redoBuffer)| == 0 || num > |old(redoBuffer)|
      ensures r.Failure? ==> r.error == ValueError && undoBuffer == old(undoBuffer) && redoBuffer == old(redoBuffer)
      ensures r.Failure? ==> currentId == old(currentId) && nextId == old(nextId)
      ensures r.Success? ==>
        && redoBuffer == old(redoBuffer)[..|old(redoBuffer)| - num]
        && undoBuffer == old(undoBuffer)
             + Replayed(old(currentId), old(nextId), Reversed(old(redoBuffer)[|old(redoBuffer)| - num..]))
        && currentId == Some(old(nextId) + num - 1) && nextId == old(nextId) + num
      ensures snapshotId == old(snapshotId) && resetId == old(resetId) && timeOffset == old(timeOffset)
    {
      if num < 1 || |redoBuffer| == 0 || num > |redoBuffer| {
        return Failure(ValueError);
      }
      ghost var rb := redoBuffer;
      ghost var replay := Reversed(rb[|rb| - num..]);
      ghost var cur := currentId;
      ghost var next := nextId;
      var i := num;
      while i > 0
        invariant 0 <= i <= num
        invariant redoBuffer == rb[..|rb| - num + i]
        invariant undoBuffer == old(undoBuffer) + Replayed(cur, next, replay[..num - i])
        invariant i < num ==> currentId == Some(next + num - i - 1)
        invariant i == num ==> currentId == cur
        invariant nextId == next + num - i
        invariant snapshotId == old(snapshotId) && resetId == old(resetId) && timeOffset == old(timeOffset)
      {
        RedoStep(rb, num, i, cur, next);
        var call := redoBuffer[|redoBuffer| - 1];
        AddToUndoBuffer(call);
        i := i - 1;
      }
      assert replay[..num] == replay;
      r := Success(());
    }

    /** `sleep(seconds)` (state.py:260-275): the RPC answers with the new
        time offset; a non-zero sleep empties the redo buffer and takes a new
        snapshot. */
    method Sleep(seconds: int, offset: int)
      modifies this
      ensures timeOffset == offset && undoBuffer == old(undoBuffer)
      ensures seconds != 0 ==> redoBuffer == [] && currentId == Some(old(nextId)) && nextId == old(nextId) + 1
      ensures seconds == 0 ==> redoBuffer == old(redoBuffer) && currentId == old(currentId) && nextId == old(nextId)
      ensures snapshotId == old(snapshotId) && resetId == old(resetId)
    {
      timeOffset := offset;
      if seconds != 0 {
        redoBuffer := [];
        var id := Snap();
        currentId := Some(id);
      }
    }

    /** `mine(blocks)` (state.py:277-298): the redo buffer is emptied and a
        new snapshot taken. */
    method Mine(blocks: int)
      modifies this
      ensures redoBuffer == [] && undoBuffer == old(undoBuffer)
      ensures currentId == Some(old(nextId)) && nextId == old(nextId) + 1
      ensures snapshotId == old(snapshotId) && resetId == old(resetId) && timeOffset == old(timeOffset)
    {
      redoBuffer := [];
      var id := Snap();
      currentId := Some(id);
    }

    /** `snapshot()` (state.py:300-308): both buffers are emptied and the new
        snapshot is the one `revert` returns to. */
    method Snapshot()
      modifies this
      ensures undoBuffer == [] && redoBuffer == []
      ensures snapshotId == Some(old(nextId)) && currentId == snapshotId && nextId == old(nextId) + 1
      ensures resetId == old(resetId) && timeOffset == old(timeOffset)
    {
      undoBuffer := [];
      redoBuffer := [];
      var id := Snap();
      snapshotId := Some(id);
      currentId := Some(id);
    }

    /** `revert()` (state.py:310-326): ValueError without a snapshot;
        otherwise both buffers are emptied and the chain goes back to the
        snapshot, which is renewed. */
    method Revert() returns (r: Result<()>)
      modifies this
      ensures r.Failure? <==> old(snapshotId).None?
      ensures r.Failure? ==> r.error == ValueError && undoBuffer == old(undoBuffer) && redoBuffer == old(redoBuffer)
      ensures r.Failure? ==> snapshotId == old(snapshotId) && currentId == old(currentId) && nextId == old(nextId)
      ensures r.Success? ==> undoBuffer == [] && redoBuffer == []
      ensures r.Success? ==> snapshotId == Some(old(nextId)) && currentId == snapshotId && nextId == old(nextId) + 1
      ensures resetId == old(resetId) && timeOffset == old(timeOffset)
    {
      if snapshotId.None? {
        return Failure(ValueError);
      }
      undoBuffer := [];
      redoBuffer := [];
      var id := Snap();
      snapshotId := Some(id);
      currentId := Some(id);
      r := Success(());
    }

    /** `reset()` (state.py:328-347): the snapshot is dropped, both buffers
        are emptied, and the chain goes back to its initial state, whose
        snapshot is taken on the first reset and renewed on later ones. */
    method Reset()
      modifies this
      ensures snapshotId.None? && undoBuffer == [] && redoBuffer == []
      ensures resetId == Some(old(nextId)) && currentId == resetId && nextId == old(nextId) + 1
      ensures timeOffset == old(timeOffset)
    {
      snapshotId := None;
      undoBuffer := [];
      redoBuffer := [];
      var id := Snap();
      resetId := Some(id);
      currentId := Some(id);
    }
  }

  // ---------------------------------------------------------------------
  // The contract registry (state.py:400-412)
  // ---------------------------------------------------------------------

  /** A deployed contract as the registry sees it: a project contract has its
      project, a contract fetched from an explorer has none; `bytecode` is the
      code found at its address. */
  datatype Deployed = Deployed(name: string, project: Option<string>, address: string, bytecode: string, dependencies: seq<string>)

  /** Strictly increasing in Python's string order: sorted and without
      duplicates. */
  predicate StrictlySorted(s: seq<string>) {
    forall i, j :: 0 <= i < j < |s| ==> StrLe(s[i], s[j]) && s[i] != s[j]
  }

  lemma {:induction false} LeastExists(s: set<string>)
    requires s != {}
    ensures exists m :: m in s && forall x :: x in s ==> StrLe(m, x)
    decreases |s|
  {
    if forall x :: x !in s {
      assert false;
    }
    var y :| y in s;
    if s == {y} {
      StrLeTotal(y, y);
      assert forall x :: x in s ==> x == y;
      return;
    }
    LeastExists(s - {y});
    var m :| m in s - {y} && forall x :: x in s - {y} ==> StrLe(m, x);
    var least := LesserOf(y, m);
    forall x | x in s
      ensures StrLe(least, x)
    {
      if x != y {
        assert x in s - {y};
        if least == y {
          StrLeTransitive(y, m, x);
        }
      }
    }
    assert least in s;
  }

  /** The lesser of two strings is at most both. */
  lemma {:induction false} LesserOf(a: string, b: string) returns (least: string)
    ensures least == a || least == b
    ensures StrLe(least, a) && StrLe(least, b)
  {
    StrLeTotal(a, b);
    if StrLe(a, b) {
      StrLeTotal(a, a);
      least := a;
    } else {
      StrLeTotal(b, b);
      least := b;
    }
  }

  /** `sorted(names)` of a set of strings. */
  method SortedNames(names: set<string>) returns (r: seq<string>)
    ensures StrictlySorted(r)
    ensures forall x :: x in r <==> x in names
  {
    var rest := names;
    r := [];
    while rest != {}
      invariant rest <= names
      invariant forall x :: x in names <==> x in r || x in rest
      invariant StrictlySorted(r)
      invariant forall i, x :: 0 <= i < |r| && x in rest ==> StrLe(r[i], x) && r[i] != x
      decreases |rest|
    {
      LeastExists(rest);
      var k :| k in rest && forall x :: x in rest ==> StrLe(k, x);
      forall x | x in rest - {k}
        ensures StrLe(k, x) && k != x
      {
      }
      forall i, x | 0 <= i < |r| && x in rest - {k}
        ensures StrLe(r[i], x)
      {
      }
      r := r + [k];
      rest := rest - {k};
    }
  }

  /** `_contract_map`: the deployed contracts by address. */
  class Registry {
    var contracts: map<string, Deployed>

    constructor()
      ensures contracts == map[]
    {
      contracts := map[];
    }

    /** `_add_contract(contract)` (state.py:407-408). */
    method AddContract(c: Deployed)
      modifies this
      ensures contracts == old(contracts)[c.address := c]
    {
      contracts := contracts[c.address := c];
    }

    /** `_remove_contract(contract)` (state.py:411-412): KeyError when its
        address is not registered. */
    method RemoveContract(c: Deployed) returns (r: Result<()>)
      modifies this
      ensures r.Failure? <==> c.address !in old(contracts)
      ensures r.Failure? ==> r.error == KeyError && contracts == old(contracts)
      ensures r.Success? ==> contracts == old(contracts) - {c.address}
    {
      if c.address !in contracts {
        return Failure(KeyError);
      }
      contracts := contracts - {c.address};
      r := Success(());
    }

    /** The names of the registered contracts and of their dependencies. */
    ghost function Dependencies(): set<string>
      reads this
    {
      (set a | a in contracts :: contracts[a].name)
      + (set a, d | a in contracts && d in contracts[a].dependencies :: d)
    }

    /** `_get_current_dependencies()` (state.py:400-404): the names of the
        registered contracts and of their dependencies, sorted and without
        duplicates. */
    method CurrentDependencies() returns (r: seq<string>)
      ensures StrictlySorted(r)
      ensures forall x :: x in r <==> x in Dependencies()
    {
      var names := set a | a in contracts :: contracts[a].name;
      var deps := set a, d | a in contracts && d in contracts[a].dependencies :: d;
      r := SortedNames(names + deps);
    }
  }
}
