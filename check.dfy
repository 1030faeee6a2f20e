/** The assertion helpers of brownie's unit tests (lib/components/check.py):
    each inspects its arguments and either returns or raises. */
module Check {
  import opened Wrappers

  // ---------------------------------------------------------------------
  // `true`, `false` (check.py:9-26)
  // ---------------------------------------------------------------------

  /** `true(statement)`, with `truthy` the truth value Python gives the
      statement. */
  function True(truthy: bool): (r: Result<()>)
    ensures r.Success? <==> truthy
    ensures r.Failure? ==> r.error == AssertionError
  {
    if !truthy then Failure(AssertionError) else Success(())
  }

  /** `false(statement)`. */
  function False(truthy: bool): (r: Result<()>)
    ensures r.Success? <==> !truthy
    ensures r.Failure? ==> r.error == AssertionError
  {
    if truthy then Failure(AssertionError) else Success(())
  }

  /** Exactly one of the two checks passes on any statement. */
  lemma {:induction false} TrueFalseExclusive(truthy: bool)
    ensures True(truthy).Success? != False(truthy).Success?
  {
  }

  // ---------------------------------------------------------------------
  // `reverts` (check.py:29-43)
  // ---------------------------------------------------------------------

  /** What calling the transaction did: it returned, it reverted with a
      revert message (or none), or it raised another exception. */
  datatype Outcome = Returned | Reverted(revertMsg: Option<string>) | Raised(error: PyError)

  /** `reverts(fn, args, revert_msg=...)`, given the outcome of `fn(*args)`:
      a revert passes when no message was asked for (none or empty) or the
      revert message is the one asked for; any other exception propagates;
      anything else is an AssertionError. */
  function Reverts(outcome: Outcome, revertMsg: Option<string>): (r: Result<()>)
    ensures r.Success? <==> outcome.Reverted? && (revertMsg.None? || revertMsg == Some("") || outcome.revertMsg == revertMsg)
    ensures outcome.Raised? ==> r == Failure(outcome.error)
    ensures !outcome.Raised? && r.Failure? ==> r.error == AssertionError
  {
    match outcome
    case Raised(e) => Failure(e)
    case Reverted(msg) =>
      if revertMsg.None? || revertMsg.value == "" || revertMsg == msg then Success(()) else Failure(AssertionError)
    case Returned => Failure(AssertionError)
  }

  /** Asking for a message is stricter than not asking: whatever passes with
      a message passes without one, and a transaction that did not revert
      never passes. */
  lemma {:induction false} RevertsMonotone(outcome: Outcome, msg: string)
    ensures Reverts(outcome, Some(msg)).Success? ==> Reverts(outcome, None).Success?
    ensures outcome.Returned? ==> Reverts(outcome, Some(msg)).Failure? && Reverts(outcome, None).Failure?
  {
  }

  // ---------------------------------------------------------------------
  // `event_fired` (check.py:63-105)
  // ---------------------------------------------------------------------

  /** An event of a transaction: its name and its data entries. */
  datatype Event<V> = Event(name: string, data: seq<(string, V)>)

  /** The `values` argument: one dict, or a list of dicts. A dict is its
      items in order. */
  datatype Expected<V> = One(dict: seq<(string, V)>) | Several(dicts: seq<seq<(string, V)>>)

  /** `[i for i in tx.events if i['name'] == name]` */
  function Named<V>(events: seq<Event<V>>, name: string): (r: seq<Event<V>>)
    ensures |r| <= |events|
    ensures forall i :: 0 <= i < |r| ==> r[i] in events && r[i].name == name
    ensures forall i :: 0 <= i < |events| && events[i].name == name ==> events[i] in r
    ensures forall i :: 0 <= i < |events| && events[i].name == name ==> multiset(r)[events[i]] == multiset(events)[events[i]]
    decreases |events|
  {
    if |events| == 0 then []
    else
      var init := Named(events[..|events| - 1], name);
      var last := events[|events| - 1];
      assert events == events[..|events| - 1] + [last];
      if last.name == name then init + [last] else init
  }

  /** Filtering keeps the order of the events: the events named `name` of
      two runs are those of the first followed by those of the second. */
  lemma {:induction false} NamedAppend<V>(a: seq<Event<V>>, b: seq<Event<V>>, name: string)
    ensures Named(a + b, name) == Named(a, name) + Named(b, name)
    decreases |b|
  {
    if |b| == 0 {
      assert a + b == a;
    } else {
      var init, last := b[..|b| - 1], b[|b| - 1];
      var tail: seq<Event<V>> := if last.name == name then [last] else [];
      NamedAppend(a, init, name);
      assert (a + b)[..|a + b| - 1] == a + init;
      assert Named(a + b, name) == Named(a + init, name) + tail;
      assert Named(b, name) == Named(init, name) + tail;
      assert Named(a, name) + Named(init, name) + tail == Named(a, name) + (Named(init, name) + tail);
    }
  }

  /** `dict(...)[k]` of the pairs of an event's data: the value of the last
      pair with key `k`, the one the dict keeps. */
  function Lookup<V>(data: seq<(string, V)>, k: string): (r: Option<V>)
    ensures r.None? <==> forall j :: 0 <= j < |data| ==> data[j].0 != k
    ensures r.Some? ==> exists j :: && 0 <= j < |data| && data[j] == (k, r.value)
                                    && forall l :: j < l < |data| ==> data[l].0 != k
    decreases |data|
  {
    if |data| == 0 then None
    else if data[|data| - 1].0 == k then Some(data[|data| - 1].1)
    else Lookup(data[..|data| - 1], k)
  }

  /** The inner loop: the first `n` expected pairs against one event's
      data, KeyError for a key the event does not have, AssertionError for
      a value that differs. */
  function MatchPairs<V(==)>(data: seq<(string, V)>, expected: seq<(string, V)>, n: nat): (r: Result<()>)
    requires n <= |expected|
    ensures r.Failure? ==> r.error == KeyError || r.error == AssertionError
    decreases n
  {
    if n == 0 then Success(())
    else
      var _ :- MatchPairs(data, expected, n - 1);
      var (k, v) := expected[n - 1];
      match Lookup(data, k)
      case None => Failure(KeyError)
      case Some(found) => if found != v then Failure(AssertionError) else Success(())
  }

  /** The outer loop over the first `n` events and dicts. */
  function MatchEvents<V(==)>(events: seq<Event<V>>, dicts: seq<seq<(string, V)>>, n: nat): (r: Result<()>)
    requires n <= |events| && n <= |dicts|
    ensures r.Failure? ==> r.error == KeyError || r.error == AssertionError
    decreases n
  {
    if n == 0 then Success(())
    else
      var _ :- MatchEvents(events, dicts, n - 1);
      MatchPairs(events[n - 1].data, dicts[n - 1], |dicts[n - 1]|)
  }

  /** `event_fired(tx, name, count, values)` on the events of `tx`. */
  function EventFired<V(==)>(events: seq<Event<V>>, name: string, count: Option<int>, values: Option<Expected<V>>): (r: Result<()>)
    ensures r.Failure? ==> r.error == KeyError || r.error == AssertionError
  {
    var fired := Named(events, name);
    if count.Some? && count.value != |fired| then Failure(AssertionError)
    else if count.None? && |fired| == 0 then Failure(AssertionError)
    else if values.None? then Success(())
    else
      var dicts := Dicts(values.value);
      if |dicts| != |fired| then Failure(AssertionError)
      else MatchEvents(fired, dicts, |dicts|)
  }

  /** A single dict is a list of one. */
  function Dicts<V>(values: Expected<V>): (r: seq<seq<(string, V)>>)
    ensures values.One? ==> r == [values.dict]
    ensures values.Several? ==> r == values.dicts
  {
    match values
    case One(d) => [d]
    case Several(ds) => ds
  }

  /** An event's data has each expected pair: the key is there and its
      value is the expected one. */
  predicate Has<V(==)>(data: seq<(string, V)>, expected: seq<(string, V)>) {
    forall j :: 0 <= j < |expected| ==> Lookup(data, expected[j].0) == Some(expected[j].1)
  }

  /** The inner loop passes exactly when the data has the first `n`
      expected pairs. */
  lemma {:induction false} MatchPairsPasses<V>(data: seq<(string, V)>, expected: seq<(string, V)>, n: nat)
    requires n <= |expected|
    ensures MatchPairs(data, expected, n).Success? <==>
      forall j :: 0 <= j < n ==> Lookup(data, expected[j].0) == Some(expected[j].1)
    decreases n
  {
    if n > 0 {
      MatchPairsPasses(data, expected, n - 1);
    }
  }

  /** When the inner loop fails, the first pair the data lacks decides the
      error: KeyError for a missing key, AssertionError for a value that
      differs. */
  lemma {:induction false} MatchPairsFails<V>(data: seq<(string, V)>, expected: seq<(string, V)>, n: nat)
    requires n <= |expected|
    ensures MatchPairs(data, expected, n).Failure? ==>
      exists j :: 0 <= j < n && FirstMissing(data, expected, j, MatchPairs(data, expected, n).error)
    decreases n
  {
    if n > 0 {
      MatchPairsFails(data, expected, n - 1);
      var prev := MatchPairs(data, expected, n - 1);
      if prev.Failure? {
        var j :| 0 <= j < n - 1 && FirstMissing(data, expected, j, prev.error);
        assert MatchPairs(data, expected, n) == prev;
        assert 0 <= j < n && FirstMissing(data, expected, j, MatchPairs(data, expected, n).error);
      } else {
        MatchPairsPasses(data, expected, n - 1);
        var found := Lookup(data, expected[n - 1].0);
        if found != Some(expected[n - 1].1) {
          var err := if found.None? then KeyError else AssertionError;
          assert MatchPairs(data, expected, n) == Failure(err);
          assert FirstMissing(data, expected, n - 1, err);
        }
      }
    }
  }

  /** The `j`-th expected pair is the first the data lacks, and `err` is the
      error it raises: KeyError for a missing key, AssertionError for a value
      that differs. */
  predicate FirstMissing<V(==)>(data: seq<(string, V)>, expected: seq<(string, V)>, j: nat, err: PyError)
    requires j < |expected|
  {
    && Lookup(data, expected[j].0) != Some(expected[j].1)
    && (forall l :: 0 <= l < j ==> Lookup(data, expected[l].0) == Some(expected[l].1))
    && err == (if Lookup(data, expected[j].0).None? then KeyError else AssertionError)
  }

  /** The outer loop passes exactly when every one of the first `n` events
      has its dict's pairs. */
  lemma {:induction false} MatchEventsMeaning<V>(events: seq<Event<V>>, dicts: seq<seq<(string, V)>>, n: nat)
    requires n <= |events| && n <= |dicts|
    ensures MatchEvents(events, dicts, n).Success? <==> forall i :: 0 <= i < n ==> Has(events[i].data, dicts[i])
    decreases n
  {
    if n > 0 {
      MatchEventsMeaning(events, dicts, n - 1);
      MatchPairsPasses(events[n - 1].data, dicts[n - 1], |dicts[n - 1]|);
    }
  }

  /** `event_fired` passes exactly when the count is the one asked for (at
      least one when none is asked for) and, when values are given, there
      is one dict per event fired and each event has its dict's pairs. */
  lemma {:induction false} EventFiredMeaning<V>(events: seq<Event<V>>, name: string, count: Option<int>, values: Option<Expected<V>>)
    ensures var fired := Named(events, name);
      EventFired(events, name, count, values).Success? <==>
        && (if count.Some? then count.value == |fired| else |fired| > 0)
        && (values.Some? ==>
              var dicts := Dicts(values.value);
              && |dicts| == |fired|
              && forall i :: 0 <= i < |fired| ==> Has(fired[i].data, dicts[i]))
  {
    var fired := Named(events, name);
    if values.Some? && |Dicts(values.value)| == |fired| {
      MatchEventsMeaning(fired, Dicts(values.value), |fired|);
    }
  }
}
