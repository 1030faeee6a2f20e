/** Normalising the arguments of a contract call and the data of an event
    against their ABI types (brownie/convert/normalize.py).

    The type objects are the ones `eth_abi` parses from a type string; here
    they are a datatype: an elementary type by its name, an array of an item
    type with a fixed size or none, and a tuple of component types.  The
    value converters (`to_uint`, `EthAddress`, ...) are not part of this
    model: formatting records which converter a value is given to. */
module Normalize {
  import opened Wrappers
  import opened Text

  // ---------------------------------------------------------------------
  // Types and values
  // ---------------------------------------------------------------------

  /** A parsed ABI type. `Array(item, None)` is `item[]`, `Array(item,
      Some(n))` is `item[n]`. */
  datatype AbiType = Basic(name: string) | Array(item: AbiType, size: Option<nat>) | Tuple(components: seq<AbiType>)

  /** `eth_abi`'s `is_dynamic`: a `string`, a `bytes`, an array without a
      size, and anything holding one of these. */
  predicate IsDynamic(t: AbiType) {
    match t
    case Basic(name) => name == "string" || name == "bytes"
    case Array(item, size) => size.None? || IsDynamic(item)
    case Tuple(cs) => exists i :: 0 <= i < |cs| && IsDynamic(cs[i])
  }

  /** The converters `_format_single` hands a value to. */
  datatype Converter = ToUint | ToInt | ToDecimal | ToBool | ToAddress | ToHexString | ToString

  /** A value given for an argument: an integer, a string, a list (or
      tuple), or a value a converter has produced for a type. */
  datatype Value = Int(i: int) | Str(s: string) | List(items: seq<Value>) | Converted(conv: Converter, typ: string, raw: Value)

  // ---------------------------------------------------------------------
  // `_format_single` (normalize.py:76-92)
  // ---------------------------------------------------------------------

  /** A type name containing `uint` contains `int`: the order of the first
      two tests of the dispatch matters. */
  lemma {:induction false} UintHasInt(t: string)
    requires Contains(t, "uint")
    ensures Contains(t, "int")
  {
    var i :| 0 <= i <= |t| && OccursAt(t, "uint", i);
    assert t[i + 1..i + 4] == t[i..i + 4][1..];
    assert OccursAt(t, "int", i + 1);
  }

  /** The converter for type name `t`, chosen by the checks of normalize.py:78-91 in their order;
      TypeError for a type none of the tests accepts. */
  function ConverterFor(t: string): (r: Result<Converter>)
    ensures r.Failure? <==> && !Contains(t, "int") && t != "fixed168x10" && t != "bool" && t != "address"
                            && !Contains(t, "byte") && !Contains(t, "string")
    ensures r.Failure? ==> r.error == TypeError
    ensures Contains(t, "uint") ==> r == Success(ToUint)
  {
    if Contains(t, "uint") then UintHasInt(t); Success(ToUint)
    else if Contains(t, "int") then Success(ToInt)
    else if t == "fixed168x10" then Success(ToDecimal)
    else if t == "bool" then Success(ToBool)
    else if t == "address" then Success(ToAddress)
    else if Contains(t, "byte") then Success(ToHexString)
    else if Contains(t, "string") then Success(ToString)
    else Failure(TypeError)
  }

  /** `_format_single(type_str, value)`. */
  function FormatSingle(t: string, v: Value): (r: Result<Value>)
    ensures r.Failure? <==> ConverterFor(t).Failure?
    ensures r.Failure? ==> r.error == TypeError
    ensures r.Success? ==> r.value == Converted(ConverterFor(t).value, t, v)
  {
    var conv :- ConverterFor(t);
    Success(Converted(conv, t, v))
  }

  /** A pattern one of whose characters is missing from `s` does not occur
      in it. */
  lemma {:induction false} AbsentChar(s: string, pat: string, k: nat)
    requires k < |pat| && pat[k] !in s
    ensures !Contains(s, pat)
  {
    forall i | 0 <= i <= |s|
      ensures !OccursAt(s, pat, i)
    {
      if i + |pat| <= |s| {
        assert s[i..i + |pat|][k] == s[i + k];
      }
    }
  }

  predicate Digits(d: string) {
    forall i :: 0 <= i < |d| ==> '0' <= d[i] <= '9'
  }

  /** Solidity's sized integer and byte-array type names reach the matching
      converter: `uintN` to_uint, `intN` to_int, `bytesN` and `bytes`
      HexString. */
  lemma {:induction false} SizedTypes(d: string)
    requires Digits(d)
    ensures ConverterFor("uint" + d) == Success(ToUint)
    ensures ConverterFor("int" + d) == Success(ToInt)
    ensures ConverterFor("bytes" + d) == Success(ToHexString)
  {
    var u := "uint" + d;
    assert u[..4] == "uint";
    assert OccursAt(u, "uint", 0);
    var n := "int" + d;
    assert n[..3] == "int";
    assert OccursAt(n, "int", 0);
    AbsentChar(n, "uint", 0);
    var b := "bytes" + d;
    assert b[..4] == "byte";
    assert OccursAt(b, "byte", 0);
    AbsentChar(b, "int", 0);
    assert b[0] == 'b';
  }

  /** The other elementary type names reach their converters. */
  lemma {:induction false} NamedTypes()
    ensures ConverterFor("bool") == Success(ToBool)
    ensures ConverterFor("address") == Success(ToAddress)
    ensures ConverterFor("fixed168x10") == Success(ToDecimal)
  {
    AbsentChar("bool", "uint", 1);
    AbsentChar("bool", "int", 0);
    AbsentChar("address", "uint", 1);
    AbsentChar("address", "int", 0);
    AbsentChar("fixed168x10", "uint", 2);
    AbsentChar("fixed168x10", "int", 1);
  }

  /** A `string` is not taken for an `int`: `str`, `tri`, `rin`, `ing`. */
  lemma {:induction false} StringType()
    ensures ConverterFor("string") == Success(ToString)
  {
    var s := "string";
    forall i | 0 <= i <= |s|
      ensures !OccursAt(s, "int", i)
    {
      if i + 3 <= |s| {
        assert s[i..i + 3][2] == s[i + 2];
        assert s[i..i + 3][1] == s[i + 1];
      }
    }
    AbsentChar(s, "uint", 0);
    AbsentChar(s, "byte", 1);
    assert s[..6] == "string";
    assert OccursAt(s, "string", 0);
  }

  // ---------------------------------------------------------------------
  // `_format_tuple` and `_format_array` (normalize.py:43-73)
  // ---------------------------------------------------------------------

  /** `list(values)`: a list as it is, a string as its characters; any
      other value is not iterable. */
  function AsList(v: Value): (r: Result<seq<Value>>)
    ensures r.Failure? <==> !v.List? && !v.Str?
    ensures r.Failure? ==> r.error == TypeError
    ensures v.List? ==> r == Success(v.items)
    ensures v.Str? ==> r.Success? && |r.value| == |v.s|
  {
    match v
    case List(items) => Success(items)
    case Str(s) => Success(seq(|s|, i requires 0 <= i < |s| => Str([s[i]])))
    case _ => Failure(TypeError)
  }

  /** The dispatch on one type, shared by the tuple loop and the array
      comprehensions: an array, a tuple, or an elementary type. */
  function FormatItem(t: AbiType, v: Value): Result<Value>
    decreases t, 2
  {
    match t
    case Array(_, _) => FormatArray(t, v)
    case Tuple(cs) =>
      var items :- FormatTuple(cs, v);
      Success(List(items))
    case Basic(name) => FormatSingle(name, v)
  }

  /** `_format_tuple(abi_types, values)`: TypeError when the number of
      values is not the number of types; otherwise each value formatted
      against its type, the first failure raised. */
  function FormatTuple(types: seq<AbiType>, v: Value): (r: Result<seq<Value>>)
    ensures AsList(v).Failure? ==> r == Failure(TypeError)
    ensures AsList(v).Success? && |AsList(v).value| != |types| ==> r == Failure(TypeError)
    ensures r.Success? ==> |r.value| == |types|
    decreases types, 4
  {
    var items :- AsList(v);
    if |items| != |types| then Failure(TypeError)
    else FormatEach(types, items, |types|)
  }

  /** The first `k` values formatted, each against its own type. */
  function FormatEach(types: seq<AbiType>, items: seq<Value>, k: nat): (r: Result<seq<Value>>)
    requires k <= |types| && k <= |items|
    ensures r.Success? ==> |r.value| == k
    decreases types, 3, k
  {
    if k == 0 then Success([])
    else
      var init :- FormatEach(types, items, k - 1);
      var last :- FormatItem(types[k - 1], items[k - 1]);
      Success(init + [last])
  }

  /** `_format_array(abi_type, values)`: TypeError for a value that is not
      a list; ValueError when the type is static and the list is not as
      long as its size; otherwise each item formatted against the item
      type. */
  function FormatArray(t: AbiType, v: Value): (r: Result<Value>)
    requires t.Array?
    ensures !v.List? ==> r == Failure(TypeError)
    ensures v.List? && !IsDynamic(t) && |v.items| != t.size.value ==> r == Failure(ValueError)
    ensures r.Success? ==> r.value.List? && |r.value.items| == |v.items|
    decreases t, 1
  {
    if !v.List? then Failure(TypeError)
    else if !IsDynamic(t) && |v.items| != t.size.value then Failure(ValueError)
    else
      var items :- FormatAll(t.item, v.items, |v.items|);
      Success(List(items))
  }

  /** The first `k` items formatted against the same type. */
  function FormatAll(item: AbiType, items: seq<Value>, k: nat): (r: Result<seq<Value>>)
    requires k <= |items|
    ensures r.Success? ==> |r.value| == k
    decreases item, 3, k
  {
    if k == 0 then Success([])
    else
      var init :- FormatAll(item, items, k - 1);
      var last :- FormatItem(item, items[k - 1]);
      Success(init + [last])
  }

  /** The tuple loop succeeds exactly when every value formats, and gives
      each value formatted. */
  lemma {:induction false} FormatEachValues(types: seq<AbiType>, items: seq<Value>, k: nat)
    requires k <= |types| && k <= |items|
    ensures FormatEach(types, items, k).Success? <==> forall j :: 0 <= j < k ==> FormatItem(types[j], items[j]).Success?
    ensures FormatEach(types, items, k).Success? ==> forall j :: 0 <= j < k ==> FormatEach(types, items, k).value[j] == FormatItem(types[j], items[j]).value
  {
    if k > 0 {
      FormatEachValues(types, items, k - 1);
      var prev := FormatEach(types, items, k - 1);
      if prev.Success? && FormatItem(types[k - 1], items[k - 1]).Success? {
        var r := FormatEach(types, items, k).value;
        assert r == prev.value + [FormatItem(types[k - 1], items[k - 1]).value];
        forall j | 0 <= j < k
          ensures r[j] == FormatItem(types[j], items[j]).value
        {
          if j < k - 1 {
            assert r[j] == prev.value[j];
          }
        }
      }
    }
  }

  /** When the tuple loop fails, it raises the error of the first value
      that does not format. */
  lemma {:induction false} FormatEachFirst(types: seq<AbiType>, items: seq<Value>, k: nat)
    requires k <= |types| && k <= |items|
    ensures FormatEach(types, items, k).Failure? ==>
      exists j :: && 0 <= j < k
                  && FormatItem(types[j], items[j]) == Failure(FormatEach(types, items, k).error)
                  && forall l :: 0 <= l < j ==> FormatItem(types[l], items[l]).Success?
  {
    if k > 0 {
      FormatEachFirst(types, items, k - 1);
      var prev := FormatEach(types, items, k - 1);
      if prev.Failure? {
        var j :| && 0 <= j < k - 1
                 && FormatItem(types[j], items[j]) == Failure(prev.error)
                 && forall l :: 0 <= l < j ==> FormatItem(types[l], items[l]).Success?;
        assert FormatEach(types, items, k) == Failure(prev.error);
      } else {
        FormatEachValues(types, items, k - 1);
        var last := FormatItem(types[k - 1], items[k - 1]);
        if last.Failure? {
          assert FormatEach(types, items, k) == Failure(last.error);
          assert forall l :: 0 <= l < k - 1 ==> FormatItem(types[l], items[l]).Success?;
        }
      }
    }
  }

  /** The array comprehension succeeds exactly when every item formats, and
      gives each item formatted. */
  lemma {:induction false} FormatAllValues(item: AbiType, items: seq<Value>, k: nat)
    requires k <= |items|
    ensures FormatAll(item, items, k).Success? <==> forall j :: 0 <= j < k ==> FormatItem(item, items[j]).Success?
    ensures FormatAll(item, items, k).Success? ==> forall j :: 0 <= j < k ==> FormatAll(item, items, k).value[j] == FormatItem(item, items[j]).value
  {
    if k > 0 {
      FormatAllValues(item, items, k - 1);
      var prev := FormatAll(item, items, k - 1);
      if prev.Success? && FormatItem(item, items[k - 1]).Success? {
        var r := FormatAll(item, items, k).value;
        assert r == prev.value + [FormatItem(item, items[k - 1]).value];
        forall j | 0 <= j < k
          ensures r[j] == FormatItem(item, items[j]).value
        {
          if j < k - 1 {
            assert r[j] == prev.value[j];
          }
        }
      }
    }
  }

  /** When the array comprehension fails, it raises the error of the first
      item that does not format. */
  lemma {:induction false} FormatAllFirst(item: AbiType, items: seq<Value>, k: nat)
    requires k <= |items|
    ensures FormatAll(item, items, k).Failure? ==>
      exists j :: && 0 <= j < k
                  && FormatItem(item, items[j]) == Failure(FormatAll(item, items, k).error)
                  && forall l :: 0 <= l < j ==> FormatItem(item, items[l]).Success?
  {
    if k > 0 && FormatAll(item, items, k).Failure? {
      var prev := FormatAll(item, items, k - 1);
      if prev.Failure? {
        FormatAllFirst(item, items, k - 1);
        FormatAllStuck(item, items, k);
        var j :| && 0 <= j < k - 1
                 && FormatItem(item, items[j]) == Failure(prev.error)
                 && forall l :: 0 <= l < j ==> FormatItem(item, items[l]).Success?;
        assert FormatItem(item, items[j]) == Failure(FormatAll(item, items, k).error);
      } else {
        FormatAllLastFails(item, items, k);
        assert FormatItem(item, items[k - 1]) == Failure(FormatAll(item, items, k).error);
      }
    }
  }

  /** A failed prefix fails the whole comprehension with its error. */
  lemma {:induction false} FormatAllStuck(item: AbiType, items: seq<Value>, k: nat)
    requires 0 < k <= |items| && FormatAll(item, items, k - 1).Failure?
    ensures FormatAll(item, items, k) == Failure(FormatAll(item, items, k - 1).error)
  {
  }

  /** After a prefix that formats, a failure is the last item's. */
  lemma {:induction false} FormatAllLastFails(item: AbiType, items: seq<Value>, k: nat)
    requires 0 < k <= |items| && FormatAll(item, items, k - 1).Success?
    ensures FormatAll(item, items, k).Failure? ==>
      && FormatItem(item, items[k - 1]) == Failure(FormatAll(item, items, k).error)
      && forall l :: 0 <= l < k - 1 ==> FormatItem(item, items[l]).Success?
  {
    FormatAllValues(item, items, k - 1);
  }

  /** Formatting raises nothing but TypeError and ValueError (the
      converters' own errors are not part of this model). */
  predicate FormatError(e: PyError) {
    e == TypeError || e == ValueError
  }

  lemma {:induction false} ItemErrors(t: AbiType, v: Value)
    ensures FormatItem(t, v).Failure? ==> FormatError(FormatItem(t, v).error)
    decreases t, 2
  {
    match t
    case Array(_, _) => ArrayErrors(t, v);
    case Tuple(cs) => TupleErrors(cs, v);
    case Basic(_) =>
  }

  lemma {:induction false} TupleErrors(types: seq<AbiType>, v: Value)
    ensures FormatTuple(types, v).Failure? ==> FormatError(FormatTuple(types, v).error)
    decreases types, 4
  {
    var items := AsList(v);
    if items.Success? && |items.value| == |types| {
      EachErrors(types, items.value, |types|);
    }
  }

  lemma {:induction false} EachErrors(types: seq<AbiType>, items: seq<Value>, k: nat)
    requires k <= |types| && k <= |items|
    ensures FormatEach(types, items, k).Failure? ==> FormatError(FormatEach(types, items, k).error)
    decreases types, 3, k
  {
    if k > 0 {
      EachErrors(types, items, k - 1);
      ItemErrors(types[k - 1], items[k - 1]);
    }
  }

  lemma {:induction false} ArrayErrors(t: AbiType, v: Value)
    requires t.Array?
    ensures FormatArray(t, v).Failure? ==> FormatError(FormatArray(t, v).error)
    decreases t, 1
  {
    if v.List? {
      AllErrors(t.item, v.items, |v.items|);
    }
  }

  lemma {:induction false} AllErrors(item: AbiType, items: seq<Value>, k: nat)
    requires k <= |items|
    ensures FormatAll(item, items, k).Failure? ==> FormatError(FormatAll(item, items, k).error)
    decreases item, 3, k
  {
    if k > 0 {
      AllErrors(item, items, k - 1);
      ItemErrors(item, items[k - 1]);
    }
  }

  /** The length of a fixed-size array is not checked when its item type is
      dynamic: `string[2]` accepts a single string. */
  lemma {:induction false} DynamicItemsUnchecked()
    ensures FormatArray(Array(Basic("string"), Some(2)), List([Str("a")])).Success?
  {
    StringType();
    var items := [Str("a")];
    assert FormatAll(Basic("string"), items, 0) == Success([]);
  }

  // ---------------------------------------------------------------------
  // `format_input` (normalize.py:11-19)
  // ---------------------------------------------------------------------

  /** `format_input(abi, inputs)`, with `inputCount` the number of inputs
      the ABI declares and `types` the types `eth_abi` parses from them:
      TypeError when arguments are given to a function that takes none;
      otherwise the arguments formatted as a tuple, with the error of the
      tuple formatting kept. */
  function FormatInput(inputCount: nat, types: seq<AbiType>, inputs: seq<Value>): (r: Result<seq<Value>>)
    ensures |inputs| > 0 && inputCount == 0 ==> r == Failure(TypeError)
    ensures r.Success? ==> |r.value| == |inputs| == |types|
  {
    if |inputs| > 0 && inputCount == 0 then Failure(TypeError)
    else FormatTuple(types, List(inputs))
  }

  /** The arity check of `format_input` raises the error the tuple
      formatting would raise anyway for a function without inputs. */
  lemma {:induction false} NoInputsSameError(inputs: seq<Value>)
    ensures FormatInput(0, [], inputs) == FormatTuple([], List(inputs))
  {
  }

  /** The arguments are formatted one by one: `format_input` succeeds
      exactly when there are as many as the types and each formats, and
      then gives each formatted against its own type. */
  lemma {:induction false} FormatInputMeaning(inputCount: nat, types: seq<AbiType>, inputs: seq<Value>)
    requires inputCount > 0 || |inputs| == 0
    ensures FormatInput(inputCount, types, inputs).Success? <==>
      |inputs| == |types| && forall j :: 0 <= j < |types| ==> FormatItem(types[j], inputs[j]).Success?
    ensures FormatInput(inputCount, types, inputs).Success? ==>
      forall j :: 0 <= j < |types| ==> FormatInput(inputCount, types, inputs).value[j] == FormatItem(types[j], inputs[j]).value
  {
    if |inputs| == |types| {
      FormatEachValues(types, inputs, |types|);
    }
  }

  // ---------------------------------------------------------------------
  // `_params` (normalize.py:95-109)
  // ---------------------------------------------------------------------

  /** A parameter of an ABI entry: its name, its type string and, for the
      type `tuple`, its components. */
  datatype Param = Param(name: string, typ: string, components: seq<Param>)

  /** The substitution loop: each `(orig, sub)` in order replaces every
      `orig` in the type when the type, as rewritten so far, starts with
      `orig`. */
  function Substituted(t: string, subs: seq<(string, string)>): string
    decreases |subs|
  {
    if |subs| == 0 then t
    else
      var prev := Substituted(t, subs[..|subs| - 1]);
      var (orig, sub) := subs[|subs| - 1];
      if StartsWith(prev, orig) then ReplaceAll(prev, orig, sub) else prev
  }

  /** The type string `_params` gives a parameter: a tuple is its
      components' type strings joined by commas in parentheses. */
  function TypeString(p: Param, subs: seq<(string, string)>): string
    decreases p
  {
    if p.typ != "tuple" then Substituted(p.typ, subs)
    else "(" + Join(ComponentTypes(p.components, subs), ",") + ")"
  }

  function ComponentTypes(ps: seq<Param>, subs: seq<(string, string)>): (r: seq<string>)
    ensures |r| == |ps|
    decreases ps
  {
    seq(|ps|, i requires 0 <= i < |ps| => TypeString(ps[i], subs))
  }

  /** `_params(abi_params, substitutions)`: one (name, type string) per
      parameter, in order. */
  function Params(ps: seq<Param>, subs: seq<(string, string)>): (r: seq<(string, string)>)
    ensures |r| == |ps|
    ensures forall i :: 0 <= i < |ps| ==> r[i].0 == ps[i].name
  {
    seq(|ps|, i requires 0 <= i < |ps| => (ps[i].name, TypeString(ps[i], subs)))
  }

  /** A substitution applies only to a type that starts with its key, and
      the substituted type then starts with the replacement. */
  lemma {:induction false} SubstitutionPrefix(t: string, orig: string, sub: string)
    ensures StartsWith(t, orig) ==> StartsWith(Substituted(t, [(orig, sub)]), sub)
    ensures !StartsWith(t, orig) ==> Substituted(t, [(orig, sub)]) == t
  {
    var subs := [(orig, sub)];
    assert subs[..0] == [];
    if StartsWith(t, orig) {
      ReplaceAllStartsWith(t, orig, sub);
    }
  }

  /** A tuple's type string is its components' type strings in parentheses:
      when those hold no comma (no nested tuple), splitting the inside at
      the commas gives them back, one per component, in order. */
  lemma {:induction false} TupleTypeString(p: Param, subs: seq<(string, string)>)
    requires p.typ == "tuple" && |p.components| >= 1
    requires forall k :: 0 <= k < |p.components| ==> ',' !in TypeString(p.components[k], subs)
    ensures var s := TypeString(p, subs);
      && |s| >= 2 && s[0] == '(' && s[|s| - 1] == ')'
      && Split(s[1..|s| - 1], ',') == ComponentTypes(p.components, subs)
  {
    var parts := ComponentTypes(p.components, subs);
    var inner := Join(parts, ",");
    assert TypeString(p, subs) == "(" + inner + ")";
    assert ("(" + inner + ")")[1..|inner| + 1] == inner;
    forall k | 0 <= k < |parts|
      ensures ',' !in parts[k]
    {
      assert parts[k] == TypeString(p.components[k], subs);
    }
    SplitJoin(parts, ',');
  }

  /** Without substitutions an elementary type string is kept as written. */
  lemma {:induction false} NoSubstitution(p: Param)
    requires p.typ != "tuple"
    ensures TypeString(p, []) == p.typ
  {
  }

  /** Parentheses come only from tuples: when neither the type strings nor
      the replacements hold a parenthesis, the substituted type does not
      either. */
  lemma {:induction false} SubstitutedChars(t: string, subs: seq<(string, string)>, ch: char)
    requires ch !in t && forall k :: 0 <= k < |subs| ==> ch !in subs[k].1 && subs[k].0 != ""
    ensures ch !in Substituted(t, subs)
    decreases |subs|
  {
    if |subs| > 0 {
      var init := subs[..|subs| - 1];
      forall k | 0 <= k < |init|
        ensures ch !in init[k].1 && init[k].0 != ""
      {
        assert init[k] == subs[k];
      }
      SubstitutedChars(t, init, ch);
      var prev := Substituted(t, init);
      var (orig, sub) := subs[|subs| - 1];
      if StartsWith(prev, orig) && ch in ReplaceAll(prev, orig, sub) {
        ReplaceChars(prev, orig, sub, ch);
      }
    }
  }

  // ---------------------------------------------------------------------
  // `format_event` (normalize.py:29-40)
  // ---------------------------------------------------------------------

  /** An entry of an event's data. */
  datatype EventEntry = EventEntry(name: string, typ: string, decoded: bool, value: Value)

  /** An entry the decoder could not read (an indexed dynamic value) is
      relabelled as the `bytes32` topic it is. */
  function Relabel(e: EventEntry): (r: EventEntry)
    ensures r.decoded == e.decoded && r.value == e.value
    ensures e.decoded ==> r == e
    ensures !e.decoded ==> r.typ == "bytes32" && r.name == e.name + " (indexed)"
  {
    if e.decoded then e else e.(typ := "bytes32", name := e.name + " (indexed)")
  }

  function Relabelled(data: seq<EventEntry>): (r: seq<EventEntry>)
    ensures |r| == |data| && forall i :: 0 <= i < |data| ==> r[i] == Relabel(data[i])
  {
    seq(|data|, i requires 0 <= i < |data| => Relabel(data[i]))
  }

  /** The raw values of the entries, in order. */
  function RawValues(data: seq<EventEntry>): (r: seq<Value>)
    ensures |r| == |data| && forall i :: 0 <= i < |data| ==> r[i] == data[i].value
  {
    seq(|data|, i requires 0 <= i < |data| => data[i].value)
  }

  /** The types `eth_abi` parses from the entries' type strings, given the
      parse of one type string. */
  function EntryTypes(data: seq<EventEntry>, parse: string -> AbiType): (r: seq<AbiType>)
    ensures |r| == |data| && forall i :: 0 <= i < |data| ==> r[i] == parse(data[i].typ)
  {
    seq(|data|, i requires 0 <= i < |data| => parse(data[i].typ))
  }

  /** Every entry's value replaced by its formatted value. */
  function WithValues(data: seq<EventEntry>, values: seq<Value>): (r: seq<EventEntry>)
    requires |values| == |data|
    ensures |r| == |data| && forall i :: 0 <= i < |data| ==> r[i] == data[i].(value := values[i])
  {
    seq(|data|, i requires 0 <= i < |data| => data[i].(value := values[i]))
  }

  /** The data of an event, as `format_event` leaves it. */
  class Event {
    var data: seq<EventEntry>

    constructor(data: seq<EventEntry>)
      ensures this.data == data
    {
      this.data := data;
    }

    /** `format_event(event)`: the undecoded entries are relabelled in place,
        then the values are formatted as a tuple against the relabelled
        types and written back.  When formatting fails, the relabelling
        stays and the error is raised. */
    method FormatEvent(parse: string -> AbiType) returns (r: Result<()>)
      modifies this
      ensures var relabelled := Relabelled(old(data));
        var formatted := FormatTuple(EntryTypes(relabelled, parse), List(RawValues(relabelled)));
        && (formatted.Failure? ==> r == Failure(formatted.error) && data == relabelled)
        && (formatted.Success? ==> r.Success? && data == WithValues(relabelled, formatted.value))
    {
      ghost var original := data;
      var i := 0;
      while i < |data|
        invariant 0 <= i <= |data| == |original|
        invariant forall j :: 0 <= j < i ==> data[j] == Relabel(original[j])
        invariant forall j :: i <= j < |data| ==> data[j] == original[j]
      {
        if !data[i].decoded {
          data := data[i := data[i].(typ := "bytes32", name := data[i].name + " (indexed)")];
        }
        i := i + 1;
      }
      assert data == Relabelled(original);
      var types := EntryTypes(data, parse);
      var values := FormatTuple(types, List(RawValues(data)));
      if values.Failure? {
        return Failure(values.error);
      }
      ghost var relabelled := data;
      i := 0;
      while i < |data|
        invariant 0 <= i <= |data| == |relabelled| == |values.value|
        invariant forall j :: 0 <= j < i ==> data[j] == relabelled[j].(value := values.value[j])
        invariant forall j :: i <= j < |data| ==> data[j] == relabelled[j]
      {
        data := data[i := data[i].(value := values.value[i])];
        i := i + 1;
      }
      assert data == WithValues(relabelled, values.value);
      r := Success(());
    }
  }

  /** After `format_event`, entries are neither added nor lost; a decoded
      entry keeps its name and type, and an undecoded one is a `bytes32`
      named as an indexed value. */
  lemma {:induction false} FormatEventLabels(data: seq<EventEntry>, values: seq<Value>, i: nat)
    requires |values| == |data| && i < |data|
    ensures |WithValues(Relabelled(data), values)| == |data|
    ensures var e := WithValues(Relabelled(data), values)[i];
      && e.value == values[i]
      && e.decoded == data[i].decoded
      && (data[i].decoded ==> e.name == data[i].name && e.typ == data[i].typ)
      && (!data[i].decoded ==> e.name == data[i].name + " (indexed)" && e.typ == "bytes32")
  {
  }
}
