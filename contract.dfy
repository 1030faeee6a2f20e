/** Deployed-contract helpers (brownie/network/contract.py): checking the code
    found at an address against a build, the trailing transaction dict of a
    call, overloaded methods, selector lookup, library linking and the list a
    contract container keeps.

    Whatever web3 would fetch is a parameter: the code at an address, the
    function selectors of an ABI, the libraries a project has deployed. */
module Contracts {
  import opened Wrappers
  import opened Text
  import opened LinkReferences
  import ChainState

  /** Python's `s[-k:]`. */
  function Last(s: string, k: nat): (r: string)
    ensures |r| == if |s| < k then |s| else k
    ensures r == s[|s| - |r|..]
  {
    if |s| < k then s else s[|s| - k..]
  }

  /** Python's `s[:-k]` for `k > 0`: empty once `k` reaches the length. */
  function DropLast(s: string, k: nat): (r: string)
    ensures |r| == if |s| < k then 0 else |s| - k
    ensures r == s[..|r|]
  {
    if |s| < k then "" else s[..|s| - k]
  }

  predicate NoUnderscore(s: string) {
    forall j :: 0 <= j < |s| ==> s[j] != '_'
  }

  // ---------------------------------------------------------------------
  // Link markers: `re.findall("_{1,}[^_]*_{1,}", s)`
  // ---------------------------------------------------------------------

  /** The end of the run of underscores starting at `i`. */
  function RunEnd(s: string, i: nat): (n: nat)
    requires i <= |s|
    ensures i <= n <= |s|
    ensures forall j :: i <= j < n ==> s[j] == '_'
    ensures n == |s| || s[n] != '_'
    decreases |s| - i
  {
    if i < |s| && s[i] == '_' then RunEnd(s, i + 1) else i
  }

  /** The first underscore at or after `i`, or the end. */
  function NextUnderscore(s: string, i: nat): (m: nat)
    requires i <= |s|
    ensures i <= m <= |s|
    ensures forall j :: i <= j < m ==> s[j] != '_'
    ensures m == |s| || s[m] == '_'
    decreases |s| - i
  {
    if i < |s| && s[i] != '_' then NextUnderscore(s, i + 1) else i
  }

  predicate IsMarker(m: string) {
    |m| >= 2 && m[0] == '_' && m[|m| - 1] == '_'
  }

  /** The matches of `_{1,}[^_]*_{1,}` in `s` from index `i` on, scanning as
      `re.findall` does.  At a run of underscores `[i, n)` the greedy match
      takes the run, the non-underscores after it up to `m`, and the whole
      run of underscores starting at `m`.  When no underscore follows the
      run, backtracking splits the run itself into the two `_{1,}`, which
      needs at least two underscores; a single one does not match. */
  function Markers(s: string, i: nat): (r: seq<string>)
    requires i <= |s|
    ensures forall k :: 0 <= k < |r| ==> IsMarker(r[k])
    ensures (forall j :: i <= j < |s| ==> s[j] != '_') ==> r == []
    decreases |s| - i
  {
    if i == |s| then []
    else if s[i] != '_' then Markers(s, i + 1)
    else
      var n := RunEnd(s, i);
      var m := NextUnderscore(s, n);
      if m < |s| then
        var e := RunEnd(s, m);
        [s[i..e]] + Markers(s, e)
      else if n - i >= 2 then [s[i..n]] + Markers(s, n)
      else Markers(s, i + 1)
  }

  /** Scanning over characters other than `_` finds nothing. */
  lemma {:induction false} MarkersSkip(s: string, i: nat, k: nat)
    requires i <= k <= |s|
    requires forall j :: i <= j < k ==> s[j] != '_'
    ensures Markers(s, i) == Markers(s, k)
    decreases k - i
  {
    if i < k {
      MarkersSkip(s, i + 1, k);
    }
  }

  /** The characters of the placeholder written for `name`. */
  lemma {:induction false} PlaceholderChars(name: string)
    requires |name| <= 36
    ensures |Placeholder(name)| == 40
    ensures forall j :: 0 <= j < 40 ==> Placeholder(name)[j] == if 2 <= j < 2 + |name| then name[j - 2] else '_'
  {
    var p := Placeholder(name);
    forall j | 0 <= j < 40
      ensures p[j] == if 2 <= j < 2 + |name| then name[j - 2] else '_'
    {
      if j < 2 {
        assert p[j] == p[..2][j];
      } else if j < 38 {
        assert p[j] == p[2..38][j - 2];
      } else {
        assert p[j] == p[38..][j - 38];
      }
    }
  }

  lemma {:induction false} RunEndIs(s: string, i: nat, j: nat)
    requires i <= j <= |s|
    requires forall k :: i <= k < j ==> s[k] == '_'
    requires j == |s| || s[j] != '_'
    ensures RunEnd(s, i) == j
  {
  }

  lemma {:induction false} NextUnderscoreIs(s: string, i: nat, j: nat)
    requires i <= j < |s|
    requires forall k :: i <= k < j ==> s[k] != '_'
    requires s[j] == '_'
    ensures NextUnderscore(s, i) == j
  {
  }

  /** A run of underscores followed by other characters and another run is
      one marker, from the first run to the end of the second. */
  lemma {:induction false} MarkerAt(s: string, i: nat, m: nat, e: nat)
    requires i < |s| && s[i] == '_'
    requires m == NextUnderscore(s, RunEnd(s, i)) && m < |s| && e == RunEnd(s, m)
    ensures Markers(s, i) == [s[i..e]] + Markers(s, e)
  {
  }

  /** The placeholder the compiler writes for a library is the one marker
      found in bytecode that has no other underscore. */
  lemma {:induction false} PlaceholderMarker(h1: string, name: string, h2: string)
    requires NoUnderscore(h1) && NoUnderscore(h2) && NoUnderscore(name) && 1 <= |name| <= 36
    ensures Markers(h1 + Placeholder(name) + h2, 0) == [Placeholder(name)]
  {
    var ph := Placeholder(name);
    PlaceholderChars(name);
    var s := h1 + ph + h2;
    var p := |h1|;
    var q := p + 2 + |name|;
    forall j | 0 <= j < p
      ensures s[j] != '_'
    {
      assert s[j] == h1[j];
    }
    forall j | p <= j < p + 40
      ensures s[j] == ph[j - p]
    {
    }
    forall j | p + 40 <= j < |s|
      ensures s[j] != '_'
    {
      assert s[j] == h2[j - p - 40];
    }
    MarkersSkip(s, 0, p);
    RunEndIs(s, p, p + 2);
    NextUnderscoreIs(s, p + 2, q);
    RunEndIs(s, q, p + 40);
    MarkerAt(s, p, q, p + 40);
    assert s[p..p + 40] == ph;
    MarkersSkip(s, p + 40, |s|);
  }

  // ---------------------------------------------------------------------
  // `_verify_deployed_code` (contract.py:758-782)
  // ---------------------------------------------------------------------

  /** `73` followed by a zero address: the start of an undeployed library. */
  const LibraryPrefix: string := "73" + "0000000000" + "0000000000" + "0000000000" + "0000000000"

  /** `remove_0x_prefix` */
  function RemovePrefix(s: string): string {
    if StartsWith(s, "0x") || StartsWith(s, "0X") then s[2..] else s
  }

  /** `s[:idx] + s[idx + 40:]` */
  function Cut(s: string, idx: nat): (r: string)
    ensures idx + 40 <= |s| ==> r == s[..idx] + s[idx + 40..]
  {
    Head(s, idx) + Tail(s, idx + 40)
  }

  /** The marker loop (contract.py:769-773): each marker is looked up in the
      expected code as cut so far (ValueError when it is gone), and the 40
      characters from there are cut from both. */
  function CutMarkers(actual: string, expected: string, markers: seq<string>): (r: Result<(string, string)>)
    ensures r.Failure? ==> r.error == ValueError
    decreases |markers|
  {
    if |markers| == 0 then Success((actual, expected))
    else
      var pair :- CutMarkers(actual, expected, markers[..|markers| - 1]);
      match Find(pair.1, markers[|markers| - 1])
      case None => Failure(ValueError)
      case Some(idx) => Success((Cut(pair.0, idx), Cut(pair.1, idx)))
  }

  /** Once a marker is missing, the loop has failed. */
  lemma {:induction false} CutMarkersSticks(actual: string, expected: string, markers: seq<string>, k: nat)
    requires k <= |markers|
    requires CutMarkers(actual, expected, markers[..k]).Failure?
    ensures CutMarkers(actual, expected, markers).Failure?
    decreases |markers| - k
  {
    if k < |markers| {
      assert markers[..k + 1][..k] == markers[..k];
      CutMarkersSticks(actual, expected, markers, k + 1);
    } else {
      assert markers[..k] == markers;
    }
  }

  /** The Solidity metadata (contract.py:775-780): the last four characters
      give its length `L` in bytes, and `(L + 2) * 2` characters go. */
  function DropMetadata(s: string): Result<string> {
    match ParseHex(Last(s, 4))
    case None => Failure(ValueError)
    case Some(size) => Success(DropLast(s, (size + 2) * 2))
  }

  /** What `_verify_deployed_code` answers for code `actual` found at
      `address`. */
  function VerifiedCode(address: string, expected: string, language: string, actual: string): (r: Result<bool>)
    ensures r.Failure? ==> r.error == ValueError
  {
    var stripped := RemovePrefix(expected);
    if StartsWith(stripped, LibraryPrefix) then
      Success(StartsWith(actual, "73" + Lower(Tail(address, 2))) && Tail(actual, 42) == Tail(stripped, 42))
    else
      var pair :- if '_' in stripped then CutMarkers(actual, stripped, Markers(stripped, 0)) else Success((actual, stripped));
      if language == "Solidity" then
        var a :- DropMetadata(pair.0);
        var e :- DropMetadata(pair.1);
        Success(a == e)
      else
        Success(pair.0 == pair.1)
  }

  /** The marker loop of `_verify_deployed_code`. */
  method CutAll(actual: string, expected: string, markers: seq<string>) returns (r: Result<(string, string)>)
    ensures r == CutMarkers(actual, expected, markers)
  {
    var a := actual;
    var e := expected;
    for k := 0 to |markers|
      invariant CutMarkers(actual, expected, markers[..k]) == Success((a, e))
    {
      assert markers[..k + 1][..k] == markers[..k];
      var idx := Find(e, markers[k]);
      if idx.None? {
        CutMarkersSticks(actual, expected, markers, k + 1);
        return Failure(ValueError);
      }
      a := Cut(a, idx.value);
      e := Cut(e, idx.value);
    }
    assert markers[..|markers|] == markers;
    r := Success((a, e));
  }

  /** `_verify_deployed_code(address, expected_bytecode, language)`. */
  method VerifyDeployedCode(address: string, expectedBytecode: string, language: string, actual: string)
    returns (r: Result<bool>)
    ensures r == VerifiedCode(address, expectedBytecode, language, actual)
  {
    var expected := RemovePrefix(expectedBytecode);
    if StartsWith(expected, LibraryPrefix) {
      return Success(StartsWith(actual, "73" + Lower(Tail(address, 2))) && Tail(actual, 42) == Tail(expected, 42));
    }
    var a := actual;
    var e := expected;
    if '_' in expected {
      var cut := CutAll(actual, expected, Markers(expected, 0));
      if cut.Failure? {
        return Failure(cut.error);
      }
      a := cut.value.0;
      e := cut.value.1;
    }
    if language == "Solidity" {
      var da := DropMetadata(a);
      if da.Failure? {
        return Failure(da.error);
      }
      var de := DropMetadata(e);
      if de.Failure? {
        return Failure(de.error);
      }
      a, e := da.value, de.value;
    }
    return Success(a == e);
  }

  lemma {:induction false} CutMarkersSame(s: string, markers: seq<string>)
    ensures CutMarkers(s, s, markers).Success? ==> CutMarkers(s, s, markers).value.0 == CutMarkers(s, s, markers).value.1
    decreases |markers|
  {
    if |markers| > 0 {
      CutMarkersSame(s, markers[..|markers| - 1]);
    }
  }

  /** The code of a build is never rejected against itself: the answer is
      true, or the check fails with ValueError. */
  lemma {:induction false} VerifySelf(address: string, expected: string, language: string)
    requires !StartsWith(RemovePrefix(expected), LibraryPrefix)
    ensures VerifiedCode(address, expected, language, RemovePrefix(expected)) != Success(false)
  {
    CutMarkersSame(RemovePrefix(expected), Markers(RemovePrefix(expected), 0));
  }

  /** A deployed library carries its own address where the build has the
      zero address; with the rest equal it verifies. */
  lemma {:induction false} LibraryVerifies(address: string, expected: string, language: string)
    requires |address| == 42 && StartsWith(RemovePrefix(expected), LibraryPrefix)
    ensures VerifiedCode(address, expected, language, "73" + Lower(address[2..]) + RemovePrefix(expected)[42..]) == Success(true)
  {
    var stripped := RemovePrefix(expected);
    var actual := "73" + Lower(address[2..]) + stripped[42..];
    assert actual[..42] == "73" + Lower(address[2..]);
    assert actual[42..] == stripped[42..];
  }

  /** Code linked against a library verifies against the unlinked build:
      the 40 characters where the build has the placeholder are not
      compared. */
  lemma {:induction false} LinkedVerifies(address: string, h1: string, name: string, h2: string, library: string, language: string)
    requires NoUnderscore(h1) && NoUnderscore(h2) && NoUnderscore(name) && 1 <= |name| <= 36 && |library| == 40
    requires RemovePrefix(h1 + Placeholder(name) + h2) == h1 + Placeholder(name) + h2
    requires !StartsWith(h1 + Placeholder(name) + h2, LibraryPrefix)
    requires language != "Solidity"
    ensures VerifiedCode(address, h1 + Placeholder(name) + h2, language, h1 + library + h2) == Success(true)
  {
    var ph := Placeholder(name);
    var expected := h1 + ph + h2;
    var actual := h1 + library + h2;
    PlaceholderMarker(h1, name, h2);
    PlaceholderChars(name);
    assert expected[|h1|] == '_';
    FindPlaceholder(h1, name, h2);
    CutSlot(h1, ph, h2);
    CutSlot(h1, library, h2);
    var single: seq<string> := [ph];
    assert single[..0] == [];
    assert CutMarkers(actual, expected, [ph]) == Success((h1 + h2, h1 + h2));
  }

  /** The first occurrence of a placeholder in code with no other
      underscore before it is its own slot. */
  lemma {:induction false} FindPlaceholder(h1: string, name: string, h2: string)
    requires NoUnderscore(h1) && |name| <= 36
    ensures Find(h1 + Placeholder(name) + h2, Placeholder(name)) == Some(|h1|)
  {
    var ph := Placeholder(name);
    var expected := h1 + ph + h2;
    PlaceholderChars(name);
    var p := |h1|;
    assert OccursAt(expected, ph, p) by {
      assert expected[p..p + 40] == ph;
    }
    forall j | 0 <= j < p
      ensures !OccursAt(expected, ph, j)
    {
      assert expected[j] == h1[j] && ph[0] == '_';
      if j + 40 <= |expected| {
        assert expected[j..j + 40][0] == expected[j];
      }
    }
  }

  /** Cutting the 40 characters of a slot leaves what surrounds it. */
  lemma {:induction false} CutSlot(h1: string, slot: string, h2: string)
    requires |slot| == 40
    ensures Cut(h1 + slot + h2, |h1|) == h1 + h2
  {
    var s := h1 + slot + h2;
    assert s[..|h1|] == h1 && s[|h1| + 40..] == h2;
  }

  /** The last four characters of Solidity metadata give its length in
      bytes, two of them for the length itself. */
  predicate IsMetadata(m: string) {
    |m| >= 4 && ParseHex(m[|m| - 4..]).Some? && (ParseHex(m[|m| - 4..]).value + 2) * 2 == |m|
  }

  /** Code that differs from the build only in its Solidity metadata
      verifies. */
  lemma {:induction false} MetadataIgnored(address: string, body: string, built: string, found: string)
    requires NoUnderscore(body + built) && IsMetadata(built) && IsMetadata(found)
    requires RemovePrefix(body + built) == body + built && !StartsWith(body + built, LibraryPrefix)
    ensures VerifiedCode(address, body + built, "Solidity", body + found) == Success(true)
  {
    var expected := body + built;
    assert '_' !in expected by {
      forall j | 0 <= j < |expected|
        ensures expected[j] != '_'
      {
      }
    }
    assert Last(expected, 4) == built[|built| - 4..];
    assert Last(body + found, 4) == found[|found| - 4..];
    assert DropLast(expected, |built|) == body;
    assert DropLast(body + found, |found|) == body;
  }

  // ---------------------------------------------------------------------
  // `_get_tx` (contract.py:717-733)
  // ---------------------------------------------------------------------

  /** A call argument or transaction field, as far as `_get_tx` looks. */
  datatype Value = Null | Int(i: int) | Str(s: string)

  datatype Arg = Positional(value: Value) | TxDict(fields: map<string, Value>)

  /** The keys a caller may use for `value`, `gas` and `gasPrice`. */
  const Aliases: seq<(string, string)> := [("amount", "value"), ("gas_limit", "gas"), ("gas_price", "gasPrice")]

  /** The default sender (contract.py:718-723): the owner, else the default
      account, and nobody when the active network says contracts have no
      default owner in test mode (`ownerless`). */
  function Sender(owner: Option<string>, defaultAccount: Option<string>, ownerless: bool): (r: Option<string>)
    ensures ownerless ==> r.None?
    ensures !ownerless && owner.Some? ==> r == owner
    ensures !ownerless && owner.None? ==> r == defaultAccount
  {
    if ownerless then None else if owner.Some? then owner else defaultAccount
  }

  function Defaults(sender: Option<string>): map<string, Value> {
    map["from" := (if sender.Some? then Str(sender.value) else Null), "value" := Int(0), "gas" := Null, "gasPrice" := Null]
  }

  /** The first `n` aliases copied onto their targets. */
  function Aliased(tx: map<string, Value>, n: nat): map<string, Value>
    requires n <= |Aliases|
  {
    if n == 0 then tx
    else
      var t := Aliased(tx, n - 1);
      var alias := Aliases[n - 1];
      if alias.0 in t then t[alias.1 := t[alias.0]] else t
  }

  /** The arguments and the transaction dict `_get_tx` returns. */
  function SplitTx(sender: Option<string>, args: seq<Arg>): (seq<Arg>, map<string, Value>) {
    if |args| > 0 && args[|args| - 1].TxDict? then
      (args[..|args| - 1], Aliased(Defaults(sender) + args[|args| - 1].fields, |Aliases|))
    else
      (args, Defaults(sender))
  }

  /** A field of the transaction a caller's dict asks for: an alias wins
      over its target, a given key over the default. */
  function Field(sender: Option<string>, fields: map<string, Value>, key: string): Option<Value> {
    if key == "value" && "amount" in fields then Some(fields["amount"])
    else if key == "gas" && "gas_limit" in fields then Some(fields["gas_limit"])
    else if key == "gasPrice" && "gas_price" in fields then Some(fields["gas_price"])
    else if key in fields then Some(fields[key])
    else if key in Defaults(sender) then Some(Defaults(sender)[key])
    else None
  }

  /** `_get_tx` with a trailing dict: the dict leaves the arguments, and
      every field of the transaction is the one `Field` describes. */
  lemma {:induction false} TxFields(sender: Option<string>, args: seq<Arg>, key: string)
    requires |args| > 0 && args[|args| - 1].TxDict?
    ensures SplitTx(sender, args).0 == args[..|args| - 1]
    ensures key in SplitTx(sender, args).1 <==> Field(sender, args[|args| - 1].fields, key).Some?
    ensures key in SplitTx(sender, args).1 ==> SplitTx(sender, args).1[key] == Field(sender, args[|args| - 1].fields, key).value
  {
    var fields := args[|args| - 1].fields;
    var merged := Defaults(sender) + fields;
    assert Aliased(merged, 0) == merged;
    var t1 := Aliased(merged, 1);
    var t2 := Aliased(merged, 2);
    var t3 := Aliased(merged, 3);
    assert t1 == if "amount" in merged then merged["value" := merged["amount"]] else merged;
    assert t2 == if "gas_limit" in t1 then t1["gas" := t1["gas_limit"]] else t1;
    assert t3 == if "gas_price" in t2 then t2["gasPrice" := t2["gas_price"]] else t2;
  }

  /** `_get_tx(owner, args)`. */
  method GetTx(owner: Option<string>, defaultAccount: Option<string>, ownerless: bool, args: seq<Arg>)
    returns (rest: seq<Arg>, tx: map<string, Value>)
    ensures (rest, tx) == SplitTx(Sender(owner, defaultAccount, ownerless), args)
    ensures !(|args| > 0 && args[|args| - 1].TxDict?) ==> rest == args && tx == Defaults(Sender(owner, defaultAccount, ownerless))
  {
    var sender := owner;
    if sender.None? {
      sender := defaultAccount;
    }
    if ownerless {
      sender := None;
    }
    tx := Defaults(sender);
    rest := args;
    if |args| > 0 && args[|args| - 1].TxDict? {
      tx := tx + args[|args| - 1].fields;
      rest := args[..|args| - 1];
      ghost var merged := tx;
      for k := 0 to |Aliases|
        invariant tx == Aliased(merged, k)
      {
        var (key, target) := Aliases[k];
        if key in tx {
          tx := tx[target := tx[key]];
        }
      }
    }
  }

  // ---------------------------------------------------------------------
  // Overloaded methods (contract.py:269, 541-552)
  // ---------------------------------------------------------------------

  /** The key an overload is stored under: its input types joined by commas,
      every `256` deleted. */
  function SigKey(types: seq<string>): string {
    ReplaceAll(Join(types, ","), "256", "")
  }

  /** What `OverloadedMethod[...]` is given: a tuple of types or a string. */
  datatype Selector = Types(types: seq<string>) | Spelled(key: string)

  /** The key `__getitem__` looks up: the tuple joined by commas, `256`
      deleted, and `", "` closed up to `","`. */
  function LookupKey(sel: Selector): string {
    ReplaceAll(ReplaceAll(Given(sel), "256", ""), ", ", ",")
  }

  /** The key as given: a tuple is joined by commas. */
  function Given(sel: Selector): string {
    match sel
    case Types(types) => Join(types, ",")
    case Spelled(key) => key
  }

  /** `OverloadedMethod.__getitem__`: KeyError when no overload has the
      key. */
  function GetOverload<M>(methods: map<string, M>, sel: Selector): (r: Result<M>)
    ensures r.Success? <==> LookupKey(sel) in methods
    ensures r.Success? ==> r.value == methods[LookupKey(sel)]
    ensures r.Failure? ==> r.error == KeyError
  {
    if LookupKey(sel) in methods then Success(methods[LookupKey(sel)]) else Failure(KeyError)
  }

  /** Looking an overload up by the types of its ABI finds the key it is
      stored under: ABI type names have no spaces. */
  lemma {:induction false} LookupByTypes(types: seq<string>)
    requires forall k :: 0 <= k < |types| ==> ' ' !in types[k]
    ensures LookupKey(Types(types)) == SigKey(types)
  {
    var joined := Join(types, ",");
    var s := ReplaceAll(joined, "256", "");
    assert ' ' !in s by {
      if ' ' in s {
        ReplaceDeleteChars(joined, "256", ' ');
        JoinChars(types, ",", ' ');
      }
    }
    forall i | 0 <= i <= |s|
      ensures !OccursAt(s, ", ", i)
    {
      if i + 2 <= |s| {
        assert s[i..i + 2][1] == s[i + 1];
      }
    }
    ReplaceAbsent(s, ", ", ",");
  }

  /** The key stored for a pair of ABI types whose first ends in `256`
      (`"uint256", "address"` is stored under `"uint,address"`). */
  lemma {:induction false} PairKey(t1: string, t2: string)
    requires '2' !in t1 && '2' !in t2
    ensures SigKey([t1 + "256", t2]) == t1 + "," + t2
  {
    var types := [t1 + "256", t2];
    assert types[1..] == [t2];
    assert Join(types, ",") == t1 + "256" + ("," + t2);
    ReplaceAfter(t1, "256", "," + t2, "");
    ReplaceUnstarted("," + t2, "256", "");
    assert t1 + "" + ("," + t2) == t1 + "," + t2;
  }

  /** The spelling a user types for such a pair, with a space after the
      comma (`"uint256, address"`), finds the key of the overload stored
      for the ABI types. */
  lemma {:induction false} SpelledLookup(t1: string, t2: string)
    requires '2' !in t1 && ',' !in t1 && '2' !in t2 && ',' !in t2
    ensures LookupKey(Spelled(t1 + "256, " + t2)) == SigKey([t1 + "256", t2])
  {
    PairKey(t1, t2);
    assert t1 + "256, " + t2 == t1 + "256" + (", " + t2);
    ReplaceAfter(t1, "256", ", " + t2, "");
    ReplaceUnstarted(", " + t2, "256", "");
    assert t1 + "" + (", " + t2) == t1 + ", " + t2;
    ReplaceAfter(t1, ", ", t2, ",");
    ReplaceUnstarted(t2, ", ", ",");
  }

  // ---------------------------------------------------------------------
  // Binding the ABI's functions (contract.py:252-276)
  // ---------------------------------------------------------------------

  /** A function of the ABI: its name and the types of its inputs. */
  datatype FnAbi = FnAbi(name: string, inputs: seq<string>)

  /** An attribute of a deployed contract: one of the class's own, a
      method, or the overloads of a name by key. */
  datatype Attr = Builtin | Method(abi: FnAbi) | Overloaded(methods: map<string, FnAbi>)

  /** `fn_names.count(name)` */
  function CountName(fns: seq<FnAbi>, name: string): nat
    decreases |fns|
  {
    if |fns| == 0 then 0
    else CountName(fns[..|fns| - 1], name) + (if fns[|fns| - 1].name == name then 1 else 0)
  }

  /** A name borne by two functions is counted at least twice, and one borne
      by any function at least once. */
  lemma {:induction false} CountAtLeast(fns: seq<FnAbi>, i: nat, j: nat)
    requires i < |fns| && j < |fns| && fns[i].name == fns[j].name
    ensures CountName(fns, fns[i].name) >= (if i == j then 1 else 2)
    decreases |fns|
  {
    var n := |fns| - 1;
    if i < n && j < n {
      CountAtLeast(fns[..n], i, j);
    } else if i < n {
      CountAtLeast(fns[..n], i, i);
    } else if j < n {
      CountAtLeast(fns[..n], j, j);
    }
  }

  /** `_check_and_set(name, obj)`: AttributeError on a name already taken. */
  function SetAttr(attrs: map<string, Attr>, name: string, obj: Attr): (r: Result<map<string, Attr>>)
    ensures r.Failure? <==> name in attrs
    ensures r.Failure? ==> r.error == AttributeError
    ensures r.Success? ==> r.value == attrs[name := obj]
  {
    if name in attrs then Failure(AttributeError) else Success(attrs[name := obj])
  }

  /** One pass of the binding loop for function `f` of `fns`. */
  function BindOne(attrs: map<string, Attr>, fns: seq<FnAbi>, f: FnAbi): Result<map<string, Attr>> {
    if CountName(fns, f.name) == 1 then SetAttr(attrs, f.name, Method(f))
    else
      var a :- if f.name in attrs then Success(attrs) else SetAttr(attrs, f.name, Overloaded(map[]));
      match a[f.name]
      case Overloaded(methods) => Success(a[f.name := Overloaded(methods[SigKey(f.inputs) := f])])
      case _ => Failure(AttributeError)
  }

  /** The attributes after binding the first `k` functions. */
  function Bind(attrs: map<string, Attr>, fns: seq<FnAbi>, k: nat): Result<map<string, Attr>>
    requires k <= |fns|
  {
    if k == 0 then Success(attrs)
    else
      var a :- Bind(attrs, fns, k - 1);
      BindOne(a, fns, fns[k - 1])
  }

  /** A name is counted no more often among the first `k` functions than
      among all of them. */
  lemma {:induction false} CountPrefix(fns: seq<FnAbi>, k: nat, name: string)
    requires k <= |fns|
    ensures CountName(fns[..k], name) <= CountName(fns, name)
    decreases |fns| - k
  {
    if k < |fns| {
      assert fns[..k + 1][..k] == fns[..k];
      CountPrefix(fns, k + 1, name);
    } else {
      assert fns[..k] == fns;
    }
  }

  /** What binding the first `k` functions without error keeps: the class's
      own attributes are untouched and no function bound so far bears one
      of their names; every other attribute is the name of a function bound
      so far, and holds overloads when the ABI has that name more than
      once. */
  ghost predicate Bound(attrs0: map<string, Attr>, fns: seq<FnAbi>, k: nat, attrs: map<string, Attr>)
    requires k <= |fns|
  {
    && (forall n :: n in attrs0 ==> n in attrs && attrs[n] == Builtin)
    && (forall i :: 0 <= i < k ==> fns[i].name !in attrs0)
    && (forall n :: n in attrs && n !in attrs0 ==>
          CountName(fns[..k], n) > 0 && (CountName(fns, n) != 1 ==> attrs[n].Overloaded?))
  }

  lemma {:induction false} BindStep(attrs0: map<string, Attr>, fns: seq<FnAbi>, k: nat, attrs: map<string, Attr>)
    requires k < |fns| && Bound(attrs0, fns, k, attrs)
    ensures BindOne(attrs, fns, fns[k]).Failure? <==> fns[k].name in attrs0
    ensures BindOne(attrs, fns, fns[k]).Failure? ==> BindOne(attrs, fns, fns[k]).error == AttributeError
    ensures BindOne(attrs, fns, fns[k]).Success? ==> Bound(attrs0, fns, k + 1, BindOne(attrs, fns, fns[k]).value)
  {
    var f := fns[k];
    var r := BindOne(attrs, fns, f);
    if f.name !in attrs0 {
      if CountName(fns, f.name) == 1 {
        CountPrefix(fns, k + 1, f.name);
        CountSnoc(fns, k, f.name);
        assert f.name !in attrs;
        assert r == Success(attrs[f.name := Method(f)]);
        BoundExtend(attrs0, fns, k, attrs, Method(f));
      } else {
        var a := if f.name in attrs then attrs else attrs[f.name := Overloaded(map[])];
        assert a[f.name].Overloaded?;
        var v := Overloaded(a[f.name].methods[SigKey(f.inputs) := f]);
        assert r == Success(a[f.name := v]);
        assert a[f.name := v] == attrs[f.name := v];
        BoundExtend(attrs0, fns, k, attrs, v);
      }
    }
  }

  /** Storing function `k`'s attribute under its name keeps `Bound`, when
      the name is not the class's own and the attribute holds overloads if
      the ABI has the name more than once. */
  lemma {:induction false} BoundExtend(attrs0: map<string, Attr>, fns: seq<FnAbi>, k: nat, attrs: map<string, Attr>, v: Attr)
    requires k < |fns| && Bound(attrs0, fns, k, attrs)
    requires fns[k].name !in attrs0
    requires CountName(fns, fns[k].name) != 1 ==> v.Overloaded?
    ensures Bound(attrs0, fns, k + 1, attrs[fns[k].name := v])
  {
    var b := attrs[fns[k].name := v];
    forall n | n in b && n !in attrs0
      ensures CountName(fns[..k + 1], n) > 0 && (CountName(fns, n) != 1 ==> b[n].Overloaded?)
    {
      CountSnoc(fns, k, n);
    }
  }

  /** Counting over one more function adds one when it bears the name. */
  lemma {:induction false} CountSnoc(fns: seq<FnAbi>, k: nat, name: string)
    requires k < |fns|
    ensures CountName(fns[..k + 1], name) == CountName(fns[..k], name) + (if fns[k].name == name then 1 else 0)
  {
    assert fns[..k + 1][..k] == fns[..k];
  }

  /** Binding without error keeps `Bound`. */
  lemma {:induction false} BindKeeps(attrs0: map<string, Attr>, fns: seq<FnAbi>, k: nat)
    requires k <= |fns|
    requires forall n :: n in attrs0 ==> attrs0[n] == Builtin
    requires Bind(attrs0, fns, k).Success?
    ensures Bound(attrs0, fns, k, Bind(attrs0, fns, k).value)
  {
    if k > 0 {
      BindKeeps(attrs0, fns, k - 1);
      BindStep(attrs0, fns, k - 1, Bind(attrs0, fns, k - 1).value);
    }
  }

  /** Binding fails, with AttributeError, exactly when a function is named
      like one of the class's own attributes. */
  lemma {:induction false} BindInvariant(attrs0: map<string, Attr>, fns: seq<FnAbi>, k: nat)
    requires k <= |fns|
    requires forall n :: n in attrs0 ==> attrs0[n] == Builtin
    ensures Bind(attrs0, fns, k).Failure? <==> exists i :: 0 <= i < k && fns[i].name in attrs0
    ensures Bind(attrs0, fns, k).Failure? ==> Bind(attrs0, fns, k).error == AttributeError
  {
    if k > 0 {
      BindInvariant(attrs0, fns, k - 1);
      var prev := Bind(attrs0, fns, k - 1);
      if prev.Failure? {
        var i :| 0 <= i < k - 1 && fns[i].name in attrs0;
        assert Bind(attrs0, fns, k) == prev;
        assert 0 <= i < k && fns[i].name in attrs0;
      } else {
        BindKeeps(attrs0, fns, k - 1);
        BindStep(attrs0, fns, k - 1, prev.value);
        assert Bind(attrs0, fns, k) == BindOne(prev.value, fns, fns[k - 1]);
        if fns[k - 1].name in attrs0 {
          assert 0 <= k - 1 < k && fns[k - 1].name in attrs0;
        }
      }
    }
  }

  /** Function `i` of the ABI can be reached in `attrs`: its name holds its
      method, or, when the ABI has the name more than once, overloads among
      which its key is. */
  predicate Reachable(fns: seq<FnAbi>, i: nat, attrs: map<string, Attr>)
    requires i < |fns|
  {
    && fns[i].name in attrs
    && (CountName(fns, fns[i].name) == 1 ==> attrs[fns[i].name] == Method(fns[i]))
    && (CountName(fns, fns[i].name) != 1 ==>
          attrs[fns[i].name].Overloaded? && SigKey(fns[i].inputs) in attrs[fns[i].name].methods)
  }

  /** Once bound, a function stays reachable as the later ones are bound. */
  lemma {:induction false} BindReach(attrs0: map<string, Attr>, fns: seq<FnAbi>, i: nat, k: nat)
    requires i < k <= |fns| && Bind(attrs0, fns, k).Success?
    ensures Reachable(fns, i, Bind(attrs0, fns, k).value)
    decreases k
  {
    if i < k - 1 {
      BindReach(attrs0, fns, i, k - 1);
      if fns[k - 1].name == fns[i].name {
        CountAtLeast(fns, i, k - 1);
      }
    }
  }

  /** Every overload is stored under its own key and its own name. */
  ghost predicate Keyed(attrs: map<string, Attr>) {
    forall n, key :: n in attrs && attrs[n].Overloaded? && key in attrs[n].methods ==>
      SigKey(attrs[n].methods[key].inputs) == key && attrs[n].methods[key].name == n
  }

  lemma {:induction false} BindKeyed(attrs0: map<string, Attr>, fns: seq<FnAbi>, k: nat)
    requires k <= |fns| && Keyed(attrs0) && Bind(attrs0, fns, k).Success?
    ensures Keyed(Bind(attrs0, fns, k).value)
  {
    if k > 0 {
      BindKeyed(attrs0, fns, k - 1);
    }
  }

  /** After binding, every function of the ABI can be reached: a name borne
      once holds its method, and the overload of a name borne more often is
      found by looking it up with its own input types. */
  lemma {:induction false} BoundReachable(attrs0: map<string, Attr>, fns: seq<FnAbi>, i: nat)
    requires i < |fns|
    requires forall n :: n in attrs0 ==> attrs0[n] == Builtin
    requires Bind(attrs0, fns, |fns|).Success?
    requires forall t :: 0 <= t < |fns[i].inputs| ==> ' ' !in fns[i].inputs[t]
    ensures fns[i].name in Bind(attrs0, fns, |fns|).value
    ensures var a := Bind(attrs0, fns, |fns|).value[fns[i].name];
      && (CountName(fns, fns[i].name) == 1 ==> a == Method(fns[i]))
      && (CountName(fns, fns[i].name) != 1 ==>
            && a.Overloaded?
            && GetOverload(a.methods, Types(fns[i].inputs)).Success?
            && SigKey(GetOverload(a.methods, Types(fns[i].inputs)).value.inputs) == SigKey(fns[i].inputs)
            && GetOverload(a.methods, Types(fns[i].inputs)).value.name == fns[i].name)
  {
    BindReach(attrs0, fns, i, |fns|);
    BindKeyed(attrs0, fns, |fns|);
    LookupByTypes(fns[i].inputs);
  }

  /** A deployed contract's attribute namespace. */
  class DeployedContract {
    var attrs: map<string, Attr>

    /** A contract whose class defines the attributes `builtins`. */
    constructor(builtins: set<string>)
      ensures attrs == map n | n in builtins :: Builtin
    {
      attrs := map n | n in builtins :: Builtin;
    }

    /** `_check_and_set(name, obj)` (contract.py:273-276). */
    method CheckAndSet(name: string, obj: Attr) returns (r: Result<()>)
      modifies this
      ensures r.Failure? <==> name in old(attrs)
      ensures r.Failure? ==> r.error == AttributeError && attrs == old(attrs)
      ensures r.Success? ==> attrs == old(attrs)[name := obj]
    {
      if name in attrs {
        return Failure(AttributeError);
      }
      attrs := attrs[name := obj];
      r := Success(());
    }

    /** The binding loop of the constructor (contract.py:252-271). */
    method BindMethods(fns: seq<FnAbi>) returns (r: Result<()>)
      modifies this
      ensures r.Success? <==> Bind(old(attrs), fns, |fns|).Success?
      ensures r.Success? ==> attrs == Bind(old(attrs), fns, |fns|).value
      ensures r.Failure? ==> r.error == Bind(old(attrs), fns, |fns|).error
    {
      ghost var attrs0 := attrs;
      for k := 0 to |fns|
        invariant Bind(attrs0, fns, k) == Success(attrs)
      {
        var f := fns[k];
        var count := CountName(fns, f.name);
        if count == 1 {
          r := CheckAndSet(f.name, Method(f));
          if r.Failure? {
            BindSticks(attrs0, fns, k + 1);
            return;
          }
          continue;
        }
        if f.name !in attrs {
          r := CheckAndSet(f.name, Overloaded(map[]));
        }
        match attrs[f.name]
        case Overloaded(methods) =>
          attrs := attrs[f.name := Overloaded(methods[SigKey(f.inputs) := f])];
        case _ =>
          BindSticks(attrs0, fns, k + 1);
          return Failure(AttributeError);
      }
      r := Success(());
    }
  }

  /** Once binding has failed it stays failed, with the same error. */
  lemma {:induction false} BindSticks(attrs: map<string, Attr>, fns: seq<FnAbi>, k: nat)
    requires k <= |fns| && Bind(attrs, fns, k).Failure?
    ensures Bind(attrs, fns, |fns|) == Bind(attrs, fns, k)
    decreases |fns| - k
  {
    if k < |fns| {
      BindSticks(attrs, fns, k + 1);
    }
  }

  // ---------------------------------------------------------------------
  // `get_method` (contract.py:68-70)
  // ---------------------------------------------------------------------

  /** The first entry from `i` on whose selector is `sel`. */
  function FirstWith(signatures: seq<(string, string)>, sel: string, i: nat): (r: Option<nat>)
    requires i <= |signatures|
    ensures r.Some? ==> i <= r.value < |signatures| && signatures[r.value].1 == sel
    ensures forall j :: i <= j < |signatures| && (r.None? || j < r.value) ==> signatures[j].1 != sel
    decreases |signatures| - i
  {
    if i == |signatures| then None
    else if signatures[i].1 == sel then Some(i)
    else FirstWith(signatures, sel, i + 1)
  }

  /** `get_method(calldata)`: the first function, in the order of the
      contract's `signatures`, whose selector is the first ten characters of
      the calldata lower-cased; None when there is none. */
  function GetMethod(signatures: seq<(string, string)>, calldata: string): (r: Option<string>)
    ensures r.None? <==> forall i :: 0 <= i < |signatures| ==> signatures[i].1 != Lower(Head(calldata, 10))
    ensures r.Some? ==> exists i :: && 0 <= i < |signatures|
                                    && signatures[i] == (r.value, Lower(Head(calldata, 10)))
                                    && forall j :: 0 <= j < i ==> signatures[j].1 != Lower(Head(calldata, 10))
  {
    var sel := Lower(Head(calldata, 10));
    match FirstWith(signatures, sel, 0)
    case None => None
    case Some(i) => Some(signatures[i].0)
  }

  // ---------------------------------------------------------------------
  // Library linking in `encode_input` (contract.py:212-222)
  // ---------------------------------------------------------------------

  /** `s.lstrip("_")` */
  function LStrip(s: string): (r: string)
    ensures |r| <= |s| && r == s[|s| - |r|..]
    ensures forall j :: 0 <= j < |s| - |r| ==> s[j] == '_'
    ensures r == [] || r[0] != '_'
    decreases |s|
  {
    if |s| > 0 && s[0] == '_' then LStrip(s[1..]) else s
  }

  /** `s.rstrip("_")` */
  function RStrip(s: string): (r: string)
    ensures |r| <= |s| && r == s[..|r|]
    ensures forall j :: |r| <= j < |s| ==> s[j] == '_'
    ensures r == [] || r[|r| - 1] != '_'
    decreases |s|
  {
    if |s| > 0 && s[|s| - 1] == '_' then RStrip(s[..|s| - 1]) else s
  }

  /** `marker.strip("_")` */
  function Strip(s: string): string {
    RStrip(LStrip(s))
  }

  /** Stripping the placeholder of a library gives back its name. */
  lemma {:induction false} StripPlaceholder(name: string)
    requires NoUnderscore(name) && 1 <= |name| <= 36
    ensures Strip(Placeholder(name)) == name
  {
    var ph := Placeholder(name);
    PlaceholderChars(name);
    var l := LStrip(ph);
    assert ph[2] == name[0];
    assert |l| == 38;
    assert l == ph[2..];
    var r := RStrip(l);
    assert l[|name| - 1] == name[|name| - 1];
    assert |r| == |name|;
    assert r == ph[2..2 + |name|];
  }

  /** `project[library][-1].address[-40:]`: KeyError for a library the
      project does not have, UndeployedLibrary when none of it is
      deployed. */
  function LibraryAddress(libraries: map<string, seq<string>>, library: string): (r: Result<string>)
    ensures r.Failure? <==> library !in libraries || |libraries[library]| == 0
    ensures r.Failure? ==> r.error == if library in libraries then UndeployedLibrary else KeyError
    ensures r.Success? ==> r.value == Last(libraries[library][|libraries[library]| - 1], 40)
  {
    if library !in libraries then Failure(KeyError)
    else if |libraries[library]| == 0 then Failure(UndeployedLibrary)
    else
      var addresses := libraries[library];
      Success(Last(addresses[|addresses| - 1], 40))
  }

  /** The bytecode after replacing the first `n` markers. */
  function Linked(bytecode: string, markers: seq<string>, libraries: map<string, seq<string>>): Result<string>
    decreases |markers|
  {
    if |markers| == 0 then Success(bytecode)
    else
      var b :- Linked(bytecode, markers[..|markers| - 1], libraries);
      var address :- LibraryAddress(libraries, Strip(markers[|markers| - 1]));
      Success(ReplaceAll(b, markers[|markers| - 1], address))
  }

  /** One more marker: the failed lookup of its library, or the bytecode
      with the marker replaced by the library's address. */
  lemma {:induction false} LinkedStep(bytecode: string, markers: seq<string>, libraries: map<string, seq<string>>, k: nat, b: string)
    requires k < |markers| && Linked(bytecode, markers[..k], libraries) == Success(b)
    ensures var address := LibraryAddress(libraries, Strip(markers[k]));
      && (address.Failure? ==> Linked(bytecode, markers[..k + 1], libraries) == Failure(address.error))
      && (address.Success? ==> Linked(bytecode, markers[..k + 1], libraries) == Success(ReplaceAll(b, markers[k], address.value)))
  {
    assert markers[..k + 1][..k] == markers[..k];
  }

  /** The marker loop of `encode_input(*args)`: every marker is replaced by
      the address of the latest deployment of its library. */
  method LinkLibraries(bytecode: string, libraries: map<string, seq<string>>) returns (r: Result<string>)
    ensures r == Linked(bytecode, Markers(bytecode, 0), libraries)
  {
    var markers := Markers(bytecode, 0);
    var b := bytecode;
    for k := 0 to |markers|
      invariant Linked(bytecode, markers[..k], libraries) == Success(b)
    {
      LinkedStep(bytecode, markers, libraries, k, b);
      var address := LibraryAddress(libraries, Strip(markers[k]));
      if address.Failure? {
        LinkedSticks(bytecode, markers, libraries, k + 1);
        return Failure(address.error);
      }
      b := ReplaceAll(b, markers[k], address.value);
    }
    assert markers[..|markers|] == markers;
    r := Success(b);
  }

  lemma {:induction false} LinkedSticks(bytecode: string, markers: seq<string>, libraries: map<string, seq<string>>, k: nat)
    requires k <= |markers| && Linked(bytecode, markers[..k], libraries).Failure?
    ensures Linked(bytecode, markers, libraries) == Linked(bytecode, markers[..k], libraries)
    decreases |markers| - k
  {
    if k < |markers| {
      assert markers[..k + 1][..k] == markers[..k];
      LinkedSticks(bytecode, markers, libraries, k + 1);
    } else {
      assert markers[..k] == markers;
    }
  }

  /** A marker whose library the project does not have or has not
      deployed. */
  predicate Unlinkable(libraries: map<string, seq<string>>, marker: string) {
    LibraryAddress(libraries, Strip(marker)).Failure?
  }

  /** A marker whose library cannot be found makes the linking fail. */
  lemma {:induction false} LinkedFailsAt(bytecode: string, markers: seq<string>, libraries: map<string, seq<string>>, k: nat)
    requires k < |markers| && Unlinkable(libraries, markers[k])
    ensures Linked(bytecode, markers, libraries).Failure?
  {
    var prev := Linked(bytecode, markers[..k], libraries);
    if prev.Success? {
      LinkedStep(bytecode, markers, libraries, k, prev.value);
    } else {
      assert markers[..k + 1][..k] == markers[..k];
    }
    LinkedSticks(bytecode, markers, libraries, k + 1);
  }

  /** When every marker's library is deployed, linking succeeds. */
  lemma {:induction false} LinkedSucceeds(bytecode: string, markers: seq<string>, libraries: map<string, seq<string>>)
    requires forall k :: 0 <= k < |markers| ==> !Unlinkable(libraries, markers[k])
    ensures Linked(bytecode, markers, libraries).Success?
    decreases |markers|
  {
    if |markers| > 0 {
      var n := |markers| - 1;
      var init := markers[..n];
      assert markers[..n + 1] == markers;
      forall k | 0 <= k < n
        ensures !Unlinkable(libraries, init[k])
      {
        assert init[k] == markers[k];
      }
      LinkedSucceeds(bytecode, init, libraries);
      LinkedStep(bytecode, markers, libraries, n, Linked(bytecode, init, libraries).value);
    }
  }

  /** Linking fails exactly when a marker names a library the project does
      not have or has not deployed. */
  lemma {:induction false} LinkedFails(bytecode: string, markers: seq<string>, libraries: map<string, seq<string>>)
    ensures Linked(bytecode, markers, libraries).Failure? <==>
      exists k :: 0 <= k < |markers| && Unlinkable(libraries, markers[k])
  {
    if exists k :: 0 <= k < |markers| && Unlinkable(libraries, markers[k]) {
      var k :| 0 <= k < |markers| && Unlinkable(libraries, markers[k]);
      LinkedFailsAt(bytecode, markers, libraries, k);
    } else {
      LinkedSucceeds(bytecode, markers, libraries);
    }
  }

  /** Linking writes only characters of the bytecode and of the library
      addresses. */
  lemma {:induction false} LinkedChars(bytecode: string, markers: seq<string>, libraries: map<string, seq<string>>, ch: char)
    requires forall k :: 0 <= k < |markers| ==> markers[k] != ""
    requires Linked(bytecode, markers, libraries).Success? && ch in Linked(bytecode, markers, libraries).value
    ensures ch in bytecode || exists k :: && 0 <= k < |markers|
                                           && LibraryAddress(libraries, Strip(markers[k])).Success?
                                           && ch in LibraryAddress(libraries, Strip(markers[k])).value
    decreases |markers|
  {
    if |markers| > 0 {
      var n := |markers| - 1;
      var init := markers[..n];
      assert markers[..n + 1] == markers;
      var prev := Linked(bytecode, init, libraries);
      assert prev.Success?;
      LinkedStep(bytecode, markers, libraries, n, prev.value);
      var address := LibraryAddress(libraries, Strip(markers[n]));
      ReplaceChars(prev.value, markers[n], address.value, ch);
      if ch !in address.value {
        LinkedChars(bytecode, init, libraries, ch);
        if ch !in bytecode {
          var k :| 0 <= k < |init| && LibraryAddress(libraries, Strip(init[k])).Success?
                   && ch in LibraryAddress(libraries, Strip(init[k])).value;
          assert markers[k] == init[k];
        }
      }
    }
  }

  /** Replacing a pattern that starts with `_` in text that has a single
      `_`-led occurrence of it. */
  lemma {:induction false} ReplaceOnce(h1: string, pat: string, h2: string, repl: string)
    requires NoUnderscore(h1) && NoUnderscore(h2) && |pat| > 0 && pat[0] == '_'
    ensures ReplaceAll(h1 + pat + h2, pat, repl) == h1 + repl + h2
  {
    ReplaceAfter(h1, pat, h2, repl);
    ReplaceUnstarted(h2, pat, repl);
  }

  /** The compile half of the round trip: `format_link_references` writes
      the library's placeholder into its slot and leaves the rest. */
  lemma {:induction false} PlaceholderWritten(h1: string, slot: string, h2: string, name: string)
    requires |slot| == 40 && |h1| % 2 == 0
    ensures FormatLinkReferences(h1 + slot + h2, [(name, [|h1| / 2])]) == h1 + Placeholder(name) + h2
  {
    SingleSlot(name, |h1| / 2);
    SingleSplice(h1 + slot + h2, name, |h1|);
    SpliceSlot(h1, slot, h2, name);
  }

  /** One library with one slot at byte `start` gives one hex position. */
  lemma {:induction false} SingleSlot(name: string, start: nat)
    ensures Slots([(name, [start])]) == [(name, start * 2)]
  {
    var refs: References := [(name, [start])];
    assert refs[..0] == [];
  }

  /** Splicing a single slot is one `Splice`. */
  lemma {:induction false} SingleSplice(s: string, name: string, loc: nat)
    ensures SpliceAll(s, [(name, loc)]) == Splice(s, name, loc)
  {
    var slots := [(name, loc)];
    assert slots[..0] == [];
  }

  /** A slot of 40 characters after `h1` is replaced by the placeholder. */
  lemma {:induction false} SpliceSlot(h1: string, slot: string, h2: string, name: string)
    requires |slot| == 40
    ensures Splice(h1 + slot + h2, name, |h1|) == h1 + Placeholder(name) + h2
  {
    var s := h1 + slot + h2;
    assert Head(s, |h1|) == h1 && Tail(s, |h1| + 40) == h2;
  }

  /** The deploy half: the placeholder is the one marker found, and linking
      replaces it with the library's address. */
  lemma {:induction false} PlaceholderLinked(h1: string, h2: string, name: string, libraries: map<string, seq<string>>)
    requires NoUnderscore(h1) && NoUnderscore(h2) && NoUnderscore(name) && 1 <= |name| <= 36
    requires name in libraries && |libraries[name]| > 0
    ensures Linked(h1 + Placeholder(name) + h2, Markers(h1 + Placeholder(name) + h2, 0), libraries)
      == Success(h1 + Last(libraries[name][|libraries[name]| - 1], 40) + h2)
  {
    var ph := Placeholder(name);
    PlaceholderMarker(h1, name, h2);
    StripPlaceholder(name);
    PlaceholderChars(name);
    var single: seq<string> := [ph];
    assert single[..0] == [];
    ReplaceOnce(h1, ph, h2, Last(libraries[name][|libraries[name]| - 1], 40));
  }

  /** Compiling then deploying: the slot `format_link_references` fills
      with a library's placeholder is the one `encode_input` fills with the
      address of that library's latest deployment, and nothing else
      changes. */
  lemma {:induction false} LinkRoundTrip(h1: string, slot: string, h2: string, name: string, libraries: map<string, seq<string>>)
    requires NoUnderscore(h1) && NoUnderscore(h2) && NoUnderscore(name) && 1 <= |name| <= 36
    requires |slot| == 40 && |h1| % 2 == 0
    requires name in libraries && |libraries[name]| > 0
    ensures var compiled := FormatLinkReferences(h1 + slot + h2, [(name, [|h1| / 2])]);
      && compiled == h1 + Placeholder(name) + h2
      && Linked(compiled, Markers(compiled, 0), libraries) == Success(h1 + Last(libraries[name][|libraries[name]| - 1], 40) + h2)
  {
    PlaceholderWritten(h1, slot, h2, name);
    PlaceholderLinked(h1, h2, name, libraries);
  }

  // ---------------------------------------------------------------------
  // `ContractContainer` (contract.py:73-167)
  // ---------------------------------------------------------------------

  /** `__eq__` of deployed contracts (contract.py:287-289): the same address
      and the same code. */
  predicate Same(a: ChainState.Deployed, b: ChainState.Deployed) {
    a.address == b.address && a.bytecode == b.bytecode
  }

  /** The index of the first contract equal to `c`. */
  function IndexOf(s: seq<ChainState.Deployed>, c: ChainState.Deployed): (r: Option<nat>)
    ensures r.Some? ==> r.value < |s| && Same(s[r.value], c)
    ensures forall j :: 0 <= j < |s| && (r.None? || j < r.value) ==> !Same(s[j], c)
    decreases |s|
  {
    if |s| == 0 then None
    else if Same(s[0], c) then Some(0)
    else match IndexOf(s[1..], c)
      case None => None
      case Some(i) => Some(i + 1)
  }

  /** A function of the ABI is named like an attribute the contract class
      defines itself, which makes binding raise AttributeError. */
  predicate Collides(builtins: set<string>, fns: seq<FnAbi>) {
    exists i :: 0 <= i < |fns| && fns[i].name in builtins
  }

  /** The container of the deployed contracts of one contract type of a
      project; the registry is shared by every container. */
  class ContractContainer {
    const name: string
    const project: string
    const dependencies: seq<string>
    /** The functions of the build's ABI, in order. */
    const fns: seq<FnAbi>
    /** The attributes the project contract class defines itself. */
    const builtins: set<string>
    /** The build's `deployedBytecode` and `language`. */
    const deployedBytecode: string
    const language: string
    var contracts: seq<ChainState.Deployed>
    const registry: ChainState.Registry

    /** Every contract held belongs to a project and is the one registered
        at its address, and no two share an address. */
    ghost predicate Valid()
      reads this, registry
    {
      && (forall i :: 0 <= i < |contracts| ==> contracts[i].project.Some?)
      && (forall i :: 0 <= i < |contracts| ==>
            contracts[i].address in registry.contracts && registry.contracts[contracts[i].address] == contracts[i])
      && (forall i, j :: 0 <= i < j < |contracts| ==> contracts[i].address != contracts[j].address)
    }

    constructor(name: string, project: string, dependencies: seq<string>, fns: seq<FnAbi>, builtins: set<string>,
                deployedBytecode: string, language: string, registry: ChainState.Registry)
      ensures this.name == name && this.project == project && this.dependencies == dependencies
      ensures this.fns == fns && this.builtins == builtins
      ensures this.deployedBytecode == deployedBytecode && this.language == language
      ensures this.registry == registry && contracts == []
      ensures Valid()
    {
      this.name := name;
      this.project := project;
      this.dependencies := dependencies;
      this.fns := fns;
      this.builtins := builtins;
      this.deployedBytecode := deployedBytecode;
      this.language := language;
      this.registry := registry;
      contracts := [];
    }

    /** `remove(contract)` (contract.py:124-133): TypeError when no contract
        held equals it; otherwise the first equal one leaves the list, and
        the contract leaves the registry (KeyError if it is not there). */
    method Remove(c: ChainState.Deployed) returns (r: Result<()>)
      modifies this, registry
      ensures IndexOf(old(contracts), c).None? ==>
        r == Failure(TypeError) && contracts == old(contracts) && registry.contracts == old(registry.contracts)
      ensures IndexOf(old(contracts), c).Some? ==>
        var i := IndexOf(old(contracts), c).value;
        && contracts == old(contracts)[..i] + old(contracts)[i + 1..]
        && (c.address in old(registry.contracts) ==> r.Success? && registry.contracts == old(registry.contracts) - {c.address})
        && (c.address !in old(registry.contracts) ==> r == Failure(KeyError) && registry.contracts == old(registry.contracts))
      ensures old(Valid()) ==> Valid() && (r.Success? || r == Failure(TypeError))
    {
      var found := IndexOf(contracts, c);
      if found.None? {
        return Failure(TypeError);
      }
      if Valid() {
        RemoveKeepsValid(contracts, registry.contracts, c);
      }
      var i := found.value;
      contracts := contracts[..i] + contracts[i + 1..];
      r := registry.RemoveContract(c);
    }

    /** `at(address)` (contract.py:135-167), with `code` the code found at
        the address: a project contract already registered there is
        returned when it is of this type and project, and ContractExists
        otherwise; empty code raises ContractNotFound; binding the ABI's
        functions in the new contract's constructor raises AttributeError
        when one is named like an attribute of the class; checking the code
        against the build with `_verify_deployed_code` raises ValueError
        when a marker is gone or the metadata length is unreadable;
        otherwise a new contract is registered and appended (a `false`
        answer of the check only drops the trace data). */
    method At(address: string, code: string) returns (r: Result<ChainState.Deployed>)
      modifies this, registry
      ensures var found := address in old(registry.contracts) && old(registry.contracts)[address].project.Some?;
        && (found ==> var c := old(registry.contracts)[address];
              && r == (if c.name == name && c.project == Some(project) then Success(c) else Failure(ContractExists))
              && contracts == old(contracts) && registry.contracts == old(registry.contracts))
        && (!found && code == "" ==>
              r == Failure(ContractNotFound) && contracts == old(contracts) && registry.contracts == old(registry.contracts))
        && (!found && code != "" && Collides(builtins, fns) ==>
              r == Failure(AttributeError) && contracts == old(contracts) && registry.contracts == old(registry.contracts))
        && (!found && code != "" && !Collides(builtins, fns)
              && VerifiedCode(address, deployedBytecode, language, code).Failure? ==>
              r == Failure(ValueError) && contracts == old(contracts) && registry.contracts == old(registry.contracts))
        && (!found && code != "" && !Collides(builtins, fns)
              && VerifiedCode(address, deployedBytecode, language, code).Success? ==>
              var c := ChainState.Deployed(name, Some(project), address, code, dependencies);
              && r == Success(c)
              && contracts == old(contracts) + [c]
              && registry.contracts == old(registry.contracts)[address := c])
      ensures old(Valid()) ==> Valid()
    {
      if address in registry.contracts && registry.contracts[address].project.Some? {
        var c := registry.contracts[address];
        if c.name == name && c.project == Some(project) {
          return Success(c);
        }
        return Failure(ContractExists);
      }
      if code == "" {
        return Failure(ContractNotFound);
      }
      var deployed := new DeployedContract(builtins);
      var bound := deployed.BindMethods(fns);
      BindInvariant(map n | n in builtins :: Builtin, fns, |fns|);
      if bound.Failure? {
        return Failure(bound.error);
      }
      var verified := VerifyDeployedCode(address, deployedBytecode, language, code);
      if verified.Failure? {
        return Failure(verified.error);
      }
      var c := ChainState.Deployed(name, Some(project), address, code, dependencies);
      if Valid() {
        AtKeepsValid(contracts, registry.contracts, c);
      }
      registry.AddContract(c);
      contracts := contracts + [c];
      r := Success(c);
    }
  }

  /** `remove` of a contract the container holds succeeds and keeps the
      container consistent with the registry. */
  lemma {:induction false} RemoveKeepsValid(contracts: seq<ChainState.Deployed>, registered: map<string, ChainState.Deployed>, c: ChainState.Deployed)
    requires forall i :: 0 <= i < |contracts| ==> contracts[i].address in registered && registered[contracts[i].address] == contracts[i]
    requires forall i, j :: 0 <= i < j < |contracts| ==> contracts[i].address != contracts[j].address
    requires IndexOf(contracts, c).Some?
    ensures c.address in registered
    ensures var i := IndexOf(contracts, c).value;
      var rest := contracts[..i] + contracts[i + 1..];
      && (forall k :: 0 <= k < |rest| ==> rest[k].address in registered - {c.address} && (registered - {c.address})[rest[k].address] == rest[k])
      && (forall k, l :: 0 <= k < l < |rest| ==> rest[k].address != rest[l].address)
  {
    var i := IndexOf(contracts, c).value;
    var rest := contracts[..i] + contracts[i + 1..];
    forall k | 0 <= k < |rest|
      ensures rest[k].address != c.address && rest[k] == contracts[if k < i then k else k + 1]
    {
      if k < i {
        assert rest[k] == contracts[k];
      } else {
        assert rest[k] == contracts[k + 1];
      }
    }
    forall k, l | 0 <= k < l < |rest|
      ensures rest[k].address != rest[l].address
    {
      var k' := if k < i then k else k + 1;
      var l' := if l < i then l else l + 1;
      assert rest[k] == contracts[k'] && rest[l] == contracts[l'];
    }
  }

  /** `at` keeps the container consistent with the registry. */
  lemma {:induction false} AtKeepsValid(contracts: seq<ChainState.Deployed>, registered: map<string, ChainState.Deployed>, c: ChainState.Deployed)
    requires forall i :: 0 <= i < |contracts| ==> contracts[i].address in registered && registered[contracts[i].address] == contracts[i]
    requires forall i, j :: 0 <= i < j < |contracts| ==> contracts[i].address != contracts[j].address
    requires forall i :: 0 <= i < |contracts| ==> contracts[i].project.Some?
    requires !(c.address in registered && registered[c.address].project.Some?)
    ensures var now := contracts + [c];
      var reg := registered[c.address := c];
      && (forall i :: 0 <= i < |now| ==> now[i].address in reg && reg[now[i].address] == now[i])
      && (forall i, j :: 0 <= i < j < |now| ==> now[i].address != now[j].address)
  {
    var now := contracts + [c];
    forall i | 0 <= i < |contracts|
      ensures contracts[i].address != c.address
    {
      assert registered[contracts[i].address].project.Some?;
    }
    forall i, j | 0 <= i < j < |now|
      ensures now[i].address != now[j].address
    {
      assert now[i] == contracts[i];
      if j < |contracts| {
        assert now[j] == contracts[j];
      }
    }
  }
}
