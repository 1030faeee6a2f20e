/** Decoding of the Solidity compiler's compressed source map
    (brownie/project/compiler.py, `_generate_pcMap`, lines 147-165).

    The map is a `;`-separated list of fields `start:length:file:jump`, one per
    instruction.  An empty field repeats the previous entry; in a non-empty
    field each empty component repeats the previous entry's component.  The
    first field must give at least the three integer components. */
module SourceMap {
  import opened Wrappers
  import opened Text

  /** One resolved entry.  `jump` is `None` only when the first field stopped
      after three components and nothing has supplied a jump kind since; the
      pc map builder fails on such an entry (compiler.py:164, 167). */
  datatype Entry = Entry(start: int, length: int, file: int, jump: Option<string>)

  /** The `:`-separated pieces of a field. */
  function Pieces(field: string): seq<string> {
    Split(field, ':')
  }

  /** The `k`-th component of a field: its `k`-th piece, or "" past the end. */
  function Component(field: string, k: nat): string {
    if k < |Pieces(field)| then Pieces(field)[k] else ""
  }

  /** The field padded to exactly four components. */
  function Padded(field: string): (c: seq<string>)
    ensures |c| == 4
  {
    [Component(field, 0), Component(field, 1), Component(field, 2), Component(field, 3)]
  }

  /** The padding is `(field + ":::").split(':')[:4]` (compiler.py:161). */
  lemma {:induction false} PaddedSplit(field: string)
    ensures |Split(field + ":::", ':')| >= 4 && Padded(field) == Split(field + ":::", ':')[..4]
  {
    SplitAppendSeparator(field, ':');
    SplitAppendSeparator(field + ":", ':');
    SplitAppendSeparator(field + "::", ':');
    assert field + ":::" == field + "::" + ":";
    assert field + "::" == field + ":" + ":";
    assert Split(field + ":::", ':') == Pieces(field) + ["", "", ""];
  }

  /** `int(component or previous)` (compiler.py:163). */
  function IntOrInherit(component: string, previous: int): (r: Result<int>)
    ensures component == "" ==> r == Success(previous)
    ensures component != "" ==> (r.Success? <==> ParseInt(component).Some?)
    ensures component != "" && r.Success? ==> r.value == ParseInt(component).value
  {
    if component == "" then Success(previous)
    else match ParseInt(component)
      case Some(v) => Success(v)
      case None => Failure(ValueError)
  }

  /** Resolves a field after the first against the previous entry
      (compiler.py:160-165). */
  function Resolve(last: Entry, field: string): Result<Entry> {
    if field == "" then Success(last)
    else
      var c := Padded(field);
      var start :- IntOrInherit(c[0], last.start);
      var length :- IntOrInherit(c[1], last.length);
      var file :- IntOrInherit(c[2], last.file);
      Success(Entry(start, length, file, if c[3] == "" then last.jump else Some(c[3])))
  }

  /** The first field: its first three pieces must exist (IndexError) and be
      integers (ValueError); a fourth piece, if present, is the jump kind
      (compiler.py:147-149). */
  function First(field: string): Result<Entry> {
    var p := Pieces(field);
    var start :- FirstInt(p, 0);
    var length :- FirstInt(p, 1);
    var file :- FirstInt(p, 2);
    Success(Entry(start, length, file, if |p| > 3 then Some(p[3]) else None))
  }

  function FirstInt(pieces: seq<string>, k: nat): Result<int> {
    if k >= |pieces| then Failure(IndexError)
    else match ParseInt(pieces[k])
      case Some(v) => Success(v)
      case None => Failure(ValueError)
  }

  /** The entries of the first `|fields|` fields, one per field. */
  function DecodeFields(fields: seq<string>): (r: Result<seq<Entry>>)
    requires |fields| >= 1
    ensures r.Success? ==> |r.value| == |fields|
    decreases |fields|
  {
    if |fields| == 1 then
      var e :- First(fields[0]);
      Success([e])
    else
      var prev :- DecodeFields(fields[..|fields| - 1]);
      var e :- Resolve(prev[|prev| - 1], fields[|fields| - 1]);
      Success(prev + [e])
  }

  /** One more field extends a successful decoding by the entry that field
      resolves to against the last one. */
  lemma {:induction false} DecodeFieldsExtend(fields: seq<string>, es: seq<Entry>, field: string, e: Entry)
    requires |fields| >= 1 && DecodeFields(fields) == Success(es)
    requires Resolve(es[|es| - 1], field) == Success(e)
    ensures DecodeFields(fields + [field]) == Success(es + [e])
  {
    var longer := fields + [field];
    assert longer[..|longer| - 1] == fields;
    assert longer[|longer| - 1] == field;
  }

  /** The decoded source map: one entry per `;`-separated field. */
  function Decode(sourceMap: string): Result<seq<Entry>> {
    DecodeFields(Split(sourceMap, ';'))
  }

  /** Decoding succeeds exactly when the first field and every later field
      resolve; entry 0 comes from the first field and each later entry is the
      previous one updated by its own field. */
  lemma {:induction false} DecodeFieldsAt(fields: seq<string>, k: nat)
    requires 1 <= |fields| && k < |fields|
    requires DecodeFields(fields).Success?
    ensures DecodeFields(fields[..k + 1]).Success?
    ensures DecodeFields(fields[..k + 1]).value == DecodeFields(fields).value[..k + 1]
    ensures k == 0 ==> First(fields[0]) == Success(DecodeFields(fields).value[0])
    ensures k > 0 ==> Resolve(DecodeFields(fields).value[k - 1], fields[k]) == Success(DecodeFields(fields).value[k])
    decreases |fields|
  {
    var es := DecodeFields(fields).value;
    if k + 1 < |fields| {
      var init := fields[..|fields| - 1];
      DecodeFieldsAt(init, k);
      assert init[..k + 1] == fields[..k + 1];
      assert DecodeFields(init).value == es[..|fields| - 1];
    } else {
      assert fields[..k + 1] == fields;
      if k > 0 {
        assert fields[..|fields| - 1][..k] == fields[..k];
      }
    }
  }

  /** An empty field repeats the previous entry unchanged. */
  lemma EmptyFieldRepeats(fields: seq<string>, k: nat)
    requires 1 <= k < |fields| && fields[k] == ""
    requires DecodeFields(fields).Success?
    ensures DecodeFields(fields).value[k] == DecodeFields(fields).value[k - 1]
  {
    DecodeFieldsAt(fields, k);
  }

  /** In a non-empty field a component that is present is read as an integer
      (so "0" sets the value to zero), and a component that is empty or missing
      repeats the previous entry's value. */
  lemma ComponentInheritance(last: Entry, field: string)
    requires field != "" && Resolve(last, field).Success?
    ensures var e := Resolve(last, field).value;
      && e.start == (if Component(field, 0) == "" then last.start else ParseInt(Component(field, 0)).value)
      && e.length == (if Component(field, 1) == "" then last.length else ParseInt(Component(field, 1)).value)
      && e.file == (if Component(field, 2) == "" then last.file else ParseInt(Component(field, 2)).value)
      && e.jump == (if Component(field, 3) == "" then last.jump else Some(Component(field, 3)))
  {
  }
}
