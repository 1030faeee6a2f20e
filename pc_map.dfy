/** The program-counter map (brownie/project/compiler.py, `_generate_pcMap`,
    lines 114-186): the opcode listing is walked in step with the decoded
    source map, and every instruction gets an entry keyed by its program
    counter. */
module PcMap {
  import opened Wrappers
  import opened Text
  import SourceMap

  /** One pc map entry.  Absent keys of the source's dict are `None`;
      `coverageIndex` is filled in later by the coverage map builder. */
  datatype PcEntry = PcEntry(
    op: string,
    value: Option<string>,
    path: Option<string>,
    offset: Option<(int, int)>,
    jump: Option<string>,
    fn: Option<string>,
    coverageIndex: Option<nat>)

  /** What `_generate_pcMap` produces for one contract: the pc map and the
      set behind `allSourcePaths`. */
  datatype Built = Built(pcMap: map<int, PcEntry>, paths: set<string>)

  /** `opcodes[:-1]`. */
  function DropLast(s: string): string {
    if |s| == 0 then s else s[..|s| - 1]
  }

  /** The trailing-STOP loop can go no further: either no " STOP" is left
      before the last character, or the region from the last one contains a
      JUMPDEST (compiler.py:137-143). */
  predicate StopStripped(s: string) {
    match RFind(DropLast(s), " STOP")
    case None => true
    case Some(i) => Contains(s[i..], "JUMPDEST")
  }

  /** A JUMPDEST cannot straddle a space: if it occurs neither in
      `s[i..n]` nor in `s[m..]`, and `s[m]` is a space inside `[i, n)`, it does
      not occur in `s[i..]`. */
  lemma {:induction false} NoJumpdestAcrossSpace(s: string, i: nat, m: nat, n: nat)
    requires i <= m < n <= |s| && s[m] == ' '
    requires !Contains(s[i..n], "JUMPDEST") && !Contains(s[m..], "JUMPDEST")
    ensures !Contains(s[i..], "JUMPDEST")
  {
    var w := "JUMPDEST";
    forall q | 0 <= q <= |s[i..]| ensures !OccursAt(s[i..], w, q) {
      if OccursAt(s[i..], w, q) {
        var a := i + q;
        assert s[a..a + 8] == w;
        if a + 8 <= n {
          assert s[i..n][q..q + 8] == s[a..a + 8];
          assert OccursAt(s[i..n], w, q);
        } else if m <= a {
          assert s[m..][a - m..a - m + 8] == s[a..a + 8];
          assert OccursAt(s[m..], w, a - m);
        }
      }
    }
  }

  /** `r` is the listing cut, if at all, just after a " STOP" whose region
      holds no JUMPDEST. */
  predicate CutOverPadding(opcodes: string, r: string) {
    && StartsWith(opcodes, r)
    && (r != opcodes ==> EndsWith(r, " STOP") && !Contains(opcodes[|r| - 5..], "JUMPDEST"))
  }

  /** One pass of the STOP loop: cutting `r` after the " STOP" found at `i`
      keeps a prefix of the listing ending in " STOP", and the whole region
      cut so far holds no JUMPDEST. */
  lemma {:induction false} StripStep(opcodes: string, r: string, i: nat)
    requires CutOverPadding(opcodes, r)
    requires OccursAt(DropLast(r), " STOP", i) && !Contains(r[i..], "JUMPDEST")
    ensures i + 5 < |r| && CutOverPadding(opcodes, r[..i + 5])
  {
    assert DropLast(r)[i..i + 5] == r[i..i + 5] == " STOP";
    assert r[..i + 5] == opcodes[..i + 5];
    assert r[..i + 5][i..] == " STOP";
    if r != opcodes {
      assert opcodes[|r| - 5] == r[|r| - 5] == ' ';
      assert opcodes[i..|r|] == r[i..];
      NoJumpdestAcrossSpace(opcodes, i, |r| - 5, |r|);
    } else {
      assert opcodes[i..] == r[i..];
    }
    assert opcodes[|r[..i + 5]| - 5..] == opcodes[i..];
  }

  /** The listing with its trailing STOP padding stripped
      (compiler.py:137-144): while a " STOP" occurs before the last character
      and the region from the last such occurrence holds no JUMPDEST, cut the
      listing just after that " STOP". */
  function StripStop(s: string): string
    decreases |s|
  {
    match RFind(DropLast(s), " STOP")
    case None => s
    case Some(i) =>
      if Contains(s[i..], "JUMPDEST") then s
      else
        assert OccursAt(DropLast(s), " STOP", i);
        StripStop(s[..i + 5])
  }

  /** Stripping a listing already cut over padding only cuts over padding,
      and strips everything it can. */
  lemma {:induction false} StripStopFrom(opcodes: string, r: string)
    requires CutOverPadding(opcodes, r)
    ensures CutOverPadding(opcodes, StripStop(r)) && StopStripped(StripStop(r))
    decreases |r|
  {
    var i := StripStopUnfold(r);
    if i != -1 {
      StripStep(opcodes, r, i);
      StripStopFrom(opcodes, r[..i + 5]);
    }
  }

  /** The stripped listing is a prefix of the original; when anything was
      cut it ends in " STOP" and the cut region holds no JUMPDEST; and no
      further STOP can be stripped. */
  lemma {:induction false} StripStopMeaning(opcodes: string)
    ensures var t := StripStop(opcodes);
      && StartsWith(opcodes, t) && StopStripped(t)
      && (t != opcodes ==> EndsWith(t, " STOP") && !Contains(opcodes[|t| - 5..], "JUMPDEST"))
  {
    StripStopFrom(opcodes, opcodes);
  }

  /** One unfolding of `StripStop`: either nothing more is stripped
      (`i == -1`), or the listing is cut after the " STOP" at `i`. */
  lemma {:induction false} StripStopUnfold(r: string) returns (i: int)
    ensures i == -1 ==> StripStop(r) == r && StopStripped(r)
    ensures i != -1 ==> && 0 <= i && OccursAt(DropLast(r), " STOP", i) && !Contains(r[i..], "JUMPDEST")
                        && StripStop(r) == StripStop(r[..i + 5])
  {
    match RFind(DropLast(r), " STOP")
    case None =>
      i := -1;
      assert StripStop(r) == r;
    case Some(j) =>
      if Contains(r[j..], "JUMPDEST") {
        i := -1;
        assert StripStop(r) == r;
      } else {
        i := j;
        assert StripStop(r) == StripStop(r[..j + 5]);
      }
  }

  /** The STOP loop of compiler.py:137-144. */
  method StripStopPadding(opcodes: string) returns (r: string)
    ensures r == StripStop(opcodes)
  {
    r := opcodes;
    while true
      invariant StripStop(r) == StripStop(opcodes)
      decreases |r|
    {
      var found := RFind(DropLast(r), " STOP");
      if found.None? {
        break;
      }
      var i := found.value;
      if Contains(r[i..], "JUMPDEST") {
        break;
      }
      assert OccursAt(DropLast(r), " STOP", i);
      r := r[..i + 5];
    }
  }

  /** The operand bytes skipped after `op`: n for PUSHn; a PUSH whose suffix
      is not a number raises ValueError (compiler.py:157-158). */
  function PushWidth(op: string): Result<nat> {
    if StartsWith(op, "PUSH") then
      match ParseNat(op[4..])
      case Some(n) => Success(n)
      case None => Failure(ValueError)
    else Success(0)
  }

  /** The tokens of the opcode listing an entry took: its opcode, then its
      operand if it has one. */
  function TokensOf(entry: PcEntry): seq<string> {
    [entry.op] + (if entry.value.Some? then [entry.value.value] else [])
  }

  /** The tokens taken by a run of entries, in order. */
  function Tokens(entries: seq<PcEntry>): seq<string>
    decreases |entries|
  {
    if |entries| == 0 then [] else Tokens(entries[..|entries| - 1]) + TokensOf(entries[|entries| - 1])
  }

  /** Entry 0 (compiler.py:150-155): an offset and a path whatever the entry
      says, an operand always, and neither jump nor function. */
  predicate DescribesFirst(entry: PcEntry, e: SourceMap.Entry, idMap: map<int, string>) {
    && e.file in idMap
    && entry.path == Some(idMap[e.file])
    && entry.offset == Some((e.start, e.start + e.length))
    && entry.value.Some?
    && entry.jump == None && entry.fn == None && entry.coverageIndex == None
  }

  /** Any later entry (compiler.py:166-183): `jump` unless the kind is "-";
      no path, offset or function for file -1; no offset or function for
      start -1; otherwise the offset `(start, start + length)` and the function
      the AST lookup `fnAt` names for it, if any. */
  predicate Describes(entry: PcEntry, e: SourceMap.Entry, idMap: map<int, string>,
                      fnAt: (int, (int, int)) -> Option<string>)
  {
    && e.jump.Some?
    && entry.jump == (if e.jump.value != "-" then Some(e.jump.value) else None)
    && entry.coverageIndex == None
    && if e.file == -1 then entry.path == None && entry.offset == None && entry.fn == None
       else
         && e.file in idMap
         && entry.path == Some(idMap[e.file])
         && if e.start == -1 then entry.offset == None && entry.fn == None
            else
              && entry.offset == Some((e.start, e.start + e.length))
              && entry.fn == fnAt(e.file, (e.start, e.start + e.length))
  }

  /** The program counter of instruction `k` is that of instruction `k - 1`
      plus one, plus the operand width when instruction `k - 1` is a PUSH
      (compiler.py:157-159). */
  predicate Advances(pcMap: map<int, PcEntry>, pcs: seq<int>, k: int)
    requires 0 < k < |pcs|
  {
    && pcs[k - 1] in pcMap
    && var width := PushWidth(pcMap[pcs[k - 1]].op);
       width.Success? && pcs[k] == pcs[k - 1] + 1 + width.value
  }

  /** The entry of an instruction after the first, built from its resolved
      source map entry `e`, its opcode and its operand, if any
      (compiler.py:166-183).  A missing jump kind raises IndexError and an
      unknown file id KeyError.  The source raises the IndexError for a
      missing jump kind before it looks for the operand; both are IndexErrors,
      so the order is not observable. */
  function InstructionEntry(e: SourceMap.Entry, op: string, value: Option<string>, idMap: map<int, string>,
                            fnAt: (int, (int, int)) -> Option<string>): (r: Result<PcEntry>)
    ensures r.Success? <==> e.jump.Some? && (e.file != -1 ==> e.file in idMap)
    ensures r.Success? ==> r.value.op == op && r.value.value == value && Describes(r.value, e, idMap, fnAt)
    ensures r.Failure? ==> r.error == (if e.jump.None? then IndexError else KeyError)
  {
    if e.jump.None? then Failure(IndexError)
    else
      var jump := if e.jump.value != "-" then Some(e.jump.value) else None;
      if e.file == -1 then Success(PcEntry(op, value, None, None, jump, None, None))
      else if e.file !in idMap then Failure(KeyError)
      else if e.start == -1 then Success(PcEntry(op, value, Some(idMap[e.file]), None, jump, None, None))
      else
        var offset := (e.start, e.start + e.length);
        Success(PcEntry(op, value, Some(idMap[e.file]), Some(offset), jump, fnAt(e.file, offset), None))
  }

  /** Entry 0 (compiler.py:145-155): the first field must decode, its file
      must be known (KeyError) and the listing must hold an opcode and an
      operand (IndexError), in that order. */
  function FirstInstruction(tokens: seq<string>, field: string, idMap: map<int, string>)
    : (r: Result<(SourceMap.Entry, PcEntry)>)
    ensures r.Success? <==> SourceMap.First(field).Success? && SourceMap.First(field).value.file in idMap && |tokens| >= 2
    ensures r.Success? ==>
      && SourceMap.First(field) == Success(r.value.0)
      && DescribesFirst(r.value.1, r.value.0, idMap)
      && TokensOf(r.value.1) == tokens[..2]
    ensures SourceMap.First(field).Failure? ==> r == SourceMap.First(field).PropagateFailure()
    ensures SourceMap.First(field).Success? && SourceMap.First(field).value.file !in idMap ==> r == Failure(KeyError)
  {
    var e :- SourceMap.First(field);
    if e.file !in idMap then Failure(KeyError)
    else if |tokens| < 2 then Failure(IndexError)
    else
      var entry := PcEntry(tokens[0], Some(tokens[1]), Some(idMap[e.file]),
                           Some((e.start, e.start + e.length)), None, None, None);
      assert TokensOf(entry) == tokens[..2];
      Success((e, entry))
  }

  /** One decoded instruction after the first: its program counter, its
      resolved source map entry, its pc map entry and the position of the
      next unread token. */
  datatype Instruction = Instruction(pc: int, e: SourceMap.Entry, entry: PcEntry, pos: nat)

  /** One pass of the instruction loop (compiler.py:157-183): advance the
      program counter past the previous instruction `prev`, resolve the next
      source map field against `last`, read the opcode at `pos` and an operand
      after it if one starts with "0x", and build the entry.  The failures come
      in the order the source raises them. */
  function NextInstruction(prev: PcEntry, pc: int, last: SourceMap.Entry, field: string, tokens: seq<string>,
                           pos: nat, idMap: map<int, string>, fnAt: (int, (int, int)) -> Option<string>)
    : (r: Result<Instruction>)
    ensures r.Success? ==>
      && PushWidth(prev.op).Success?
      && r.value.pc == pc + 1 + PushWidth(prev.op).value
      && SourceMap.Resolve(last, field) == Success(r.value.e)
      && pos < r.value.pos <= |tokens|
      && tokens[pos..r.value.pos] == TokensOf(r.value.entry)
      && pos + 1 < |tokens|
      && r.value.entry.op == tokens[pos]
      && (r.value.entry.value.Some? <==> StartsWith(tokens[pos + 1], "0x"))
      && (r.value.entry.value.Some? ==> r.value.entry.value.value == tokens[pos + 1])
      && Describes(r.value.entry, r.value.e, idMap, fnAt)
    ensures PushWidth(prev.op).Success? && SourceMap.Resolve(last, field).Success? && pos + 1 >= |tokens|
            ==> r == Failure(IndexError)
  {
    var width :- PushWidth(prev.op);
    var e :- SourceMap.Resolve(last, field);
    if pos + 1 >= |tokens| then Failure(IndexError)
    else
      var op := tokens[pos];
      var value := if StartsWith(tokens[pos + 1], "0x") then Some(tokens[pos + 1]) else None;
      var next := if value.Some? then pos + 2 else pos + 1;
      var entry :- InstructionEntry(e, op, value, idMap, fnAt);
      assert tokens[pos..next] == TokensOf(entry);
      Success(Instruction(pc + 1 + width, e, entry, next))
  }

  /** The paths `allSourcePaths` collects: those of the entries after the first
      whose file is not -1. */
  function PathsOf(es: seq<SourceMap.Entry>, idMap: map<int, string>): set<string> {
    set j | 0 < j < |es| && es[j].file != -1 && es[j].file in idMap :: idMap[es[j].file]
  }

  /** The set of elements of a sequence, built up from the front. */
  ghost function Elems(s: seq<int>): set<int> {
    if |s| == 0 then {} else Elems(s[..|s| - 1]) + {s[|s| - 1]}
  }

  lemma {:induction false} ElemsMembers(s: seq<int>)
    ensures forall x :: x in Elems(s) <==> x in s
  {
    if |s| > 0 {
      var init := s[..|s| - 1];
      ElemsMembers(init);
      assert s == init + [s[|s| - 1]];
    }
  }

  /** Instruction `j` sits at `pcs[j]` in `pcMap` with entry `emitted[j]`, the
      program counters increase strictly, each one advances past the
      previous instruction, and the map holds nothing else. */
  ghost predicate Layout(pcMap: map<int, PcEntry>, pcs: seq<int>, emitted: seq<PcEntry>) {
    && |pcs| == |emitted|
    && pcMap.Keys == Elems(pcs)
    && (forall i, j :: 0 <= i < j < |pcs| ==> pcs[i] < pcs[j])
    && (forall j :: 0 <= j < |pcs| ==> pcs[j] in pcMap && pcMap[pcs[j]] == emitted[j])
    && (forall j :: 0 < j < |pcs| ==> Advances(pcMap, pcs, j))
  }

  /** Entry 0 describes source map entry 0 and each later entry the source
      map entry of its instruction. */
  ghost predicate Described(emitted: seq<PcEntry>, es: seq<SourceMap.Entry>, idMap: map<int, string>,
                            fnAt: (int, (int, int)) -> Option<string>)
  {
    && |emitted| == |es| >= 1
    && DescribesFirst(emitted[0], es[0], idMap)
    && (forall j :: 0 < j < |es| ==> Describes(emitted[j], es[j], idMap, fnAt))
  }

  /** Taking the tokens of one more entry extends the consumed prefix. */
  lemma {:induction false} TokensStep(emitted: seq<PcEntry>, entry: PcEntry, tokens: seq<string>, a: nat, b: nat)
    requires a <= b <= |tokens|
    requires Tokens(emitted) == tokens[..a] && tokens[a..b] == TokensOf(entry)
    ensures Tokens(emitted + [entry]) == tokens[..b]
  {
    assert (emitted + [entry])[..|emitted|] == emitted;
    assert tokens[..b] == tokens[..a] + tokens[a..b];
  }

  /** Placing the next instruction one past the operand of the last one keeps
      the layout. */
  lemma {:induction false} LayoutStep(pcMap: map<int, PcEntry>, pcs: seq<int>, emitted: seq<PcEntry>, pc: int, entry: PcEntry)
    requires Layout(pcMap, pcs, emitted) && |pcs| > 0
    requires PushWidth(pcMap[pcs[|pcs| - 1]].op).Success?
    requires pc == pcs[|pcs| - 1] + 1 + PushWidth(pcMap[pcs[|pcs| - 1]].op).value
    ensures Layout(pcMap[pc := entry], pcs + [pc], emitted + [entry])
  {
    var m := pcMap[pc := entry];
    var ps := pcs + [pc];
    var n := |pcs|;
    forall i | 0 <= i < n ensures pcs[i] < pc {
      if i < n - 1 { assert pcs[i] < pcs[n - 1]; }
    }
    assert pc !in pcs;
    forall j | 0 <= j < n ensures ps[j] == pcs[j] && m[ps[j]] == pcMap[pcs[j]] {
      assert pcs[j] != pc;
    }
    assert ps[..n] == pcs;
    forall j | 0 < j < n + 1 ensures Advances(m, ps, j) {
      if j < n { assert Advances(pcMap, pcs, j); }
    }
  }

  /** Appending an entry that describes the next source map entry keeps every
      entry described. */
  lemma {:induction false} DescribedStep(emitted: seq<PcEntry>, es: seq<SourceMap.Entry>, idMap: map<int, string>,
                      fnAt: (int, (int, int)) -> Option<string>, entry: PcEntry, e: SourceMap.Entry)
    requires Described(emitted, es, idMap, fnAt)
    requires Describes(entry, e, idMap, fnAt)
    ensures Described(emitted + [entry], es + [e], idMap, fnAt)
  {
    var ems := emitted + [entry];
    var ess := es + [e];
    forall j | 0 < j < |ess| ensures Describes(ems[j], ess[j], idMap, fnAt) {
      if j < |es| { assert ems[j] == emitted[j] && ess[j] == es[j]; }
    }
  }

  /** A later entry adds the path of its file, unless the file is -1. */
  lemma {:induction false} PathsStep(es: seq<SourceMap.Entry>, e: SourceMap.Entry, idMap: map<int, string>)
    requires |es| >= 1 && (e.file != -1 ==> e.file in idMap)
    ensures PathsOf(es + [e], idMap) == PathsOf(es, idMap) + (if e.file != -1 then {idMap[e.file]} else {})
  {
    var next := es + [e];
    var extra: set<string> := if e.file != -1 then {idMap[e.file]} else {};
    forall p | p in PathsOf(next, idMap) ensures p in PathsOf(es, idMap) + extra {
      var j :| 0 < j < |next| && next[j].file != -1 && next[j].file in idMap && p == idMap[next[j].file];
      if j < |es| { assert next[j] == es[j]; }
    }
    forall p | p in PathsOf(es, idMap) + extra ensures p in PathsOf(next, idMap) {
      if p in PathsOf(es, idMap) {
        var j :| 0 < j < |es| && es[j].file != -1 && es[j].file in idMap && p == idMap[es[j].file];
        assert next[j] == es[j];
      } else {
        assert next[|es|] == e;
      }
    }
  }

  /** Every entry after the first took the token after its opcode as its
      operand exactly when that token starts with "0x"
      (compiler.py:166-171), and the listing had a token there to look at.
      With the tokens taken being a prefix of the listing, this fixes which
      token is each entry's opcode and which its operand. */
  ghost predicate OperandsRead(emitted: seq<PcEntry>, tokens: seq<string>) {
    forall k :: 0 < k < |emitted| ==> OperandRead(emitted, tokens, k)
  }

  /** Entry `k` read its operand by the "0x" rule. */
  ghost predicate OperandRead(emitted: seq<PcEntry>, tokens: seq<string>, k: nat)
    requires k < |emitted|
  {
    var p := |Tokens(emitted[..k])|;
    && p + 1 < |tokens|
    && (emitted[k].value.Some? <==> StartsWith(tokens[p + 1], "0x"))
  }

  /** An entry's reading is unaffected by entries appended after it. */
  lemma {:induction false} OperandKept(emitted: seq<PcEntry>, tokens: seq<string>, entry: PcEntry, k: nat)
    requires k < |emitted| && OperandRead(emitted, tokens, k)
    ensures OperandRead(emitted + [entry], tokens, k)
  {
    assert (emitted + [entry])[..k] == emitted[..k];
    assert (emitted + [entry])[k] == emitted[k];
  }

  /** An entry that read its operand by the rule keeps the rule. */
  lemma {:induction false} OperandsStep(emitted: seq<PcEntry>, tokens: seq<string>, entry: PcEntry, pos: nat)
    requires OperandsRead(emitted, tokens) && |Tokens(emitted)| == pos
    requires pos + 1 < |tokens| && (entry.value.Some? <==> StartsWith(tokens[pos + 1], "0x"))
    ensures OperandsRead(emitted + [entry], tokens)
  {
    var ems := emitted + [entry];
    forall k | 0 < k < |ems|
      ensures OperandRead(ems, tokens, k)
    {
      if k == |emitted| {
        assert ems[..k] == emitted;
        assert ems[k] == entry;
      } else {
        OperandKept(emitted, tokens, entry, k);
      }
    }
  }

  /** The pc map `b` holds one entry per source map entry, at the program
      counters `pcs`, consumed a prefix of `tokens`, and read each operand by
      the "0x" rule. */
  ghost predicate WellBuilt(b: Built, pcs: seq<int>, es: seq<SourceMap.Entry>, tokens: seq<string>,
                      idMap: map<int, string>, fnAt: (int, (int, int)) -> Option<string>)
  {
    && |pcs| == |es| >= 1
    && pcs[0] == 0
    && (forall p :: p in b.pcMap <==> p in pcs)
    && (forall j, k :: 0 <= j < k < |pcs| ==> pcs[j] < pcs[k])
    && (forall k :: 0 < k < |pcs| ==> Advances(b.pcMap, pcs, k))
    && DescribesFirst(b.pcMap[0], es[0], idMap)
    && (forall k :: 0 < k < |pcs| ==> Describes(b.pcMap[pcs[k]], es[k], idMap, fnAt))
    && (var emitted := seq(|pcs|, k requires 0 <= k < |pcs| => b.pcMap[pcs[k]]);
        var taken := Tokens(emitted);
        |taken| <= |tokens| && tokens[..|taken|] == taken && OperandsRead(emitted, tokens))
    && b.paths == PathsOf(es, idMap)
  }

  /** The pc map of one contract (compiler.py:130-185): empty deployed
      bytecode gives an empty map and the contract's own path; otherwise the
      listing is stripped of its STOP padding, split into tokens and walked
      with the source map fields.  The AST lookups are parameters: `idMap`
      gives the path of each source file id and `fnAt(file, offset)` the full
      name of the function whose node `child_by_offset` finds, `None` where it
      raises KeyError. */
  function GeneratedPcMap(deployedBytecode: string, sourcePath: string, opcodes: string, sourceMap: string,
                          idMap: map<int, string>, fnAt: (int, (int, int)) -> Option<string>): Result<Built>
  {
    if deployedBytecode == "" then Success(Built(map[], {sourcePath}))
    else Decoded(Split(StripStop(opcodes), ' '), Split(sourceMap, ';'), idMap, fnAt)
  }

  /** `_generate_pcMap` for one contract. */
  method GeneratePcMap(deployedBytecode: string, sourcePath: string, opcodes: string, sourceMap: string,
                       idMap: map<int, string>, fnAt: (int, (int, int)) -> Option<string>)
    returns (r: Result<Built>)
    ensures r == GeneratedPcMap(deployedBytecode, sourcePath, opcodes, sourceMap, idMap, fnAt)
  {
    if deployedBytecode == "" {
      return Success(Built(map[], {sourcePath}));
    }
    var kept := StripStopPadding(opcodes);
    r := DecodeInstructions(Split(kept, ' '), Split(sourceMap, ';'), idMap, fnAt);
  }

  /** What the pc map promises: a source map that does not decode fails, and
      a success holds one entry per field at strictly increasing pcs, each
      describing its decoded source map entry and reading its opcode and
      operand from the stripped listing, with `allSourcePaths` the paths
      named by the entries after the first. */
  lemma {:induction false} GeneratedWellBuilt(deployedBytecode: string, sourcePath: string, opcodes: string, sourceMap: string,
                                              idMap: map<int, string>, fnAt: (int, (int, int)) -> Option<string>)
    ensures deployedBytecode != "" && SourceMap.Decode(sourceMap).Failure? ==>
      GeneratedPcMap(deployedBytecode, sourcePath, opcodes, sourceMap, idMap, fnAt).Failure?
    ensures deployedBytecode != "" && GeneratedPcMap(deployedBytecode, sourcePath, opcodes, sourceMap, idMap, fnAt).Success? ==>
      && SourceMap.Decode(sourceMap).Success?
      && WellBuiltFor(GeneratedPcMap(deployedBytecode, sourcePath, opcodes, sourceMap, idMap, fnAt).value,
                      |Split(sourceMap, ';')|, SourceMap.Decode(sourceMap).value, Split(StripStop(opcodes), ' '),
                      idMap, fnAt)
  {
    if deployedBytecode != "" {
      DecodedWellBuilt(Split(StripStop(opcodes), ' '), Split(sourceMap, ';'), idMap, fnAt);
    }
  }

  /** After `k` fields the walk has decoded them into `es`, placed one entry
      per field at the program counters `pcs`, consumed the first `pos`
      tokens and collected the paths of the entries after the first. */
  ghost predicate Scanned(tokens: seq<string>, fields: seq<string>, idMap: map<int, string>,
                          fnAt: (int, (int, int)) -> Option<string>, k: nat, pcMap: map<int, PcEntry>,
                          paths: set<string>, pos: nat, es: seq<SourceMap.Entry>, pcs: seq<int>,
                          emitted: seq<PcEntry>)
  {
    && 1 <= k <= |fields| && |es| == k && |pcs| == k && |emitted| == k
    && SourceMap.DecodeFields(fields[..k]) == Success(es)
    && pcs[0] == 0
    && Layout(pcMap, pcs, emitted)
    && Described(emitted, es, idMap, fnAt)
    && pos <= |tokens| && Tokens(emitted) == tokens[..pos]
    && OperandsRead(emitted, tokens)
    && paths == PathsOf(es, idMap)
  }

  /** Entry 0 starts the walk. */
  lemma {:induction false} ScanStart(tokens: seq<string>, fields: seq<string>, idMap: map<int, string>,
                                     fnAt: (int, (int, int)) -> Option<string>, e: SourceMap.Entry, entry: PcEntry)
    requires |fields| >= 1 && FirstInstruction(tokens, fields[0], idMap) == Success((e, entry))
    ensures Scanned(tokens, fields, idMap, fnAt, 1, map[0 := entry], {}, 2, [e], [0], [entry])
  {
    assert fields[..1] == [fields[0]];
    assert Tokens([entry]) == Tokens([]) + TokensOf(entry);
  }

  /** One pass of the loop keeps the walk consistent. */
  lemma {:induction false} ScanStep(tokens: seq<string>, fields: seq<string>, idMap: map<int, string>,
                                    fnAt: (int, (int, int)) -> Option<string>, k: nat, pcMap: map<int, PcEntry>,
                                    paths: set<string>, pos: nat, es: seq<SourceMap.Entry>, pcs: seq<int>,
                                    emitted: seq<PcEntry>, next: Instruction)
    requires Scanned(tokens, fields, idMap, fnAt, k, pcMap, paths, pos, es, pcs, emitted) && k < |fields|
    requires pcs[k - 1] in pcMap
    requires NextInstruction(pcMap[pcs[k - 1]], pcs[k - 1], es[k - 1], fields[k], tokens, pos, idMap, fnAt)
             == Success(next)
    ensures next.e.file != -1 ==> next.e.file in idMap
    ensures Scanned(tokens, fields, idMap, fnAt, k + 1, pcMap[next.pc := next.entry],
                    paths + (if next.e.file != -1 then {idMap[next.e.file]} else {}), next.pos,
                    es + [next.e], pcs + [next.pc], emitted + [next.entry])
  {
    LayoutStep(pcMap, pcs, emitted, next.pc, next.entry);
    DescribedStep(emitted, es, idMap, fnAt, next.entry, next.e);
    TakeNext(fields, k);
    SourceMap.DecodeFieldsExtend(fields[..k], es, fields[k], next.e);
    TokensStep(emitted, next.entry, tokens, pos, next.pos);
    OperandsStep(emitted, tokens, next.entry, pos);
    PathsStep(es, next.e, idMap);
  }

  /** A walk over every field is a well-built pc map of the decoded source map. */
  lemma {:induction false} ScanDone(tokens: seq<string>, fields: seq<string>, idMap: map<int, string>,
                                    fnAt: (int, (int, int)) -> Option<string>, pcMap: map<int, PcEntry>,
                                    paths: set<string>, pos: nat, es: seq<SourceMap.Entry>, pcs: seq<int>,
                                    emitted: seq<PcEntry>)
    requires Scanned(tokens, fields, idMap, fnAt, |fields|, pcMap, paths, pos, es, pcs, emitted)
    ensures SourceMap.DecodeFields(fields) == Success(es)
    ensures WellBuilt(Built(pcMap, paths), pcs, es, tokens, idMap, fnAt)
  {
    TakeAll(fields);
    assert seq(|pcs|, j requires 0 <= j < |pcs| => pcMap[pcs[j]]) == emitted;
    ElemsMembers(pcs);
  }

  /** The state of the instruction loop between passes: the pc map so far,
      the paths collected, the last pc and its entry, the last resolved
      source map entry and the position of the next unread token. */
  datatype Walker = Walker(pcMap: map<int, PcEntry>, paths: set<string>, pc: int, prev: PcEntry,
                           last: SourceMap.Entry, pos: nat)

  /** The loop state after one more instruction: its entry stored at its pc
      and its file's path collected unless the file is -1
      (compiler.py:166-176). */
  function Advance(w: Walker, next: Instruction, idMap: map<int, string>): Walker {
    Walker(w.pcMap[next.pc := next.entry],
           w.paths + (if next.e.file != -1 && next.e.file in idMap then {idMap[next.e.file]} else {}),
           next.pc, next.entry, next.e, next.pos)
  }

  /** The instruction loop from field `k` on (compiler.py:156-183): each
      field either raises the error its instruction raises, ending the walk,
      or advances it. */
  function Walk(tokens: seq<string>, fields: seq<string>, idMap: map<int, string>,
                fnAt: (int, (int, int)) -> Option<string>, k: nat, w: Walker): Result<Built>
    requires k <= |fields|
    decreases |fields| - k
  {
    if k == |fields| then Success(Built(w.pcMap, w.paths))
    else
      var next :- NextInstruction(w.prev, w.pc, w.last, fields[k], tokens, w.pos, idMap, fnAt);
      Walk(tokens, fields, idMap, fnAt, k + 1, Advance(w, next, idMap))
  }

  /** The whole walk (compiler.py:145-183): entry 0 from the first field and
      the first two tokens, then one pass per later field. */
  function Decoded(tokens: seq<string>, fields: seq<string>, idMap: map<int, string>,
                   fnAt: (int, (int, int)) -> Option<string>): Result<Built>
    requires |fields| >= 1
  {
    var first :- FirstInstruction(tokens, fields[0], idMap);
    Walk(tokens, fields, idMap, fnAt, 1, Walker(map[0 := first.1], {}, 0, first.1, first.0, 2))
  }

  /** `b` is a well-built pc map of `n` entries for some program counters. */
  ghost predicate WellBuiltFor(b: Built, n: nat, es: seq<SourceMap.Entry>, tokens: seq<string>,
                               idMap: map<int, string>, fnAt: (int, (int, int)) -> Option<string>)
  {
    exists pcs :: |pcs| == n && WellBuilt(b, pcs, es, tokens, idMap, fnAt)
  }

  /** A walk over every field is well built for the program counters it
      placed. */
  lemma {:induction false} WalkDone(tokens: seq<string>, fields: seq<string>, idMap: map<int, string>,
                                    fnAt: (int, (int, int)) -> Option<string>, w: Walker,
                                    es: seq<SourceMap.Entry>, pcs: seq<int>, emitted: seq<PcEntry>)
    requires Scanned(tokens, fields, idMap, fnAt, |fields|, w.pcMap, w.paths, w.pos, es, pcs, emitted)
    ensures WalkBuilt(tokens, fields, idMap, fnAt, Walk(tokens, fields, idMap, fnAt, |fields|, w))
  {
    ScanDone(tokens, fields, idMap, fnAt, w.pcMap, w.paths, w.pos, es, pcs, emitted);
    assert |pcs| == |fields| && WellBuilt(Built(w.pcMap, w.paths), pcs, es, tokens, idMap, fnAt);
    assert Walk(tokens, fields, idMap, fnAt, |fields|, w) == Success(Built(w.pcMap, w.paths));
  }

  /** The walk's state after `k` fields is consistent with the entries
      `es`, the program counters `pcs` and the pc map entries `emitted`
      decoded so far, and it holds the last of each. */
  ghost predicate WalkState(tokens: seq<string>, fields: seq<string>, idMap: map<int, string>,
                            fnAt: (int, (int, int)) -> Option<string>, k: nat, w: Walker,
                            es: seq<SourceMap.Entry>, pcs: seq<int>, emitted: seq<PcEntry>)
  {
    && Scanned(tokens, fields, idMap, fnAt, k, w.pcMap, w.paths, w.pos, es, pcs, emitted)
    && w.last == es[k - 1] && w.pc == pcs[k - 1] && w.prev == emitted[k - 1]
  }

  /** A successful walk result decodes every field and is well built. */
  ghost predicate WalkBuilt(tokens: seq<string>, fields: seq<string>, idMap: map<int, string>,
                            fnAt: (int, (int, int)) -> Option<string>, r: Result<Built>)
  {
    r.Success? ==>
      && |fields| >= 1 && SourceMap.DecodeFields(fields).Success?
      && WellBuiltFor(r.value, |fields|, SourceMap.DecodeFields(fields).value, tokens, idMap, fnAt)
  }

  /** A walk resumed from a consistent state that succeeds is well built. */
  lemma {:induction false} WalkWellBuilt(tokens: seq<string>, fields: seq<string>, idMap: map<int, string>,
                                         fnAt: (int, (int, int)) -> Option<string>, k: nat, w: Walker,
                                         es: seq<SourceMap.Entry>, pcs: seq<int>, emitted: seq<PcEntry>)
    requires WalkState(tokens, fields, idMap, fnAt, k, w, es, pcs, emitted)
    ensures WalkBuilt(tokens, fields, idMap, fnAt, Walk(tokens, fields, idMap, fnAt, k, w))
    decreases |fields| - k
  {
    if k == |fields| {
      WalkDone(tokens, fields, idMap, fnAt, w, es, pcs, emitted);
    } else {
      var next := NextInstruction(w.prev, w.pc, w.last, fields[k], tokens, w.pos, idMap, fnAt);
      if next.Success? {
        var n := next.value;
        WalkNext(tokens, fields, idMap, fnAt, k, w, es, pcs, emitted, n);
        WalkWellBuilt(tokens, fields, idMap, fnAt, k + 1, Advance(w, n, idMap), es + [n.e], pcs + [n.pc], emitted + [n.entry]);
        WalkStep(tokens, fields, idMap, fnAt, k, w, n);
        assert WalkBuilt(tokens, fields, idMap, fnAt, Walk(tokens, fields, idMap, fnAt, k, w));
      } else {
        assert Walk(tokens, fields, idMap, fnAt, k, w).Failure?;
        assert WalkBuilt(tokens, fields, idMap, fnAt, Walk(tokens, fields, idMap, fnAt, k, w));
      }
    }
  }

  /** One pass of the walk keeps the walk's state consistent. */
  lemma {:induction false} WalkNext(tokens: seq<string>, fields: seq<string>, idMap: map<int, string>,
                                    fnAt: (int, (int, int)) -> Option<string>, k: nat, w: Walker,
                                    es: seq<SourceMap.Entry>, pcs: seq<int>, emitted: seq<PcEntry>, n: Instruction)
    requires WalkState(tokens, fields, idMap, fnAt, k, w, es, pcs, emitted) && k < |fields|
    requires NextInstruction(w.prev, w.pc, w.last, fields[k], tokens, w.pos, idMap, fnAt) == Success(n)
    ensures WalkState(tokens, fields, idMap, fnAt, k + 1, Advance(w, n, idMap), es + [n.e], pcs + [n.pc], emitted + [n.entry])
  {
    ScanStep(tokens, fields, idMap, fnAt, k, w.pcMap, w.paths, w.pos, es, pcs, emitted, n);
    assert Advance(w, n, idMap).paths == w.paths + (if n.e.file != -1 then {idMap[n.e.file]} else {});
  }

  /** The walk from field `k` goes on from the state one instruction
      advances to. */
  lemma {:induction false} WalkStep(tokens: seq<string>, fields: seq<string>, idMap: map<int, string>,
                                    fnAt: (int, (int, int)) -> Option<string>, k: nat, w: Walker, n: Instruction)
    requires k < |fields|
    requires NextInstruction(w.prev, w.pc, w.last, fields[k], tokens, w.pos, idMap, fnAt) == Success(n)
    ensures Walk(tokens, fields, idMap, fnAt, k, w) == Walk(tokens, fields, idMap, fnAt, k + 1, Advance(w, n, idMap))
  {
  }

  /** A successful walk decodes every field and is well built. */
  lemma {:induction false} DecodedWellBuilt(tokens: seq<string>, fields: seq<string>, idMap: map<int, string>,
                                            fnAt: (int, (int, int)) -> Option<string>)
    requires |fields| >= 1
    ensures var r := Decoded(tokens, fields, idMap, fnAt);
      r.Success? ==>
        && SourceMap.DecodeFields(fields).Success?
        && WellBuiltFor(r.value, |fields|, SourceMap.DecodeFields(fields).value, tokens, idMap, fnAt)
  {
    var first := FirstInstruction(tokens, fields[0], idMap);
    if first.Success? {
      var (e, entry) := first.value;
      ScanStart(tokens, fields, idMap, fnAt, e, entry);
      WalkWellBuilt(tokens, fields, idMap, fnAt, 1, Walker(map[0 := entry], {}, 0, entry, e, 2), [e], [0], [entry]);
    }
  }

  /** Walks the opcode tokens and the source map fields together
      (compiler.py:145-183).  The opcode of the previous instruction, which
      the source reads back from `pcMap[pc]`, is kept in `entry`. */
  method DecodeInstructions(tokens: seq<string>, fields: seq<string>, idMap: map<int, string>,
                            fnAt: (int, (int, int)) -> Option<string>)
    returns (r: Result<Built>)
    requires |fields| >= 1
    ensures r == Decoded(tokens, fields, idMap, fnAt)
  {
    var first := FirstInstruction(tokens, fields[0], idMap);
    if first.Failure? {
      return Failure(first.error);
    }
    var last, entry := first.value.0, first.value.1;
    var pcMap := map[0 := entry];
    var paths: set<string> := {};
    var pc := 0;
    var pos: nat := 2;
    var k := 1;
    while k < |fields|
      invariant 1 <= k <= |fields|
      invariant Walk(tokens, fields, idMap, fnAt, k, Walker(pcMap, paths, pc, entry, last, pos))
                == Decoded(tokens, fields, idMap, fnAt)
    {
      var next := NextInstruction(entry, pc, last, fields[k], tokens, pos, idMap, fnAt);
      if next.Failure? {
        return Failure(next.error);
      }
      ghost var w := Advance(Walker(pcMap, paths, pc, entry, last, pos), next.value, idMap);
      pc, last, entry, pos := next.value.pc, next.value.e, next.value.entry, next.value.pos;
      if last.file != -1 {
        paths := paths + {idMap[last.file]};
      }
      pcMap := pcMap[pc := entry];
      assert w == Walker(pcMap, paths, pc, entry, last, pos);
      k := k + 1;
    }
    r := Success(Built(pcMap, paths));
  }
}
