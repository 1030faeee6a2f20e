/** Library link placeholders (brownie/project/compiler.py,
    `format_link_references`, lines 336-345): every 20-byte slot the compiler
    left for a library address is overwritten, in the hex string, by `__`, the
    library name cut or padded with `_` to 36 characters, and `__`. */
module LinkReferences {

  /** The references as the source flattens them: for each library name, the
      byte offsets of its slots. */
  type References = seq<(string, seq<nat>)>

  /** Python's `s[:k]` and `s[k:]` for `k >= 0`: they clamp at the end. */
  function Head(s: string, k: nat): (r: string)
    ensures |r| == if k <= |s| then k else |s|
    ensures r == s[..|r|]
  {
    if k <= |s| then s[..k] else s
  }

  function Tail(s: string, k: nat): (r: string)
    ensures |r| == if k <= |s| then |s| - k else 0
    ensures k <= |s| ==> r == s[k..]
  {
    if k <= |s| then s[k..] else ""
  }

  /** `"{:_<36}".format(name[:36])` */
  function PadName(name: string): (r: string)
    ensures |r| == 36
    ensures forall i :: 0 <= i < 36 ==> r[i] == if i < |name| then name[i] else '_'
  {
    var cut := Head(name, 36);
    cut + seq(36 - |cut|, _ => '_')
  }

  /** The 40 characters written over a slot. */
  function Placeholder(name: string): (r: string)
    ensures |r| == 40 && r[..2] == "__" && r[38..] == "__" && r[2..38] == PadName(name)
  {
    "__" + PadName(name) + "__"
  }

  /** One replacement at hex position `loc` (compiler.py:340-344). */
  function Splice(bytecode: string, name: string, loc: nat): string {
    Head(bytecode, loc) + Placeholder(name) + Tail(bytecode, loc + 40)
  }

  /** A slot inside the bytecode is overwritten in place: the length is kept,
      the slot holds the placeholder and every other character is unchanged. */
  lemma {:induction false} SpliceInPlace(bytecode: string, name: string, loc: nat)
    requires loc + 40 <= |bytecode|
    ensures |Splice(bytecode, name, loc)| == |bytecode|
    ensures Splice(bytecode, name, loc)[loc..loc + 40] == Placeholder(name)
    ensures forall i :: 0 <= i < |bytecode| && !(loc <= i < loc + 40) ==> Splice(bytecode, name, loc)[i] == bytecode[i]
  {
    var r := Splice(bytecode, name, loc);
    var head := Head(bytecode, loc);
    var ph := Placeholder(name);
    assert r == head + ph + bytecode[loc + 40..];
    forall i | 0 <= i < |bytecode| && !(loc <= i < loc + 40)
      ensures r[i] == bytecode[i]
    {
      if i < loc {
        assert r[i] == head[i];
      } else {
        assert r[i] == bytecode[loc + 40..][i - loc - 40];
      }
    }
  }

  /** A slot reaching past the end lengthens the bytecode to the slot's end. */
  lemma {:induction false} SpliceGrows(bytecode: string, name: string, loc: nat)
    requires loc <= |bytecode| < loc + 40
    ensures |Splice(bytecode, name, loc)| == loc + 40
  {
  }

  /** `[(name, start * 2) for each reference and each of its slots]`: the hex
      positions to overwrite, in order. */
  function Slots(refs: References): seq<(string, nat)>
    decreases |refs|
  {
    if |refs| == 0 then []
    else
      var (name, starts) := refs[|refs| - 1];
      Slots(refs[..|refs| - 1]) + seq(|starts|, j requires 0 <= j < |starts| => (name, starts[j] * 2))
  }

  /** Slots whose byte offsets lie inside the bytecode lie inside its hex
      string. */
  lemma {:induction false} SlotsInside(refs: References, size: nat)
    requires forall i, j :: 0 <= i < |refs| && 0 <= j < |refs[i].1| ==> refs[i].1[j] * 2 + 40 <= size
    ensures forall k :: 0 <= k < |Slots(refs)| ==> Slots(refs)[k].1 + 40 <= size
    decreases |refs|
  {
    if |refs| > 0 {
      var init := refs[..|refs| - 1];
      forall i, j | 0 <= i < |init| && 0 <= j < |init[i].1|
        ensures init[i].1[j] * 2 + 40 <= size
      {
        assert init[i] == refs[i];
      }
      SlotsInside(init, size);
    }
  }

  function SpliceAll(bytecode: string, slots: seq<(string, nat)>): string
    decreases |slots|
  {
    if |slots| == 0 then bytecode
    else
      var (name, loc) := slots[|slots| - 1];
      Splice(SpliceAll(bytecode, slots[..|slots| - 1]), name, loc)
  }

  /** `format_link_references` (compiler.py:336-345). */
  function FormatLinkReferences(bytecode: string, refs: References): string {
    SpliceAll(bytecode, Slots(refs))
  }

  /** When every slot lies inside the bytecode, the linked bytecode has the
      same length. */
  lemma {:induction false} SpliceAllKeepsLength(bytecode: string, slots: seq<(string, nat)>)
    requires forall k :: 0 <= k < |slots| ==> slots[k].1 + 40 <= |bytecode|
    ensures |SpliceAll(bytecode, slots)| == |bytecode|
    decreases |slots|
  {
    if |slots| > 0 {
      var init := slots[..|slots| - 1];
      forall k | 0 <= k < |init|
        ensures init[k].1 + 40 <= |bytecode|
      {
        assert init[k] == slots[k];
      }
      SpliceAllKeepsLength(bytecode, init);
      var (name, loc) := slots[|slots| - 1];
      SpliceInPlace(SpliceAll(bytecode, init), name, loc);
    }
  }

  /** Outside every slot the linked bytecode is the original. */
  lemma {:induction false} SpliceAllKeepsRest(bytecode: string, slots: seq<(string, nat)>, i: nat)
    requires forall k :: 0 <= k < |slots| ==> slots[k].1 + 40 <= |bytecode|
    requires i < |bytecode| && forall k :: 0 <= k < |slots| ==> !(slots[k].1 <= i < slots[k].1 + 40)
    ensures i < |SpliceAll(bytecode, slots)| && SpliceAll(bytecode, slots)[i] == bytecode[i]
    decreases |slots|
  {
    SpliceAllKeepsLength(bytecode, slots);
    if |slots| > 0 {
      var init := slots[..|slots| - 1];
      forall k | 0 <= k < |init|
        ensures init[k].1 + 40 <= |bytecode| && !(init[k].1 <= i < init[k].1 + 40)
      {
        assert init[k] == slots[k];
      }
      SpliceAllKeepsRest(bytecode, init, i);
      SpliceAllKeepsLength(bytecode, init);
      var (name, loc) := slots[|slots| - 1];
      SpliceInPlace(SpliceAll(bytecode, init), name, loc);
    }
  }

  /** The last slot written holds its placeholder. */
  lemma {:induction false} LastSlotHolds(bytecode: string, slots: seq<(string, nat)>)
    requires |slots| > 0
    requires forall k :: 0 <= k < |slots| ==> slots[k].1 + 40 <= |bytecode|
    ensures |SpliceAll(bytecode, slots)| == |bytecode|
    ensures var (name, loc) := slots[|slots| - 1];
      SpliceAll(bytecode, slots)[loc..loc + 40] == Placeholder(name)
  {
    var init := slots[..|slots| - 1];
    forall k | 0 <= k < |init|
      ensures init[k].1 + 40 <= |bytecode|
    {
      assert init[k] == slots[k];
    }
    SpliceAllKeepsLength(bytecode, init);
    SpliceAllKeepsLength(bytecode, slots);
    var (name, loc) := slots[|slots| - 1];
    SpliceInPlace(SpliceAll(bytecode, init), name, loc);
  }

  /** The linked bytecode keeps its length when every slot lies inside it
      (compiler.py:339-344). */
  lemma {:induction false} FormatKeepsLength(bytecode: string, refs: References)
    requires forall i, j :: 0 <= i < |refs| && 0 <= j < |refs[i].1| ==> refs[i].1[j] * 2 + 40 <= |bytecode|
    ensures |FormatLinkReferences(bytecode, refs)| == |bytecode|
  {
    var slots := Slots(refs);
    SlotsInside(refs, |bytecode|);
    SpliceAllKeepsLength(bytecode, slots);
  }
  /** Two slots at hex positions `a` and `b` do not overlap. */
  predicate Apart(a: nat, b: nat) {
    a + 40 <= b || b + 40 <= a
  }

  /** Every slot lies inside the bytecode and no two slots overlap. */
  predicate Laid(bytecode: string, slots: seq<(string, nat)>) {
    && (forall m :: 0 <= m < |slots| ==> slots[m].1 + 40 <= |bytecode|)
    && (forall a, b :: 0 <= a < b < |slots| ==> Apart(slots[a].1, slots[b].1))
  }

  /** Dropping the last slot keeps the slots laid out. */
  lemma {:induction false} LaidInit(bytecode: string, slots: seq<(string, nat)>)
    requires |slots| > 0 && Laid(bytecode, slots)
    ensures Laid(bytecode, slots[..|slots| - 1])
    ensures forall m :: 0 <= m < |slots| - 1 ==> Apart(slots[m].1, slots[|slots| - 1].1)
  {
    var init := slots[..|slots| - 1];
    forall m | 0 <= m < |init|
      ensures init[m].1 + 40 <= |bytecode|
    {
      assert init[m] == slots[m];
    }
    forall a, b | 0 <= a < b < |init|
      ensures Apart(init[a].1, init[b].1)
    {
      assert init[a] == slots[a] && init[b] == slots[b];
    }
  }

  /** With slots inside the bytecode and pairwise apart, every slot holds
      its own placeholder once all are written. */
  lemma {:induction false} SpliceAllHolds(bytecode: string, slots: seq<(string, nat)>, k: nat)
    requires Laid(bytecode, slots) && k < |slots|
    ensures |SpliceAll(bytecode, slots)| == |bytecode|
    ensures SpliceAll(bytecode, slots)[slots[k].1..slots[k].1 + 40] == Placeholder(slots[k].0)
    decreases |slots|
  {
    SpliceAllKeepsLength(bytecode, slots);
    if k == |slots| - 1 {
      LastSlotHolds(bytecode, slots);
    } else {
      var init := slots[..|slots| - 1];
      LaidInit(bytecode, slots);
      assert init[k] == slots[k];
      SpliceAllHolds(bytecode, init, k);
      var last := slots[|slots| - 1];
      SpliceApart(SpliceAll(bytecode, init), last.0, last.1, slots[k].1);
    }
  }

  /** Writing a slot leaves a slot apart from it as it was. */
  lemma {:induction false} SpliceApart(s: string, name: string, loc: nat, at: nat)
    requires loc + 40 <= |s| && at + 40 <= |s| && Apart(at, loc)
    ensures Splice(s, name, loc)[at..at + 40] == s[at..at + 40]
  {
    SpliceInPlace(s, name, loc);
    var r := Splice(s, name, loc);
    forall i | at <= i < at + 40
      ensures r[i] == s[i]
    {
    }
  }

  /** Slot `j` of reference `i` is among the slots written. */
  lemma {:induction false} SlotsHas(refs: References, i: nat, j: nat)
    requires i < |refs| && j < |refs[i].1|
    ensures exists k :: 0 <= k < |Slots(refs)| && Slots(refs)[k] == (refs[i].0, refs[i].1[j] * 2)
    decreases |refs|
  {
    var init := refs[..|refs| - 1];
    var (name, starts) := refs[|refs| - 1];
    var added := seq(|starts|, m requires 0 <= m < |starts| => (name, starts[m] * 2));
    assert Slots(refs) == Slots(init) + added;
    if i == |refs| - 1 {
      assert Slots(refs)[|Slots(init)| + j] == added[j];
    } else {
      assert init[i] == refs[i];
      SlotsHas(init, i, j);
      var k :| 0 <= k < |Slots(init)| && Slots(init)[k] == (init[i].0, init[i].1[j] * 2);
      assert Slots(refs)[k] == Slots(init)[k];
    }
  }

  /** With every slot inside the bytecode and no two slots overlapping, the
      linked bytecode holds, at each reference's slot `[2 * start, 2 * start +
      40)`, the placeholder of its library (compiler.py:339-344). */
  lemma {:induction false} FormatWritesPlaceholders(bytecode: string, refs: References, i: nat, j: nat)
    requires forall a, b :: 0 <= a < |refs| && 0 <= b < |refs[a].1| ==> refs[a].1[b] * 2 + 40 <= |bytecode|
    requires forall a, b :: 0 <= a < b < |Slots(refs)| ==> Apart(Slots(refs)[a].1, Slots(refs)[b].1)
    requires i < |refs| && j < |refs[i].1|
    ensures var at := refs[i].1[j] * 2;
      && |FormatLinkReferences(bytecode, refs)| == |bytecode|
      && FormatLinkReferences(bytecode, refs)[at..at + 40] == Placeholder(refs[i].0)
  {
    SlotsInside(refs, |bytecode|);
    SlotsHas(refs, i, j);
    var k :| 0 <= k < |Slots(refs)| && Slots(refs)[k] == (refs[i].0, refs[i].1[j] * 2);
    SpliceAllHolds(bytecode, Slots(refs), k);
  }
}

