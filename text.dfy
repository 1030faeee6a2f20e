/** The handful of Python `str` operations the modelled code relies on:
    `in`, `startswith`, `index`/`rindex`, `split`, `join`, `replace`, `lower`,
    `int(...)` and the ordering `<` that `sorted` uses on strings. */
module Text {
  import opened Wrappers

  /** `sub` occurs in `s` starting at index `i`. */
  predicate OccursAt(s: string, sub: string, i: int) {
    0 <= i && i + |sub| <= |s| && s[i..i + |sub|] == sub
  }

  /** Python's `sub in s`. */
  predicate Contains(s: string, sub: string) {
    exists i | 0 <= i <= |s| :: OccursAt(s, sub, i)
  }

  /** Python's `s.startswith(prefix)`. */
  predicate StartsWith(s: string, prefix: string) {
    |prefix| <= |s| && s[..|prefix|] == prefix
  }

  /** Python's `s.endswith(suffix)`. */
  predicate EndsWith(s: string, suffix: string) {
    |suffix| <= |s| && s[|s| - |suffix|..] == suffix
  }

  /** The first occurrence of `sub` in `s` at or after index `i`. */
  function FindFrom(s: string, sub: string, i: nat): (r: Option<nat>)
    ensures r.Some? ==> i <= r.value && OccursAt(s, sub, r.value)
    ensures forall j :: i <= j && (r.None? || j < r.value) ==> !OccursAt(s, sub, j)
    decreases |s| - i
  {
    if i + |sub| > |s| then None
    else if s[i..i + |sub|] == sub then Some(i)
    else FindFrom(s, sub, i + 1)
  }

  /** Python's `s.index(sub)`, with `None` where Python raises ValueError. */
  function Find(s: string, sub: string): (r: Option<nat>)
    ensures r.Some? ==> OccursAt(s, sub, r.value)
    ensures r.Some? ==> forall j :: 0 <= j < r.value ==> !OccursAt(s, sub, j)
    ensures r.None? <==> !Contains(s, sub)
  {
    FindFrom(s, sub, 0)
  }

  /** The last occurrence of `sub` in `s` at or before index `i`. */
  function RFindAtMost(s: string, sub: string, i: int): (r: Option<nat>)
    ensures r.Some? ==> r.value <= i && OccursAt(s, sub, r.value)
    ensures forall j :: j <= i && (r.None? || r.value < j) ==> !OccursAt(s, sub, j)
    decreases i + 1
  {
    if i < 0 then None
    else if OccursAt(s, sub, i) then Some(i)
    else RFindAtMost(s, sub, i - 1)
  }

  /** Python's `s.rindex(sub)`, with `None` where Python raises ValueError. */
  function RFind(s: string, sub: string): (r: Option<nat>)
    ensures r.Some? ==> OccursAt(s, sub, r.value)
    ensures r.Some? ==> forall j :: r.value < j ==> !OccursAt(s, sub, j)
    ensures r.None? <==> !Contains(s, sub)
  {
    RFindAtMost(s, sub, |s| - |sub|)
  }

  /** Python's `s.split(c)` for a one-character separator: the pieces between
      the separators, empty pieces included. */
  function Split(s: string, c: char): (parts: seq<string>)
    ensures |parts| >= 1
    ensures forall k :: 0 <= k < |parts| ==> c !in parts[k]
    decreases |s|
  {
    if |s| == 0 then [""]
    else
      var rest := Split(s[1..], c);
      if s[0] == c then [""] + rest
      else [[s[0]] + rest[0]] + rest[1..]
  }

  /** A separator appended to a string adds one empty piece to its split. */
  lemma {:induction false} SplitAppendSeparator(s: string, c: char)
    ensures Split(s + [c], c) == Split(s, c) + [""]
    decreases |s|
  {
    if |s| > 0 {
      assert (s + [c])[1..] == s[1..] + [c];
      SplitAppendSeparator(s[1..], c);
    } else {
      assert Split([c][1..], c) == [""];
    }
  }

  /** Python's `sep.join(parts)`. */
  function Join(parts: seq<string>, sep: string): string
    decreases |parts|
  {
    if |parts| == 0 then ""
    else if |parts| == 1 then parts[0]
    else parts[0] + sep + Join(parts[1..], sep)
  }

  /** Joining the pieces of a split with the separator gives back the string. */
  lemma {:induction false} JoinSplit(s: string, c: char)
    ensures Join(Split(s, c), [c]) == s
    decreases |s|
  {
    if |s| > 0 {
      var rest := Split(s[1..], c);
      JoinSplit(s[1..], c);
      if s[0] != c {
        if |rest| > 1 {
          assert Join(rest, [c]) == rest[0] + [c] + Join(rest[1..], [c]);
        }
      }
    }
  }

  /** A leading character other than the separator joins the first piece. */
  lemma {:induction false} SplitCons(x: char, s: string, c: char)
    requires x != c
    ensures Split([x] + s, c) == [[x] + Split(s, c)[0]] + Split(s, c)[1..]
  {
    assert ([x] + s)[1..] == s;
  }

  /** A leading separator starts with an empty piece. */
  lemma {:induction false} SplitSeparator(s: string, c: char)
    ensures Split([c] + s, c) == [""] + Split(s, c)
  {
    assert ([c] + s)[1..] == s;
  }

  /** The first character of a join whose first piece is non-empty. */
  lemma {:induction false} JoinFirstChar(parts: seq<string>, sep: string)
    requires |parts| >= 1 && |parts[0]| > 0
    ensures Join(parts, sep) == [parts[0][0]] + Join([parts[0][1..]] + parts[1..], sep)
  {
    var tail := [parts[0][1..]] + parts[1..];
    assert tail[1..] == parts[1..];
    assert parts[0] == [parts[0][0]] + tail[0];
  }

  /** Splitting the join of separator-free pieces gives back the pieces. */
  lemma {:induction false} SplitJoin(parts: seq<string>, c: char)
    requires |parts| >= 1
    requires forall k :: 0 <= k < |parts| ==> c !in parts[k]
    ensures Split(Join(parts, [c]), c) == parts
    decreases |parts|, |parts[0]|
  {
    if |parts[0]| > 0 {
      var tail := [parts[0][1..]] + parts[1..];
      assert c !in parts[0][1..];
      forall k | 0 <= k < |tail| ensures c !in tail[k] {
        if k > 0 { assert tail[k] == parts[k]; }
      }
      SplitJoin(tail, c);
      JoinFirstChar(parts, [c]);
      SplitCons(parts[0][0], Join(tail, [c]), c);
      assert tail[1..] == parts[1..];
      assert [parts[0][0]] + tail[0] == parts[0];
    } else if |parts| > 1 {
      SplitJoin(parts[1..], c);
      assert Join(parts, [c]) == [c] + Join(parts[1..], [c]);
      SplitSeparator(Join(parts[1..], [c]), c);
      assert parts == [""] + parts[1..];
    }
  }

  /** Python's `s.replace("", repl)`: `repl` before every character and at the end. */
  function InsertEverywhere(s: string, repl: string): string
    decreases |s|
  {
    if |s| == 0 then repl else repl + [s[0]] + InsertEverywhere(s[1..], repl)
  }

  /** Python's `s.replace(pat, repl)`: every non-overlapping occurrence of `pat`,
      scanning from the left, becomes `repl`. */
  function ReplaceAll(s: string, pat: string, repl: string): string
    decreases |s|
  {
    if pat == "" then InsertEverywhere(s, repl)
    else if |s| < |pat| then s
    else if s[..|pat|] == pat then repl + ReplaceAll(s[|pat|..], pat, repl)
    else [s[0]] + ReplaceAll(s[1..], pat, repl)
  }

  /** Replacing something that does not occur changes nothing. */
  lemma {:induction false} ReplaceAbsent(s: string, pat: string, repl: string)
    requires pat != "" && !Contains(s, pat)
    ensures ReplaceAll(s, pat, repl) == s
    decreases |s|
  {
    if |pat| <= |s| {
      assert OccursAt(s, pat, 0) == (s[..|pat|] == pat);
      forall i | OccursAt(s[1..], pat, i) ensures OccursAt(s, pat, i + 1) {
        assert s[1..][i..i + |pat|] == s[i + 1..i + 1 + |pat|];
      }
      ReplaceAbsent(s[1..], pat, repl);
    }
  }

  /** A pattern whose first character is not in `s` is not replaced in it. */
  lemma {:induction false} ReplaceUnstarted(s: string, pat: string, repl: string)
    requires pat != "" && pat[0] !in s
    ensures ReplaceAll(s, pat, repl) == s
  {
    forall i | 0 <= i <= |s|
      ensures !OccursAt(s, pat, i)
    {
      if i + |pat| <= |s| {
        assert s[i..i + |pat|][0] == s[i];
      }
    }
    ReplaceAbsent(s, pat, repl);
  }

  /** The first occurrence of a pattern whose first character does not come
      before it is the first one replaced. */
  lemma {:induction false} ReplaceAfter(h: string, pat: string, rest: string, repl: string)
    requires pat != "" && pat[0] !in h
    ensures ReplaceAll(h + pat + rest, pat, repl) == h + repl + ReplaceAll(rest, pat, repl)
  {
    ReplaceSkips(h, pat + rest, pat, repl);
    assert h + pat + rest == h + (pat + rest);
    ReplaceMatch(pat + rest, pat, repl);
    assert (pat + rest)[|pat|..] == rest;
  }

  /** Text holding no character that starts the pattern passes through
      unchanged. */
  lemma {:induction false} ReplaceSkips(h: string, x: string, pat: string, repl: string)
    requires pat != "" && pat[0] !in h
    ensures ReplaceAll(h + x, pat, repl) == h + ReplaceAll(x, pat, repl)
    decreases |h|
  {
    if |h| > 0 {
      ReplaceMiss(h + x, pat, repl);
      assert (h + x)[1..] == h[1..] + x;
      ReplaceSkips(h[1..], x, pat, repl);
      assert h == [h[0]] + h[1..];
    } else {
      assert h + x == x;
    }
  }

  /** A leading occurrence is replaced. */
  lemma {:induction false} ReplaceMatch(s: string, pat: string, repl: string)
    requires pat != "" && |pat| <= |s| && s[..|pat|] == pat
    ensures ReplaceAll(s, pat, repl) == repl + ReplaceAll(s[|pat|..], pat, repl)
  {
  }

  /** A leading character that cannot start the pattern is kept. */
  lemma {:induction false} ReplaceMiss(s: string, pat: string, repl: string)
    requires pat != "" && |s| > 0 && s[0] != pat[0]
    ensures ReplaceAll(s, pat, repl) == [s[0]] + ReplaceAll(s[1..], pat, repl)
  {
    if |pat| <= |s| {
      assert s[..|pat|][0] != pat[0];
    }
  }

  /** Deleting occurrences introduces no character that was not there before. */
  lemma {:induction false} ReplaceDeleteChars(s: string, pat: string, ch: char)
    requires pat != ""
    requires ch in ReplaceAll(s, pat, "")
    ensures ch in s
    decreases |s|
  {
    if |s| >= |pat| {
      if s[..|pat|] == pat {
        ReplaceDeleteChars(s[|pat|..], pat, ch);
      } else if ch != s[0] {
        ReplaceDeleteChars(s[1..], pat, ch);
      }
    }
  }

  /** A replacement introduces no character that is in neither the string
      nor the replacement. */
  lemma {:induction false} ReplaceChars(s: string, pat: string, repl: string, ch: char)
    requires pat != ""
    requires ch in ReplaceAll(s, pat, repl)
    ensures ch in s || ch in repl
    decreases |s|
  {
    if |s| >= |pat| {
      if s[..|pat|] == pat {
        if ch !in repl {
          ReplaceChars(s[|pat|..], pat, repl, ch);
        }
      } else if ch != s[0] {
        ReplaceChars(s[1..], pat, repl, ch);
      }
    }
  }

  /** Joining introduces no character that is in neither a part nor the
      separator. */
  lemma {:induction false} JoinChars(parts: seq<string>, sep: string, ch: char)
    requires ch in Join(parts, sep)
    ensures ch in sep || exists k :: 0 <= k < |parts| && ch in parts[k]
    decreases |parts|
  {
    if |parts| > 1 && ch !in parts[0] && ch !in sep {
      JoinChars(parts[1..], sep, ch);
      var k :| 0 <= k < |parts[1..]| && ch in parts[1..][k];
      assert ch in parts[k + 1];
    }
  }

  /** A string that starts with `pat` starts with `repl` once `pat` is replaced. */
  lemma ReplaceAllStartsWith(s: string, pat: string, repl: string)
    requires StartsWith(s, pat)
    ensures StartsWith(ReplaceAll(s, pat, repl), repl)
  {
    if pat == "" {
      if |s| > 0 {
        assert InsertEverywhere(s, repl) == repl + ([s[0]] + InsertEverywhere(s[1..], repl));
      }
    }
  }

  /** ASCII lower-casing, Python's `s.lower()` on hexadecimal text. */
  function Lower(s: string): (r: string)
    ensures |r| == |s|
    ensures forall i :: 0 <= i < |s| ==> r[i] == LowerChar(s[i])
  {
    seq(|s|, i requires 0 <= i < |s| => LowerChar(s[i]))
  }

  function LowerChar(c: char): char {
    if 'A' <= c <= 'Z' then (c as int - 'A' as int + 'a' as int) as char else c
  }

  predicate IsDigit(c: char) {
    '0' <= c <= '9'
  }

  /** The value of a string of decimal digits, most significant first. */
  function DigitsValue(s: string): nat
    requires forall i :: 0 <= i < |s| ==> IsDigit(s[i])
    decreases |s|
  {
    if |s| == 0 then 0
    else DigitsValue(s[..|s| - 1]) * 10 + DigitValue(s[|s| - 1])
  }

  function DigitValue(c: char): (v: nat)
    requires IsDigit(c)
    ensures v < 10
  {
    c as int - '0' as int
  }

  /** Python's `int(s)` on an unsigned decimal literal; `None` where Python
      raises ValueError. */
  function ParseNat(s: string): (r: Option<nat>)
    ensures r.Some? <==> |s| > 0 && forall i :: 0 <= i < |s| ==> IsDigit(s[i])
  {
    if |s| > 0 && forall i :: 0 <= i < |s| ==> IsDigit(s[i]) then Some(DigitsValue(s)) else None
  }

  /** Python's `int(s)` on a decimal literal with an optional sign. */
  function ParseInt(s: string): (r: Option<int>)
    ensures |s| > 0 && s[0] != '-' && s[0] != '+' ==> r == (match ParseNat(s) case Some(n) => Some(n as int) case None => None)
    ensures |s| > 0 && s[0] == '-' ==> r == (match ParseNat(s[1..]) case Some(n) => Some(0 - n) case None => None)
    ensures |s| > 0 && s[0] == '+' ==> r == (match ParseNat(s[1..]) case Some(n) => Some(n as int) case None => None)
    ensures s == "" ==> r.None?
  {
    if |s| > 0 && (s[0] == '-' || s[0] == '+') then
      match ParseNat(s[1..])
      case Some(n) => Some(if s[0] == '-' then 0 - n else n)
      case None => None
    else
      match ParseNat(s)
      case Some(n) => Some(n)
      case None => None
  }

  /** The decimal rendering of `n`, Python's `str(n)`. */
  function FormatNat(n: nat): (r: string)
    ensures |r| > 0 && forall i :: 0 <= i < |r| ==> IsDigit(r[i])
    decreases n
  {
    if n < 10 then [('0' as int + n) as char]
    else FormatNat(n / 10) + [('0' as int + n % 10) as char]
  }

  /** Rendering a number in decimal and reading it back gives the number. */
  lemma {:induction false} ParseFormatNat(n: nat)
    ensures ParseNat(FormatNat(n)) == Some(n)
    ensures DigitsValue(FormatNat(n)) == n
    decreases n
  {
    var r := FormatNat(n);
    if n >= 10 {
      ParseFormatNat(n / 10);
      assert r[..|r| - 1] == FormatNat(n / 10);
      assert DigitValue(r[|r| - 1]) == n % 10;
    } else {
      assert r[..0] == [];
      assert DigitValue(r[0]) == n;
      assert DigitsValue(r) == n;
    }
  }

  predicate IsHexDigit(c: char) {
    '0' <= c <= '9' || 'a' <= c <= 'f' || 'A' <= c <= 'F'
  }

  function HexDigitValue(c: char): (v: nat)
    requires IsHexDigit(c)
    ensures v < 16
  {
    if '0' <= c <= '9' then c as int - '0' as int
    else if 'a' <= c <= 'f' then c as int - 'a' as int + 10
    else c as int - 'A' as int + 10
  }

  function HexValue(s: string): nat
    requires forall i :: 0 <= i < |s| ==> IsHexDigit(s[i])
    decreases |s|
  {
    if |s| == 0 then 0 else HexValue(s[..|s| - 1]) * 16 + HexDigitValue(s[|s| - 1])
  }

  /** Python's `int(s, 16)` on a plain run of hexadecimal digits. */
  function ParseHex(s: string): (r: Option<nat>)
    ensures r.Some? <==> |s| > 0 && forall i :: 0 <= i < |s| ==> IsHexDigit(s[i])
  {
    if |s| > 0 && forall i :: 0 <= i < |s| ==> IsHexDigit(s[i]) then Some(HexValue(s)) else None
  }

  /** Python's ordering of strings: lexicographic by code point. */
  predicate StrLe(a: string, b: string)
    decreases |a|
  {
    |a| == 0 || (|b| > 0 && (a[0] < b[0] || (a[0] == b[0] && StrLe(a[1..], b[1..]))))
  }

  lemma {:induction false} StrLeTotal(a: string, b: string)
    ensures StrLe(a, b) || StrLe(b, a)
    decreases |a|
  {
    if |a| > 0 && |b| > 0 && a[0] == b[0] {
      StrLeTotal(a[1..], b[1..]);
    }
  }

  /** Strings that are each at most the other are equal. */
  lemma {:induction false} StrLeAntisymmetric(a: string, b: string)
    requires StrLe(a, b) && StrLe(b, a)
    ensures a == b
    decreases |a|
  {
    if |a| > 0 {
      StrLeAntisymmetric(a[1..], b[1..]);
      assert a == [a[0]] + a[1..] && b == [b[0]] + b[1..];
    }
  }

  lemma {:induction false} StrLeTransitive(a: string, b: string, c: string)
    requires StrLe(a, b) && StrLe(b, c)
    ensures StrLe(a, c)
    decreases |a|
  {
    if |a| > 0 && a[0] == b[0] && b[0] == c[0] {
      StrLeTransitive(a[1..], b[1..], c[1..]);
    }
  }

  /** Taking one more element of a sequence appends that element. */
  lemma TakeNext<T>(s: seq<T>, k: nat)
    requires k < |s|
    ensures s[..k + 1] == s[..k] + [s[k]]
  {
  }

  /** Taking every element of a sequence gives the sequence. */
  lemma TakeAll<T>(s: seq<T>)
    ensures s[..|s|] == s
  {
  }

  /** Every element but the last, then the last. */
  lemma TakeAllButLast<T>(s: seq<T>)
    requires |s| > 0
    ensures s == s[..|s| - 1] + [s[|s| - 1]]
  {
  }

  /** A sequence around its element `i`. */
  lemma Around<T>(s: seq<T>, i: nat)
    requires i < |s|
    ensures s == s[..i] + ([s[i]] + s[i + 1..])
  {
  }

  /** A sequence around its elements `i` and `i + 1`, and the same sequence
      with the two replaced by `x`. */
  lemma AroundTwo<T>(s: seq<T>, i: nat, x: T)
    requires i + 1 < |s|
    ensures s == s[..i] + ([s[i]] + ([s[i + 1]] + s[i + 2..]))
    ensures s[..i] + [x] + s[i + 2..] == s[..i] + ([x] + s[i + 2..])
  {
  }

  /** A sequence extended by one element gives the sequence back on its prefix. */
  lemma Snoc<T>(s: seq<T>, x: T)
    ensures (s + [x])[..|s|] == s && (s + [x])[|s|] == x
  {
  }
}
