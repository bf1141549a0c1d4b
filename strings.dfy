/**
 * The Python string operations the scrapers rely on, over `seq<char>` (Python strings are
 * sequences of code points, as Dafny's `char` is): `strip`, `find`/`rfind`, `in`,
 * `startswith`, `split` with a separator, `join`, `replace`, slicing with negative bounds,
 * `int()` of a decimal string, and the ordering `<` of strings.
 */
module Strings {

  import opened Wrappers

  // ---------------------------------------------------------------------------------------
  // Whitespace and strip()
  // ---------------------------------------------------------------------------------------

  /** Python's `str.isspace` for one character: bidirectional class WS, B or S, or category Zs. */
  predicate IsSpace(c: char) {
    c == ' ' || ('\t' <= c <= '\r') || ('\U{1C}' <= c <= '\U{1F}') || c == '\U{85}'
    || c == '\U{A0}' || c == '\U{1680}' || ('\U{2000}' <= c <= '\U{200A}')
    || c == '\U{2028}' || c == '\U{2029}' || c == '\U{202F}' || c == '\U{205F}' || c == '\U{3000}'
  }

  predicate AllSpace(s: string) {
    forall i :: 0 <= i < |s| ==> IsSpace(s[i])
  }

  /** `s.lstrip()`: the suffix left after dropping the leading whitespace. */
  function TrimLeft(s: string): (r: string)
    ensures |r| <= |s| && r == s[|s| - |r|..]
    ensures AllSpace(s[..|s| - |r|])
    ensures r == [] || !IsSpace(r[0])
  {
    if s != [] && IsSpace(s[0]) then
      var t := s[1..];
      var r := TrimLeft(t);
      var n := |s| - |r|;
      assert t[|t| - |r|..] == s[n..];
      assert AllSpace(s[..n]) by {
        forall i | 0 <= i < n ensures IsSpace(s[..n][i]) {
          if i > 0 {
            assert s[..n][i] == t[..|t| - |r|][i - 1];
          }
        }
      }
      r
    else
      s
  }

  /** `s.rstrip()`: the prefix left after dropping the trailing whitespace. */
  function TrimRight(s: string): (r: string)
    ensures |r| <= |s| && r == s[..|r|]
    ensures AllSpace(s[|r|..])
    ensures r == [] || !IsSpace(r[|r| - 1])
  {
    if s != [] && IsSpace(s[|s| - 1]) then
      var t := s[..|s| - 1];
      var r := TrimRight(t);
      assert t[..|r|] == s[..|r|];
      assert AllSpace(s[|r|..]) by {
        forall i | 0 <= i < |s| - |r| ensures IsSpace(s[|r|..][i]) {
          if i < |t| - |r| {
            assert s[|r|..][i] == t[|r|..][i];
          }
        }
      }
      r
    else
      s
  }

  /** `s.strip()`. */
  function Strip(s: string): (r: string)
    ensures |r| <= |s|
    ensures r == [] || (!IsSpace(r[0]) && !IsSpace(r[|r| - 1]))
    ensures (s == [] || (!IsSpace(s[0]) && !IsSpace(s[|s| - 1]))) ==> r == s
  {
    TrimRight(TrimLeft(s))
  }

  /** Strip only removes characters: every character it keeps comes from `s`. */
  lemma StripKeepsCharacters(s: string, c: char)
    requires c in Strip(s)
    ensures c in s
  {
    var l := TrimLeft(s);
    var r := TrimRight(l);
    var i :| 0 <= i < |r| && r[i] == c;
    assert r[i] == l[i] == s[|s| - |l| + i];
  }

  lemma StripIdempotent(s: string)
    ensures Strip(Strip(s)) == Strip(s)
  {
  }

  // ---------------------------------------------------------------------------------------
  // Occurrences: find(), rfind(), `in`, startswith()
  // ---------------------------------------------------------------------------------------

  /** `pat` occurs in `s` at index `k`. */
  predicate OccursAt(s: string, pat: string, k: int) {
    0 <= k && k + |pat| <= |s| && s[k..k + |pat|] == pat
  }

  /** Python's `pat in s`. */
  predicate Contains(s: string, pat: string) {
    exists k :: 0 <= k <= |s| - |pat| && OccursAt(s, pat, k)
  }

  /** The first index at or after `i` where `pat` occurs, or -1. */
  function FindFrom(s: string, pat: string, i: nat): (r: int)
    requires i <= |s|
    decreases |s| - i
    ensures r == -1 || (i <= r && OccursAt(s, pat, r))
  {
    if i + |pat| > |s| then -1
    else if s[i..i + |pat|] == pat then i
    else FindFrom(s, pat, i + 1)
  }

  /** No occurrence at or after `i` comes before the one `FindFrom` returns. */
  lemma {:induction false} FindFromFirst(s: string, pat: string, i: nat, k: int)
    requires i <= |s| && i <= k
    requires FindFrom(s, pat, i) == -1 || k < FindFrom(s, pat, i)
    decreases |s| - i
    ensures !OccursAt(s, pat, k)
  {
    if i + |pat| <= |s| && s[i..i + |pat|] != pat && i < k {
      FindFromFirst(s, pat, i + 1, k);
    }
  }

  /** `s.find(pat)`: the first occurrence of `pat`, or -1 when there is none. */
  function Find(s: string, pat: string): (r: int)
    ensures r == -1 || OccursAt(s, pat, r)
  {
    FindFrom(s, pat, 0)
  }

  /** `pat` does not occur before the index `find` returns, nor anywhere when it returns -1. */
  lemma FindFirst(s: string, pat: string, k: int)
    requires 0 <= k && (Find(s, pat) == -1 || k < Find(s, pat))
    ensures !OccursAt(s, pat, k)
  {
    FindFromFirst(s, pat, 0, k);
  }

  /** `find` returns -1 exactly when `pat` does not occur. */
  lemma FindNone(s: string, pat: string)
    ensures Find(s, pat) == -1 <==> !Contains(s, pat)
  {
    if Find(s, pat) == -1 && Contains(s, pat) {
      var k :| 0 <= k <= |s| - |pat| && OccursAt(s, pat, k);
      FindFirst(s, pat, k);
    }
  }

  /** The last index at or below `i` where `pat` occurs, or -1. */
  function RFindBelow(s: string, pat: string, i: int): (r: int)
    decreases i + 1
    ensures r == -1 || (0 <= r <= i && OccursAt(s, pat, r))
  {
    if i < 0 then -1
    else if OccursAt(s, pat, i) then i
    else RFindBelow(s, pat, i - 1)
  }

  /** No occurrence at or below `i` comes after the one `RFindBelow` returns. */
  lemma {:induction false} RFindBelowLast(s: string, pat: string, i: int, k: int)
    requires RFindBelow(s, pat, i) < k <= i
    decreases i + 1
    ensures !OccursAt(s, pat, k)
  {
    if !OccursAt(s, pat, i) && k < i {
      RFindBelowLast(s, pat, i - 1, k);
    }
  }

  /** `s.rfind(pat)`: the last occurrence of `pat`, or -1 when there is none. */
  function RFind(s: string, pat: string): (r: int)
    ensures r == -1 || OccursAt(s, pat, r)
  {
    RFindBelow(s, pat, |s| - |pat|)
  }

  /** `pat` does not occur after the index `rfind` returns. */
  lemma RFindLast(s: string, pat: string, k: int)
    requires RFind(s, pat) < k
    ensures !OccursAt(s, pat, k)
  {
    if k <= |s| - |pat| {
      RFindBelowLast(s, pat, |s| - |pat|, k);
    }
  }

  /** `rfind` returns -1 exactly when `pat` does not occur. */
  lemma RFindNone(s: string, pat: string)
    ensures RFind(s, pat) == -1 <==> !Contains(s, pat)
  {
    if RFind(s, pat) == -1 && Contains(s, pat) {
      var k :| 0 <= k <= |s| - |pat| && OccursAt(s, pat, k);
      RFindLast(s, pat, k);
    }
  }

  /** `s.startswith(p)`. */
  predicate StartsWith(s: string, p: string) {
    |p| <= |s| && s[..|p|] == p
  }

  /** For a one-character pattern, an occurrence is just that character. */
  lemma OccursAtSingle(s: string, c: char, k: int)
    ensures OccursAt(s, [c], k) <==> 0 <= k < |s| && s[k] == c
  {
    if 0 <= k < |s| && s[k] == c {
      assert s[k..k + 1] == [c];
    }
  }

  lemma ContainsSingle(s: string, c: char)
    ensures Contains(s, [c]) <==> c in s
  {
    if c in s {
      var k :| 0 <= k < |s| && s[k] == c;
      OccursAtSingle(s, c, k);
    }
    if Contains(s, [c]) {
      var k :| OccursAt(s, [c], k);
      OccursAtSingle(s, c, k);
    }
  }

  // ---------------------------------------------------------------------------------------
  // split(), join(), replace()
  // ---------------------------------------------------------------------------------------

  /** `sep.join(ps)`. */
  function Join(ps: seq<string>, sep: string): string {
    if |ps| == 0 then ""
    else if |ps| == 1 then ps[0]
    else ps[0] + sep + Join(ps[1..], sep)
  }

  /**
   * `s.split(sep)` for a non-empty separator: the pieces between the occurrences of `sep`,
   * found left to right without overlap. There is always at least one piece, and joining
   * the pieces with `sep` gives `s` back.
   */
  function Split(s: string, sep: string): (r: seq<string>)
    requires |sep| > 0
    decreases |s|
    ensures |r| >= 1
    ensures Join(r, sep) == s
  {
    var k := Find(s, sep);
    if k < 0 then [s]
    else
      var rest := Split(s[k + |sep|..], sep);
      assert s == s[..k] + sep + s[k + |sep|..] by {
        assert s[k..k + |sep|] == sep;
        assert s == s[..k] + s[k..k + |sep|] + s[k + |sep|..];
      }
      assert ([s[..k]] + rest)[1..] == rest;
      [s[..k]] + rest
  }

  /** An occurrence inside a prefix is an occurrence in the whole string. */
  lemma OccursInPrefix(s: string, pat: string, n: nat, k: int)
    requires n <= |s| && OccursAt(s[..n], pat, k)
    ensures OccursAt(s, pat, k)
  {
    assert s[..n][k..k + |pat|] == s[k..k + |pat|];
  }

  /** No piece of a split contains the separator. */
  lemma {:induction false} SplitPiecesAreFree(s: string, sep: string)
    requires |sep| > 0
    decreases |s|
    ensures forall i :: 0 <= i < |Split(s, sep)| ==> !Contains(Split(s, sep)[i], sep)
  {
    var k := Find(s, sep);
    if k < 0 {
      FindNone(s, sep);
    } else {
      SplitPiecesAreFree(s[k + |sep|..], sep);
      if Contains(s[..k], sep) {
        var j :| OccursAt(s[..k], sep, j);
        OccursInPrefix(s, sep, k, j);
        FindFirst(s, sep, j);
      }
      var r := Split(s, sep);
      assert r == [s[..k]] + Split(s[k + |sep|..], sep);
    }
  }

  /** The first occurrence of a one-character separator after a piece that lacks it. */
  lemma FindAfterFreePiece(a: string, sep: string, b: string)
    requires |sep| == 1 && sep[0] !in a
    ensures Find(a + sep + b, sep) == |a|
  {
    var s := a + sep + b;
    OccursAtSingle(s, sep[0], |a|);
    assert [sep[0]] == sep;
    var r := Find(s, sep);
    if r == -1 || r > |a| {
      FindFirst(s, sep, |a|);
    } else if r < |a| {
      OccursAtSingle(s, sep[0], r);
    }
  }

  /** Splitting the join of pieces free of a one-character separator gives the pieces back. */
  lemma {:induction false} SplitJoin(ps: seq<string>, sep: string)
    requires |sep| == 1 && |ps| >= 1
    requires forall i :: 0 <= i < |ps| ==> sep[0] !in ps[i]
    ensures Split(Join(ps, sep), sep) == ps
  {
    assert [sep[0]] == sep;
    if |ps| == 1 {
      ContainsSingle(ps[0], sep[0]);
    } else {
      var s := Join(ps, sep);
      assert s == ps[0] + sep + Join(ps[1..], sep);
      FindAfterFreePiece(ps[0], sep, Join(ps[1..], sep));
      assert s[|ps[0]| + |sep|..] == Join(ps[1..], sep);
      assert s[..|ps[0]|] == ps[0];
      SplitJoin(ps[1..], sep);
    }
  }

  /** A string free of a one-character separator splits into itself alone. */
  lemma SplitFree(a: string, sep: string)
    requires |sep| == 1 && sep[0] !in a
    ensures Split(a, sep) == [a]
  {
    SplitJoin([a], sep);
  }

  /** Splitting at the first separator: the piece before it, then the split of the rest. */
  lemma SplitCons(a: string, sep: string, b: string)
    requires |sep| == 1 && sep[0] !in a
    ensures Split(a + sep + b, sep) == [a] + Split(b, sep)
  {
    var s := a + sep + b;
    FindAfterFreePiece(a, sep, b);
    assert s[..|a|] == a;
    assert s[|a| + |sep|..] == b;
  }

  /** `xs[-1]`. */
  function Last<T>(xs: seq<T>): T
    requires |xs| > 0
  {
    xs[|xs| - 1]
  }

  /** A string holding `c` is the part before its first `c`, then `c`, then the rest. */
  lemma {:induction false} SplitAtFirst(a: string, c: char) returns (a1: string, a2: string)
    requires c in a
    ensures a == a1 + [c] + a2 && c !in a1
  {
    if a[0] == c {
      a1, a2 := [], a[1..];
    } else {
      var b1, b2 := SplitAtFirst(a[1..], c);
      a1, a2 := [a[0]] + b1, b2;
    }
  }

  /** The last piece of a split is what follows the last separator. */
  lemma {:induction false} SplitLastPiece(a: string, sep: string, b: string)
    requires |sep| == 1 && sep[0] !in b
    decreases |a|
    ensures Last(Split(a + sep + b, sep)) == b
  {
    if sep[0] !in a {
      SplitCons(a, sep, b);
      SplitFree(b, sep);
    } else {
      var a1, a2 := SplitAtFirst(a, sep[0]);
      assert [sep[0]] == sep;
      assert a + sep + b == a1 + sep + (a2 + sep + b);
      SplitCons(a1, sep, a2 + sep + b);
      SplitLastPiece(a2, sep, b);
    }
  }

  /**
   * `s.replace(pat, repl)` for a non-empty `pat`: every occurrence, found left to right
   * without overlap, is replaced.
   */
  function ReplaceAll(s: string, pat: string, repl: string): string
    requires |pat| > 0
    decreases |s|
  {
    var k := Find(s, pat);
    if k < 0 then s else s[..k] + repl + ReplaceAll(s[k + |pat|..], pat, repl)
  }

  /** Replacing is splitting on `pat` and joining with `repl`. */
  lemma {:induction false} ReplaceIsSplitJoin(s: string, pat: string, repl: string)
    requires |pat| > 0
    decreases |s|
    ensures ReplaceAll(s, pat, repl) == Join(Split(s, pat), repl)
  {
    var k := Find(s, pat);
    if k >= 0 {
      var rest := Split(s[k + |pat|..], pat);
      ReplaceIsSplitJoin(s[k + |pat|..], pat, repl);
      assert Split(s, pat) == [s[..k]] + rest;
      assert ([s[..k]] + rest)[1..] == rest;
    }
  }

  /** A string without `pat` is left unchanged by replace. */
  lemma ReplaceAbsent(s: string, pat: string, repl: string)
    requires |pat| > 0 && !Contains(s, pat)
    ensures ReplaceAll(s, pat, repl) == s
  {
    FindNone(s, pat);
  }

  // ---------------------------------------------------------------------------------------
  // Slicing with Python's index rules
  // ---------------------------------------------------------------------------------------

  /** A slice bound as Python normalises it: negative counts from the end, then clamped. */
  function SliceBound(i: int, n: nat): (r: nat)
    ensures r <= n
    ensures 0 <= i <= n ==> r == i
    ensures -(n as int) <= i < 0 ==> r == n + i
  {
    if i < 0 then (if i + n < 0 then 0 else i + n)
    else if i > n then n
    else i
  }

  /** `s[a:b]`. */
  function PySlice(s: string, a: int, b: int): string {
    var lo := SliceBound(a, |s|);
    var hi := SliceBound(b, |s|);
    if lo < hi then s[lo..hi] else []
  }

  // ---------------------------------------------------------------------------------------
  // Digits and int()
  // ---------------------------------------------------------------------------------------

  predicate IsDigit(c: char) {
    '0' <= c <= '9'
  }

  predicate AllDigits(s: string) {
    forall i :: 0 <= i < |s| ==> IsDigit(s[i])
  }

  function DigitValue(c: char): nat
    requires IsDigit(c)
  {
    c as int - '0' as int
  }

  function DigitChar(d: nat): (c: char)
    requires d < 10
    ensures IsDigit(c) && DigitValue(c) == d
  {
    ('0' as int + d) as char
  }

  /** The number written by a string of decimal digits, most significant first. */
  function DigitsValue(ds: string): nat
    requires AllDigits(ds)
  {
    if ds == [] then 0 else DigitsValue(ds[..|ds| - 1]) * 10 + DigitValue(ds[|ds| - 1])
  }

  /** `str(n)` for a natural number: decimal, without leading zeros. */
  function NatToString(n: nat): (r: string)
    ensures |r| >= 1 && AllDigits(r)
    ensures DigitsValue(r) == n
    ensures r[0] != '0' || r == "0"
  {
    if n < 10 then [DigitChar(n)]
    else
      var r := NatToString(n / 10) + [DigitChar(n % 10)];
      assert r[..|r| - 1] == NatToString(n / 10);
      r
  }

  /** `n` written in decimal with leading zeros up to `width` digits, as `%0<width>d` does. */
  function ZeroPad(n: nat, width: nat): (r: string)
    ensures AllDigits(r) && DigitsValue(r) == n
    ensures |r| == if |NatToString(n)| < width then width else |NatToString(n)|
  {
    var digits := NatToString(n);
    if |digits| < width then
      DigitsValueZeroPrefix(Zeros(width - |digits|), digits);
      Zeros(width - |digits|) + digits
    else
      digits
  }

  function Pow10(k: nat): (r: nat)
    ensures r >= 1
  {
    if k == 0 then 1 else 10 * Pow10(k - 1)
  }

  /** A number below `10^w` takes at most `w` digits. */
  lemma {:induction false} NatToStringLength(n: nat, w: nat)
    requires w >= 1 && n < Pow10(w)
    ensures |NatToString(n)| <= w
  {
    if n >= 10 {
      NatToStringLength(n / 10, w - 1);
    }
  }

  function Zeros(k: nat): (r: string)
    ensures |r| == k && AllDigits(r) && DigitsValue(r) == 0
    ensures forall i :: 0 <= i < k ==> r[i] == '0'
  {
    if k == 0 then "" else
      var r := Zeros(k - 1) + "0";
      assert r[..|r| - 1] == Zeros(k - 1);
      r
  }

  /** Leading zeros do not change the value of a digit string. */
  lemma {:induction false} DigitsValueZeroPrefix(z: string, ds: string)
    requires AllDigits(z) && DigitsValue(z) == 0 && AllDigits(ds)
    ensures AllDigits(z + ds) && DigitsValue(z + ds) == DigitsValue(ds)
    decreases |ds|
  {
    if ds == [] {
      assert z + ds == z;
    } else {
      var ds' := ds[..|ds| - 1];
      assert (z + ds)[..|z + ds| - 1] == z + ds';
      DigitsValueZeroPrefix(z, ds');
    }
  }

  /**
   * The body of a decimal literal as `int()` accepts it: digits, where a single underscore
   * may stand between two digits.
   */
  predicate IsDigitGroups(b: string) {
    && |b| > 0 && IsDigit(b[0]) && IsDigit(b[|b| - 1])
    && (forall i :: 0 <= i < |b| ==> IsDigit(b[i]) || b[i] == '_')
    && !Contains(b, "__")
  }

  function RemoveUnderscores(b: string): (r: string)
    ensures (forall i :: 0 <= i < |b| ==> IsDigit(b[i]) || b[i] == '_') ==> AllDigits(r)
    ensures AllDigits(b) ==> r == b
  {
    if b == [] then []
    else (if b[0] == '_' then [] else [b[0]]) + RemoveUnderscores(b[1..])
  }

  /**
   * `int(s)` for a decimal string: surrounding whitespace, an optional sign, then digit
   * groups; anything else is the ValueError `int()` raises, here None.
   */
  function ParseInt(s: string): (r: Option<int>)
    ensures r.Some? ==> |Strip(s)| > 0
  {
    var t := Strip(s);
    if |t| > 0 && (t[0] == '+' || t[0] == '-') then
      match ParseDigitGroups(t[1..])
      case None => None
      case Some(v) => Some(if t[0] == '-' then -(v as int) else v as int)
    else
      match ParseDigitGroups(t)
      case None => None
      case Some(v) => Some(v)
  }

  function ParseDigitGroups(b: string): Option<nat> {
    if IsDigitGroups(b) then
      Some(DigitsValue(RemoveUnderscores(b)))
    else
      None
  }

  /** A non-empty run of digits is a valid literal body. */
  lemma DigitsAreGroups(r: string)
    requires |r| > 0 && AllDigits(r)
    ensures IsDigitGroups(r)
  {
    forall k | 0 <= k <= |r| - 2
      ensures !OccursAt(r, "__", k)
    {
      assert r[k..k + 2][0] == r[k];
    }
  }

  /** A non-empty run of digits has nothing to strip. */
  lemma DigitsUnstripped(r: string)
    requires |r| > 0 && AllDigits(r)
    ensures Strip(r) == r
  {
    assert !IsSpace(r[0]) && !IsSpace(r[|r| - 1]);
  }

  /** `int(str(n)) == n`. */
  lemma ParseIntOfNat(n: nat)
    ensures ParseInt(NatToString(n)) == Some(n)
  {
    var r := NatToString(n);
    DigitsUnstripped(r);
    DigitsAreGroups(r);
    assert r[0] != '+' && r[0] != '-';
    assert ParseDigitGroups(r) == Some(n);
  }

  // ---------------------------------------------------------------------------------------
  // ASCII helpers
  // ---------------------------------------------------------------------------------------

  predicate IsAsciiAlnum(c: char) {
    ('a' <= c <= 'z') || ('A' <= c <= 'Z') || ('0' <= c <= '9')
  }

  /** `re.sub("[^a-zA-Z0-9]", "", s)`: keeps exactly the ASCII letters and digits, in order. */
  function KeepAsciiAlnum(s: string): (r: string)
    ensures forall i :: 0 <= i < |r| ==> IsAsciiAlnum(r[i])
    ensures forall c :: c in r <==> c in s && IsAsciiAlnum(c)
    ensures |r| <= |s|
  {
    if s == [] then []
    else (if IsAsciiAlnum(s[0]) then [s[0]] else []) + KeepAsciiAlnum(s[1..])
  }

  /** Filtering twice is filtering once. */
  lemma {:induction false} KeepAsciiAlnumIdempotent(s: string)
    ensures KeepAsciiAlnum(KeepAsciiAlnum(s)) == KeepAsciiAlnum(s)
  {
    var r := KeepAsciiAlnum(s);
    KeepAsciiAlnumOfAlnum(r);
  }

  lemma {:induction false} KeepAsciiAlnumOfAlnum(s: string)
    requires forall i :: 0 <= i < |s| ==> IsAsciiAlnum(s[i])
    ensures KeepAsciiAlnum(s) == s
  {
    if s != [] {
      KeepAsciiAlnumOfAlnum(s[1..]);
    }
  }

  /** ASCII-only lower-casing, the case folding SQLite's LIKE applies. */
  function AsciiLower(c: char): (r: char)
    ensures ('A' <= c <= 'Z') ==> r as int == c as int + 32
    ensures !('A' <= c <= 'Z') ==> r == c
  {
    if 'A' <= c <= 'Z' then (c as int + 32) as char else c
  }

  function AsciiLowerString(s: string): (r: string)
    ensures |r| == |s| && forall i :: 0 <= i < |s| ==> r[i] == AsciiLower(s[i])
  {
    seq(|s|, i requires 0 <= i < |s| => AsciiLower(s[i]))
  }

  // ---------------------------------------------------------------------------------------
  // Python's ordering of strings
  // ---------------------------------------------------------------------------------------

  /** `a <= b` on Python strings: lexicographic by code point, a proper prefix first. */
  predicate StrLe(a: string, b: string) {
    if a == [] then true
    else if b == [] then false
    else if a[0] != b[0] then a[0] < b[0]
    else StrLe(a[1..], b[1..])
  }

  lemma {:induction false} StrLeTotal(a: string, b: string)
    ensures StrLe(a, b) || StrLe(b, a)
  {
    if a != [] && b != [] && a[0] == b[0] {
      StrLeTotal(a[1..], b[1..]);
    }
  }

  lemma {:induction false} StrLeTransitive(a: string, b: string, c: string)
    requires StrLe(a, b) && StrLe(b, c)
    ensures StrLe(a, c)
  {
    if a != [] && b != [] && c != [] && a[0] == b[0] && b[0] == c[0] {
      StrLeTransitive(a[1..], b[1..], c[1..]);
    }
  }

  lemma {:induction false} StrLeAntisymmetric(a: string, b: string)
    requires StrLe(a, b) && StrLe(b, a)
    ensures a == b
  {
    if a != [] && b != [] {
      StrLeAntisymmetric(a[1..], b[1..]);
      assert a == [a[0]] + a[1..] && b == [b[0]] + b[1..];
    }
  }
}
