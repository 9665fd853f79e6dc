/*
 * The JavaScript string and number primitives the suite leans on, written out
 * so that their edge cases are explicit: whitespace trimming, ASCII lower-casing,
 * substring search, splitting, `parseInt`, `Number` and decimal printing.
 * JavaScript's NaN is the `NaN` case of `Num`; every comparison with it is false.
 */
module JsStrings {

  datatype Option<T> = None | Some(value: T)

  /** An integer-valued JavaScript number, or NaN. */
  datatype Num = Int(v: int) | NaN

  /** `a < b` in JavaScript: false whenever either side is NaN. */
  predicate Lt(a: Num, b: Num) { a.Int? && b.Int? && a.v < b.v }
  predicate Le(a: Num, b: Num) { a.Int? && b.Int? && a.v <= b.v }

  function Add(a: Num, b: Num): Num { if a.Int? && b.Int? then Int(a.v + b.v) else NaN }
  function Sub(a: Num, b: Num): Num { if a.Int? && b.Int? then Int(a.v - b.v) else NaN }
  function Mul(a: Num, b: Num): Num { if a.Int? && b.Int? then Int(a.v * b.v) else NaN }

  // ---------------------------------------------------------------- characters

  predicate IsDigit(c: char) { '0' <= c <= '9' }

  function DigitValue(c: char): (d: nat)
    requires IsDigit(c)
    ensures d < 10
  { (c as int - '0' as int) as nat }

  function DigitChar(d: nat): (c: char)
    requires d < 10
    ensures IsDigit(c) && DigitValue(c) == d
  { ('0' as int + d) as char }

  /** The white space that `trim` removes and `\s` matches: the ECMAScript WhiteSpace and LineTerminator characters. */
  predicate IsSpace(c: char) {
    c == ' ' || c == '\t' || c == '\n' || c == '\r' || c == '\U{000B}' || c == '\U{000C}'
    || c == '\U{00A0}' || c == '\U{FEFF}' || c == '\U{2028}' || c == '\U{2029}'
    || c == '\U{1680}' || ('\U{2000}' <= c <= '\U{200A}') || c == '\U{202F}' || c == '\U{205F}' || c == '\U{3000}'
  }

  /** `toLowerCase` on one character; only the ASCII letters are mapped. */
  function LowerChar(c: char): char {
    if 'A' <= c <= 'Z' then (c as int + 32) as char else c
  }

  // ---------------------------------------------------------------- trimming

  /** `trimStart`: drops the white space at the front (see `TrimStartSpec`). */
  function TrimStart(s: string): (r: string)
    ensures |r| <= |s|
  {
    if s != [] && IsSpace(s[0]) then TrimStart(s[1..]) else s
  }

  /** `trimEnd`: drops the white space at the back (see `TrimEndSpec`). */
  function TrimEnd(s: string): (r: string)
    ensures |r| <= |s|
  {
    if s != [] && IsSpace(s[|s| - 1]) then TrimEnd(s[..|s| - 1]) else s
  }

  /** What is left is a suffix that does not start with white space, and only white space was cut. */
  lemma {:induction false} TrimStartSpec(s: string)
    ensures var r := TrimStart(s);
            r == s[|s| - |r|..] && (r == [] || !IsSpace(r[0]))
            && forall k :: 0 <= k < |s| - |r| ==> IsSpace(s[k])
  {
    if s != [] && IsSpace(s[0]) {
      TrimStartSpec(s[1..]);
    }
  }

  /** What is left is a prefix that does not end with white space, and only white space was cut. */
  lemma {:induction false} TrimEndSpec(s: string)
    ensures var r := TrimEnd(s);
            r == s[..|r|] && (r == [] || !IsSpace(r[|r| - 1]))
            && forall k :: |r| <= k < |s| ==> IsSpace(s[k])
  {
    if s != [] && IsSpace(s[|s| - 1]) {
      TrimEndSpec(s[..|s| - 1]);
    }
  }

  /** `String.prototype.trim`. */
  function Trim(s: string): string { TrimEnd(TrimStart(s)) }

  /** `trim` leaves a string that neither starts nor ends with white space, and only white space was cut off. */
  lemma TrimShape(s: string)
    ensures Trim(s) == [] || (!IsSpace(Trim(s)[0]) && !IsSpace(Trim(s)[|Trim(s)| - 1]))
    ensures exists i :: OccursAt(s, Trim(s), i)
  {
    var a := TrimStart(s);
    var r := TrimEnd(a);
    TrimStartSpec(s);
    TrimEndSpec(a);
    assert Trim(s) == r;
    if r != [] {
      assert r[0] == a[0];
    }
    var i := |s| - |a|;
    assert s[i..i + |r|] == a[..|r|];
    assert OccursAt(s, r, i);
  }

  /** Trimming only removes characters. */
  lemma TrimKeeps(s: string)
    ensures forall c :: c in Trim(s) ==> c in s
  {
    TrimShape(s);
    var i :| OccursAt(s, Trim(s), i);
    forall c | c in Trim(s)
      ensures c in s
    {
      var k :| 0 <= k < |Trim(s)| && Trim(s)[k] == c;
      assert s[i + k] == c;
    }
  }

  /** Text that does not end in white space keeps its end. */
  lemma TrimEndUnchanged(s: string)
    requires s == [] || !IsSpace(s[|s| - 1])
    ensures TrimEnd(s) == s
  {
  }

  // ---------------------------------------------------------------- case

  /** `toLowerCase` (ASCII letters only), character by character. */
  function ToLower(s: string): (r: string)
    ensures |r| == |s|
    decreases |s|
  {
    if s == [] then [] else [LowerChar(s[0])] + ToLower(s[1..])
  }

  /** Lower-casing a tail is taking the tail of the lower-cased text. */
  lemma {:induction false} ToLowerDrop(s: string, i: nat)
    requires i <= |s|
    ensures ToLower(s[i..]) == ToLower(s)[i..]
    decreases i
  {
    if i > 0 {
      ToLowerDrop(s[1..], i - 1);
      assert s[1..][i - 1..] == s[i..];
    }
  }

  /** Lower-casing a prefix is taking the prefix of the lower-cased text. */
  lemma {:induction false} ToLowerTake(s: string, j: nat)
    requires j <= |s|
    ensures ToLower(s[..j]) == ToLower(s)[..j]
    decreases j
  {
    if j > 0 {
      ToLowerTake(s[1..], j - 1);
      assert s[..j][1..] == s[1..][..j - 1];
    }
  }

  /** Lower-casing a slice is slicing the lower-cased text. */
  lemma ToLowerSlice(s: string, i: nat, j: nat)
    requires i <= j <= |s|
    ensures ToLower(s[i..j]) == ToLower(s)[i..j]
  {
    ToLowerTake(s, j);
    ToLowerDrop(s[..j], i);
    assert s[..j][i..] == s[i..j];
  }

  // ---------------------------------------------------------------- order

  /** Code-unit order on strings, standing in for `localeCompare(...) <= 0`. */
  predicate StrLe(a: string, b: string)
    decreases |a|
  {
    a == [] || (b != [] && (a[0] < b[0] || (a[0] == b[0] && StrLe(a[1..], b[1..]))))
  }

  /** Any two strings are ordered one way or the other. */
  lemma {:induction false} StrLeTotal(a: string, b: string)
    ensures StrLe(a, b) || StrLe(b, a)
    decreases |a|
  {
    if a != [] && b != [] && a[0] == b[0] {
      StrLeTotal(a[1..], b[1..]);
    }
  }

  /** Every string is ordered with itself. */
  lemma {:induction false} StrLeRefl(a: string)
    ensures StrLe(a, a)
    decreases |a|
  {
    if a != [] {
      StrLeRefl(a[1..]);
    }
  }

  /** The order is transitive. */
  lemma {:induction false} StrLeTrans(a: string, b: string, c: string)
    requires StrLe(a, b) && StrLe(b, c)
    ensures StrLe(a, c)
    decreases |a|
  {
    if a != [] && a[0] == b[0] && b[0] == c[0] {
      StrLeTrans(a[1..], b[1..], c[1..]);
    }
  }

  // ---------------------------------------------------------------- search

  /** `t` occurs in `s` starting at index `i`. */
  predicate OccursAt(s: string, t: string, i: int) {
    0 <= i && i + |t| <= |s| && s[i..i + |t|] == t
  }

  /** `s.includes(t)`. */
  predicate Includes(s: string, t: string) {
    exists i | 0 <= i <= |s| - |t| :: OccursAt(s, t, i)
  }

  /** `s.indexOf(t, from)`: the first occurrence at or after `from`, or -1 (see `IndexOfSpec`). */
  function IndexOf(s: string, t: string, from: nat): (r: int)
    requires from <= |s|
    ensures r == -1 || (from <= r && r + |t| <= |s|)
    decreases |s| - from
  {
    if from + |t| > |s| then -1
    else if s[from..from + |t|] == t then from
    else if from == |s| then -1
    else IndexOf(s, t, from + 1)
  }

  /** The index found is an occurrence, and no occurrence lies between `from` and it. */
  lemma {:induction false} IndexOfSpec(s: string, t: string, from: nat)
    requires from <= |s|
    ensures var r := IndexOf(s, t, from);
            (r == -1 || OccursAt(s, t, r))
            && forall i :: from <= i && (r == -1 || i < r) ==> !OccursAt(s, t, i)
    decreases |s| - from
  {
    if from + |t| <= |s| && s[from..from + |t|] != t && from < |s| {
      IndexOfSpec(s, t, from + 1);
    }
  }

  lemma IncludesIndexOf(s: string, t: string)
    ensures Includes(s, t) <==> IndexOf(s, t, 0) != -1
  {
    IndexOfSpec(s, t, 0);
  }

  lemma IncludesEmpty(s: string)
    ensures Includes(s, "")
  {
    assert OccursAt(s, "", 0);
  }

  /** `s.startsWith(p)`. */
  predicate StartsWith(s: string, p: string) { |p| <= |s| && s[..|p|] == p }

  /** `s.endsWith(p)`. */
  predicate EndsWith(s: string, p: string) { |p| <= |s| && s[|s| - |p|..] == p }

  lemma EndsWithIncludes(s: string, p: string)
    requires EndsWith(s, p)
    ensures Includes(s, p)
  {
    assert OccursAt(s, p, |s| - |p|);
  }

  // ---------------------------------------------------------------- split

  /** The index of the first `c` in `s`, or -1 (see `FindCharFirst`). */
  function FindChar(s: string, c: char): (r: int)
    ensures r == -1 || (0 <= r < |s| && s[r] == c)
  {
    if s == [] then -1
    else if s[0] == c then 0
    else var r := FindChar(s[1..], c); if r == -1 then -1 else r + 1
  }

  /** No `c` comes before the index found, and -1 means there is none. */
  lemma {:induction false} FindCharFirst(s: string, c: char)
    ensures FindChar(s, c) == -1 ==> c !in s
    ensures FindChar(s, c) != -1 ==> c !in s[..FindChar(s, c)]
  {
    if s != [] && s[0] != c {
      FindCharFirst(s[1..], c);
      var r := FindChar(s[1..], c);
      if r != -1 {
        assert s[..r + 1] == [s[0]] + s[1..][..r];
      } else {
        assert s == [s[0]] + s[1..];
      }
    }
  }

  /** The first `c` is at `i` exactly when `s[i] == c` and no `c` precedes it. */
  lemma FindCharAt(s: string, c: char, i: int)
    requires 0 <= i < |s| && s[i] == c && c !in s[..i]
    ensures FindChar(s, c) == i
  {
    FindCharFirst(s, c);
  }

  /** `s.split(c)` for a one-character separator. */
  function Split(s: string, c: char): (parts: seq<string>)
    ensures |parts| >= 1
    decreases |s|
  {
    var i := FindChar(s, c);
    if i == -1 then [s] else [s[..i]] + Split(s[i + 1..], c)
  }

  /** No piece of `s.split(c)` contains `c`. */
  lemma {:induction false} SplitPieces(s: string, c: char)
    ensures forall k :: 0 <= k < |Split(s, c)| ==> c !in Split(s, c)[k]
    decreases |s|
  {
    FindCharFirst(s, c);
    var i := FindChar(s, c);
    if i != -1 {
      SplitPieces(s[i + 1..], c);
      SplitCons(s, c, i);
    }
  }

  /** `parts.join(c)`. */
  function Join(parts: seq<string>, c: char): string
    requires |parts| >= 1
  {
    if |parts| == 1 then parts[0] else parts[0] + [c] + Join(parts[1..], c)
  }

  /** Splitting and re-joining at the same separator gives back the string. */
  lemma {:induction false} SplitJoin(s: string, c: char)
    ensures Join(Split(s, c), c) == s
    decreases |s|
  {
    var i := FindChar(s, c);
    if i != -1 {
      var head, tail := s[..i], s[i + 1..];
      var rest := Split(tail, c);
      SplitJoin(tail, c);
      SplitCons(s, c, i);
      JoinCons(head, rest, c);
      assert s == head + [c] + tail;
    }
  }

  lemma SplitCons(s: string, c: char, i: int)
    requires i == FindChar(s, c) && i != -1
    ensures Split(s, c) == [s[..i]] + Split(s[i + 1..], c)
  {
  }

  lemma JoinCons(head: string, rest: seq<string>, c: char)
    requires |rest| >= 1
    ensures Join([head] + rest, c) == head + [c] + Join(rest, c)
  {
    assert ([head] + rest)[1..] == rest;
  }

  /** The first piece of `s.split(c)` is everything before the first `c`. */
  lemma SplitHead(s: string, c: char, i: int)
    requires 0 <= i < |s| && s[i] == c && c !in s[..i]
    ensures |Split(s, c)| >= 2 && Split(s, c)[0] == s[..i]
  {
    FindCharAt(s, c, i);
    SplitCons(s, c, i);
  }

  lemma SplitNoSeparator(s: string, c: char)
    requires c !in s
    ensures Split(s, c) == [s]
  {
    assert FindChar(s, c) == -1;
  }

  /** Two pieces joined by the separator split back into those two pieces. */
  lemma SplitTwo(a: string, b: string, c: char)
    requires c !in a && c !in b
    ensures Split(a + [c] + b, c) == [a, b]
  {
    var s := a + [c] + b;
    assert s[|a|] == c && s[..|a|] == a && s[|a| + 1..] == b;
    FindCharAt(s, c, |a|);
    SplitCons(s, c, |a|);
    SplitNoSeparator(b, c);
  }

  // ---------------------------------------------------------------- numbers

  /** The value of a run of decimal digits; it is only applied to digits, anything else counting as 0. */
  function DigitsValue(s: string): (n: nat)
  {
    if s == [] then 0
    else 10 * DigitsValue(s[..|s| - 1]) + (if IsDigit(s[|s| - 1]) then DigitValue(s[|s| - 1]) else 0)
  }

  /** The length of the longest prefix of `s` made of digits. */
  function DigitPrefix(s: string): (n: nat)
    ensures n <= |s|
    ensures n == |s| || !IsDigit(s[n])
  {
    if s != [] && IsDigit(s[0]) then 1 + DigitPrefix(s[1..]) else 0
  }

  /** Every character of the digit prefix is a digit. */
  lemma {:induction false} DigitPrefixDigits(s: string)
    ensures forall k :: 0 <= k < DigitPrefix(s) ==> IsDigit(s[k])
  {
    if s != [] && IsDigit(s[0]) {
      DigitPrefixDigits(s[1..]);
      assert forall k :: 1 <= k < DigitPrefix(s) ==> s[k] == s[1..][k - 1];
    }
  }

  /** The integer that an optionally signed digit prefix of `t` spells, or NaN when no digit follows the sign. */
  function ParseSigned(t: string): Num {
    var u := if t != [] && (t[0] == '-' || t[0] == '+') then t[1..] else t;
    var n := DigitPrefix(u);
    DigitPrefixDigits(u);
    if n == 0 then NaN
    else if t[0] == '-' then Int(-(DigitsValue(u[..n]) as int))
    else Int(DigitsValue(u[..n]))
  }

  /** `parseInt(s)` (radix 10): leading white space, an optional sign, then the longest digit prefix; NaN without digits. */
  function ParseInt(s: string): Num {
    ParseSigned(TrimStart(s))
  }

  /** `Number(s)` for the integer subset: blank text is 0, an optionally signed run of digits is its value, anything else NaN. */
  function NumberOf(s: string): (r: Num)
    ensures Trim(s) == [] ==> r == Int(0)
  {
    NumberOfTrimmed(Trim(s))
  }

  /** `Number` on text already stripped of surrounding white space. */
  function NumberOfTrimmed(t: string): Num {
    var neg := t != [] && t[0] == '-';
    var u := if t != [] && (t[0] == '-' || t[0] == '+') then t[1..] else t;
    DigitPrefixDigits(u);
    if t == [] then Int(0)
    else if u == [] || DigitPrefix(u) != |u| then NaN
    else if neg then Int(-(DigitsValue(u) as int))
    else Int(DigitsValue(u))
  }

  /** Decimal digits of a natural number, without leading zeros. */
  function NatToString(n: nat): (s: string)
    ensures |s| >= 1
  {
    if n < 10 then [DigitChar(n)] else NatToString(n / 10) + [DigitChar(n % 10)]
  }

  /** The printed text is all digits, spells `n`, and has no leading zero. */
  lemma {:induction false} NatToStringDigits(n: nat)
    ensures forall k :: 0 <= k < |NatToString(n)| ==> IsDigit(NatToString(n)[k])
    ensures DigitsValue(NatToString(n)) == n
    ensures NatToString(n)[0] == '0' ==> n == 0
  {
    if n >= 10 {
      NatToStringDigits(n / 10);
      var p := NatToString(n / 10);
      var s := NatToString(n);
      assert s == p + [DigitChar(n % 10)];
      assert s[..|s| - 1] == p;
    }
  }

  /** `String(i)` for an integer. */
  function IntToString(i: int): string {
    if i < 0 then "-" + NatToString(-i) else NatToString(i)
  }

  /** `String(x)` for a number that may be NaN. */
  function NumToString(x: Num): string {
    if x.NaN? then "NaN" else IntToString(x.v)
  }

  lemma DigitPrefixAll(s: string)
    requires forall k :: 0 <= k < |s| ==> IsDigit(s[k])
    ensures DigitPrefix(s) == |s|
  {
    if s != [] { DigitPrefixAll(s[1..]); }
  }

  lemma TrimStartUnchanged(s: string)
    requires s == [] || !IsSpace(s[0])
    ensures TrimStart(s) == s
  {
  }

  lemma ParseIntOfDigits(s: string)
    requires s != [] && forall k :: 0 <= k < |s| ==> IsDigit(s[k])
    ensures ParseInt(s) == Int(DigitsValue(s))
  {
    DigitPrefixAll(s);
    assert s[..|s|] == s;
    assert !IsSpace(s[0]) by { assert IsDigit(s[0]); }
    TrimStartUnchanged(s);
    assert s[0] != '-' && s[0] != '+' by { assert IsDigit(s[0]); }
  }

  lemma ParseIntOfNegativeDigits(s: string)
    requires s != [] && forall k :: 0 <= k < |s| ==> IsDigit(s[k])
    ensures ParseInt("-" + s) == Int(-(DigitsValue(s) as int))
  {
    var m := "-" + s;
    assert m[0] == '-';
    TrimStartUnchanged(m);
    ParseSignedNegative(m, s);
  }

  lemma ParseSignedNegative(m: string, s: string)
    requires s != [] && forall k :: 0 <= k < |s| ==> IsDigit(s[k])
    requires m == "-" + s
    ensures ParseSigned(m) == Int(-(DigitsValue(s) as int))
  {
    assert m[0] == '-' && m[1..] == s;
    DigitPrefixAll(s);
    assert s[..|s|] == s;
  }

  /** Printing an integer and reading it back with `parseInt` gives the same integer. */
  lemma ParseIntIntToString(i: int)
    ensures ParseInt(IntToString(i)) == Int(i)
  {
    var n: nat := if i < 0 then -i else i;
    var s := NatToString(n);
    NatToStringDigits(n);
    if i < 0 {
      assert IntToString(i) == "-" + s;
      ParseIntOfNegativeDigits(s);
      calc {
        ParseInt(IntToString(i));
        ParseInt("-" + s);
        Int(-(DigitsValue(s) as int));
      }
    } else {
      assert IntToString(i) == s;
      ParseIntOfDigits(s);
      calc {
        ParseInt(IntToString(i));
        ParseInt(s);
        Int(DigitsValue(s));
      }
    }
  }

  /** Printing a natural number and reading it back with `Number` gives the same number. */
  lemma NumberOfNatToString(n: nat)
    ensures NumberOf(NatToString(n)) == Int(n)
  {
    var s := NatToString(n);
    NatToStringDigits(n);
    NumberOfDigits(s);
  }

  lemma NumberOfDigits(s: string)
    requires s != [] && forall k :: 0 <= k < |s| ==> IsDigit(s[k])
    ensures NumberOf(s) == Int(DigitsValue(s))
  {
    assert !IsSpace(s[0]) by { assert IsDigit(s[0]); }
    assert TrimStart(s) == s;
    assert !IsSpace(s[|s| - 1]) by { assert IsDigit(s[|s| - 1]); }
    TrimEndUnchanged(s);
    NumberOfTrimmedDigits(s);
  }

  lemma NumberOfTrimmedDigits(s: string)
    requires s != [] && forall k :: 0 <= k < |s| ==> IsDigit(s[k])
    ensures NumberOfTrimmed(s) == Int(DigitsValue(s))
  {
    DigitPrefixAll(s);
    assert s[0] != '-' && s[0] != '+' by { assert IsDigit(s[0]); }
  }

  /** Decimal printing is injective, so `x + "-" + y` style keys built from naturals never clash. */
  lemma NatToStringInjective(a: nat, b: nat)
    requires NatToString(a) == NatToString(b)
    ensures a == b
  {
    NatToStringDigits(a);
    NatToStringDigits(b);
  }

  // ---------------------------------------------------------------- sanitising

  /** `s.replace(/[<>]/g, '')`. */
  function StripAngles(s: string): (r: string)
    ensures |r| <= |s|
    ensures '<' !in r && '>' !in r
    ensures '<' !in s && '>' !in s ==> r == s
  {
    if s == [] then []
    else (if s[0] == '<' || s[0] == '>' then [] else [s[0]]) + StripAngles(s[1..])
  }

  /** The body of every `sanitizeString` in the suite: trim, then drop angle brackets. */
  function Sanitize(s: string): (r: string)
    ensures '<' !in r && '>' !in r
    ensures |r| <= |s|
  {
    StripAngles(Trim(s))
  }

  /**
   * Sanitising twice only trims once more: removing a bracket after trimming can
   * expose white space, so the second application is not always the identity.
   */
  lemma SanitizeTwice(s: string)
    ensures Sanitize(Sanitize(s)) == Trim(Sanitize(s))
  {
    TrimKeeps(Sanitize(s));
  }

  /** A bracket followed by a space: the first pass leaves the space, the second trims it. */
  lemma SanitizeNotIdempotent(x: string)
    requires x != [] && !IsSpace(x[0]) && !IsSpace(x[|x| - 1]) && '<' !in x && '>' !in x
    ensures Sanitize("< " + x) == " " + x
    ensures Sanitize(Sanitize("< " + x)) == x
  {
    SanitizeBracketSpace(x);
    SanitizeSpace(x);
  }

  lemma SanitizeBracketSpace(x: string)
    requires x != [] && !IsSpace(x[|x| - 1]) && '<' !in x && '>' !in x
    ensures Sanitize("< " + x) == " " + x
  {
    var s := "< " + x;
    assert s[0] == '<' && s[|s| - 1] == x[|x| - 1];
    TrimStartUnchanged(s);
    TrimEndUnchanged(s);
    assert s[1..] == " " + x;
    assert (" " + x)[1..] == x;
    assert StripAngles(x) == x;
    assert StripAngles(" " + x) == " " + x;
  }

  lemma SanitizeSpace(x: string)
    requires x != [] && !IsSpace(x[0]) && !IsSpace(x[|x| - 1]) && '<' !in x && '>' !in x
    ensures Sanitize(" " + x) == x
  {
    assert (" " + x)[1..] == x;
    assert TrimStart(" " + x) == TrimStart(x);
    SanitizeClean(x);
  }

  /** Text without surrounding white space or angle brackets is left as it is. */
  lemma SanitizeClean(s: string)
    requires s == [] || (!IsSpace(s[0]) && !IsSpace(s[|s| - 1]))
    requires '<' !in s && '>' !in s
    ensures Sanitize(s) == s
  {
    TrimStartUnchanged(s);
    TrimEndUnchanged(s);
  }

  /** On text without brackets at its ends, sanitising is the identity on already-sanitised text. */
  lemma SanitizeIdempotentWhenTrimmed(s: string)
    requires Trim(Sanitize(s)) == Sanitize(s)
    ensures Sanitize(Sanitize(s)) == Sanitize(s)
  {
    SanitizeTwice(s);
  }
}
