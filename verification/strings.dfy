/**
 * The parts of Rust's `str` API that the preprocessor relies on, written out
 * over `string` (= `seq<char>`): `trim`, `starts_with`, `ends_with`,
 * `contains`, `split` and `splitn` on a one-character separator, `join`,
 * `replace`, `matches(..).count()`, decimal `format!("{}", n)` and
 * `parse::<usize>()`.
 */
module Strings {

  /** Rust's `char::is_whitespace`: the Unicode White_Space property. */
  predicate IsWhitespace(c: char) {
    || '\t' <= c <= '\r'
    || c == ' '
    || c == '\U{85}'
    || c == '\U{A0}'
    || c == '\U{1680}'
    || '\U{2000}' <= c <= '\U{200A}'
    || c == '\U{2028}'
    || c == '\U{2029}'
    || c == '\U{202F}'
    || c == '\U{205F}'
    || c == '\U{3000}'
  }

  /** `str::trim_start`: drops the leading whitespace and nothing else. */
  function TrimStart(s: string): (r: string)
    ensures |r| <= |s| && r == s[|s| - |r|..]
    ensures r == [] || !IsWhitespace(r[0])
    ensures forall k :: 0 <= k < |s| - |r| ==> IsWhitespace(s[k])
  {
    if s != [] && IsWhitespace(s[0]) then TrimStart(s[1..]) else s
  }

  /** `str::trim_end`: drops the trailing whitespace and nothing else. */
  function TrimEnd(s: string): (r: string)
    ensures |r| <= |s| && r == s[..|r|]
    ensures r == [] || !IsWhitespace(r[|r| - 1])
    ensures forall k :: |r| <= k < |s| ==> IsWhitespace(s[k])
  {
    if s != [] && IsWhitespace(s[|s| - 1]) then TrimEnd(s[..|s| - 1]) else s
  }

  /** `str::trim`: a contiguous slice of `s` with no whitespace at either end. */
  function Trim(s: string): (r: string)
    ensures |r| <= |s|
    ensures r == [] || (!IsWhitespace(r[0]) && !IsWhitespace(r[|r| - 1]))
  {
    TrimEnd(TrimStart(s))
  }

  /** Trimming a string whose ends are not whitespace changes nothing. */
  lemma TrimNoop(s: string)
    requires s == [] || (!IsWhitespace(s[0]) && !IsWhitespace(s[|s| - 1]))
    ensures Trim(s) == s
  {
  }

  /** Trimming is idempotent. */
  lemma TrimIdempotent(s: string)
    ensures Trim(Trim(s)) == Trim(s)
  {
    TrimNoop(Trim(s));
  }

  predicate StartsWith(s: string, prefix: string) {
    |prefix| <= |s| && s[..|prefix|] == prefix
  }

  predicate EndsWith(s: string, suffix: string) {
    |suffix| <= |s| && s[|s| - |suffix|..] == suffix
  }

  /** `str::contains` for a string pattern: some position of `s` starts with `p`. */
  predicate Contains(s: string, p: string)
    decreases |s|
  {
    StartsWith(s, p) || (s != [] && Contains(s[1..], p))
  }

  /** `Contains` holds exactly when `p` occurs at some position of `s`. */
  lemma {:induction false} ContainsAt(s: string, p: string, i: nat)
    requires i + |p| <= |s| && s[i..i + |p|] == p
    ensures Contains(s, p)
    decreases i
  {
    if i > 0 {
      assert s[1..][i - 1..i - 1 + |p|] == p;
      ContainsAt(s[1..], p, i - 1);
    }
  }

  /** An occurrence survives appending. */
  lemma {:induction false} ContainsLeft(a: string, b: string, p: string)
    requires Contains(a, p)
    ensures Contains(a + b, p)
    decreases |a|
  {
    if StartsWith(a, p) {
      assert (a + b)[..|p|] == a[..|p|];
    } else {
      ContainsLeft(a[1..], b, p);
      assert (a + b)[1..] == a[1..] + b;
    }
  }

  /** An occurrence survives prepending. */
  lemma {:induction false} ContainsRight(a: string, b: string, p: string)
    requires Contains(b, p)
    ensures Contains(a + b, p)
    decreases |a|
  {
    if a == [] {
      assert a + b == b;
    } else {
      ContainsRight(a[1..], b, p);
      assert (a + b)[1..] == a[1..] + b;
    }
  }

  /** A concatenation contains each of its pieces. */
  lemma {:induction false} ContainsPiece(parts: seq<string>, i: nat)
    requires i < |parts|
    ensures Contains(Concat(parts), parts[i])
  {
    if i == 0 {
      assert StartsWith(parts[0], parts[0]);
      ContainsLeft(parts[0], Concat(parts[1..]), parts[0]);
    } else {
      ContainsPiece(parts[1..], i - 1);
      ContainsRight(parts[0], Concat(parts[1..]), parts[i]);
    }
  }

  /** `str::join` with a separator. */
  function Join(parts: seq<string>, sep: string): string
  {
    if |parts| == 0 then ""
    else if |parts| == 1 then parts[0]
    else parts[0] + sep + Join(parts[1..], sep)
  }

  /** `collect::<String>()`: concatenation without a separator. */
  function Concat(parts: seq<string>): string
  {
    if parts == [] then "" else parts[0] + Concat(parts[1..])
  }

  /** `str::split` on a single character. Never empty; no piece holds the separator. */
  function Split(s: string, c: char): (r: seq<string>)
    ensures |r| >= 1
    ensures forall k :: 0 <= k < |r| ==> c !in r[k]
  {
    if s == [] then [""]
    else
      var rest := Split(s[1..], c);
      if s[0] == c then [""] + rest
      else [[s[0]] + rest[0]] + rest[1..]
  }

  /** Splitting and re-joining with the same separator gives back the string. */
  lemma {:induction false} JoinSplit(s: string, c: char)
    ensures Join(Split(s, c), [c]) == s
  {
    if s != [] {
      var rest := Split(s[1..], c);
      JoinSplit(s[1..], c);
      if s[0] == c {
        assert Split(s, c) == [""] + rest;
      } else {
        var r := Split(s, c);
        assert r == [[s[0]] + rest[0]] + rest[1..];
        if |rest| == 1 {
          assert Join(r, [c]) == [s[0]] + rest[0];
        } else {
          assert r[1..] == rest[1..];
          assert Join(r, [c]) == [s[0]] + rest[0] + [c] + Join(rest[1..], [c]);
        }
      }
    }
  }

  /** A string without the separator splits into itself alone. */
  lemma {:induction false} SplitAbsent(s: string, c: char)
    requires c !in s
    ensures Split(s, c) == [s]
  {
    if s != [] {
      assert s[0] != c && c !in s[1..];
      SplitAbsent(s[1..], c);
      assert [s[0]] + s[1..] == s;
    }
  }

  /** Index of the first `c` in `s`. */
  function IndexOf(s: string, c: char): (i: nat)
    requires c in s
    ensures i < |s| && s[i] == c && c !in s[..i]
  {
    if s[0] == c then 0 else 1 + IndexOf(s[1..], c)
  }

  /** `str::splitn(n, c)`: at most `n` pieces, the last one holding the rest unsplit. */
  function SplitN(s: string, c: char, n: nat): (r: seq<string>)
    requires n >= 1
    ensures 1 <= |r| <= n
    ensures Join(r, [c]) == s
  {
    if n == 1 || c !in s then [s]
    else
      var i := IndexOf(s, c);
      var rest := SplitN(s[i + 1..], c, n - 1);
      var r := [s[..i]] + rest;
      assert r[1..] == rest;
      assert Join(r, [c]) == s[..i] + [c] + s[i + 1..] == s;
      r
  }

  /** Every piece but the last is free of `c`; so is the last when fewer than `n` came out. */
  lemma {:induction false} SplitNPieces(s: string, c: char, n: nat)
    requires n >= 1
    ensures var r := SplitN(s, c, n);
      && (forall k :: 0 <= k < |r| - 1 ==> c !in r[k])
      && (|r| < n ==> c !in r[|r| - 1])
    decreases n
  {
    if n > 1 && c in s {
      var i := IndexOf(s, c);
      var rest := SplitN(s[i + 1..], c, n - 1);
      SplitNPieces(s[i + 1..], c, n - 1);
      var r := SplitN(s, c, n);
      assert r == [s[..i]] + rest;
      assert forall k :: 1 <= k < |r| ==> r[k] == rest[k - 1];
    }
  }

  /** `str::replace(pat, rep)`: left-to-right, non-overlapping replacement. */
  function ReplaceAll(s: string, pat: string, rep: string): string
    requires pat != []
    decreases |s|
  {
    if s == [] then ""
    else if StartsWith(s, pat) then rep + ReplaceAll(s[|pat|..], pat, rep)
    else [s[0]] + ReplaceAll(s[1..], pat, rep)
  }

  /** Without an occurrence of the pattern, `replace` is the identity. */
  lemma {:induction false} ReplaceAbsent(s: string, pat: string, rep: string)
    requires pat != [] && !Contains(s, pat)
    ensures ReplaceAll(s, pat, rep) == s
    decreases |s|
  {
    if s != [] {
      ReplaceAbsent(s[1..], pat, rep);
    }
  }

  /** Removing every `"xx"` leaves no two adjacent `x`: a kept `x` is never followed by another. */
  lemma {:induction false} RemovePairLeavesNone(s: string, x: char)
    ensures !Contains(ReplaceAll(s, [x, x], ""), [x, x])
    decreases |s|
  {
    var r := ReplaceAll(s, [x, x], "");
    if s == [] {
    } else if StartsWith(s, [x, x]) {
      RemovePairLeavesNone(s[2..], x);
      assert r == ReplaceAll(s[2..], [x, x], "");
    } else {
      var t := ReplaceAll(s[1..], [x, x], "");
      RemovePairLeavesNone(s[1..], x);
      assert r == [s[0]] + t && r[1..] == t;
      if s[0] == x && t != [] && t[0] == x {
        // s[0] is kept only when s[1] is not x; then s[1] is kept too, and t starts with it
        assert |s| >= 2 ==> s[1] != x;
        FirstKept(s[1..], x);
        assert false;
      }
      assert !StartsWith(r, [x, x]);
    }
  }

  /** The result of removing `"xx"` from a string not starting with `x` does not start with `x`. */
  lemma FirstKept(s: string, x: char)
    requires s == [] || s[0] != x
    ensures var t := ReplaceAll(s, [x, x], ""); t == [] || t[0] != x
  {
    if s != [] {
      assert !StartsWith(s, [x, x]);
    }
  }

  /** `str::matches(c).count()` for a one-character pattern. */
  function Count(s: string, c: char): (n: nat)
    ensures n <= |s|
    ensures n == 0 <==> c !in s
  {
    if s == [] then 0 else (if s[0] == c then 1 else 0) + Count(s[1..], c)
  }

  predicate IsDigit(c: char) { '0' <= c <= '9' }

  predicate AllDigits(s: string) { forall k :: 0 <= k < |s| ==> IsDigit(s[k]) }

  function DigitChar(d: nat): (c: char)
    requires d < 10
    ensures IsDigit(c)
  {
    ['0', '1', '2', '3', '4', '5', '6', '7', '8', '9'][d]
  }

  function DigitValue(c: char): (d: nat)
    requires IsDigit(c)
    ensures d < 10 && DigitChar(d) == c
  {
    (c as int - '0' as int) as nat
  }

  /** The number a string of decimal digits denotes. */
  function DecimalValue(s: string): nat
    requires AllDigits(s)
  {
    if s == [] then 0 else 10 * DecimalValue(s[..|s| - 1]) + DigitValue(s[|s| - 1])
  }

  /** `format!("{}", n)`: decimal digits, no leading zero. */
  function NatToString(n: nat): (s: string)
    ensures s != [] && AllDigits(s)
    ensures |s| > 1 ==> s[0] != '0'
  {
    if n < 10 then [DigitChar(n)] else NatToString(n / 10) + [DigitChar(n % 10)]
  }

  /** The digits `format!` prints denote the number printed. */
  lemma {:induction false} NatToStringValue(n: nat)
    ensures DecimalValue(NatToString(n)) == n
  {
    if n >= 10 {
      NatToStringValue(n / 10);
      var s := NatToString(n);
      assert s[..|s| - 1] == NatToString(n / 10);
    }
  }

  /** usize::MAX on the 64-bit targets the tool is built for. */
  const UsizeMax: nat := 0xFFFF_FFFF_FFFF_FFFF

  /** `str::parse::<usize>()`: an optional `+`, then at least one ASCII digit, no overflow. */
  function ParseUsize(s: string): (r: Option<nat>)
    ensures r.Some? ==> r.value <= UsizeMax
    ensures s == [] ==> r.None?
  {
    var digits := if s != [] && s[0] == '+' then s[1..] else s;
    if digits == [] || !AllDigits(digits) then None
    else
      var v := DecimalValue(digits);
      if v <= UsizeMax then Some(v) else None
  }

  /** Parsing what `format!` printed gives the number back. */
  lemma ParseFormatted(n: nat)
    requires n <= UsizeMax
    ensures ParseUsize(NatToString(n)) == Some(n)
  {
    NatToStringValue(n);
  }

  datatype Option<+T> = None | Some(value: T)
}
