/** The PHP string primitives the plugin relies on, written out so that the
    properties of the callers can be proved: `trim`, `empty`, `explode`,
    `implode`, decimal conversion of integers, `escapeshellarg`, `strtolower`
    and `str_repeat`. A PHP string is a byte string; here each `char` stands
    for one byte. */
module PhpStrings {

  /** The characters PHP's `trim` removes by default: " \t\n\r\0\x0B". */
  predicate IsTrimChar(c: char) {
    c == ' ' || c == '\t' || c == '\n' || c == '\r' || c == '\0' || c == '\U{000B}'
  }

  /** The characters PCRE's `\s` matches without the UTF flag. */
  predicate IsRegexSpace(c: char) {
    c == ' ' || c == '\t' || c == '\n' || c == '\U{000B}' || c == '\U{000C}' || c == '\r'
  }

  /** How many trim characters `s` holds from index `i` on. */
  function TrimRun(s: string, i: nat): (n: nat)
    requires i <= |s|
    ensures i + n <= |s|
    decreases |s| - i
  {
    if i < |s| && IsTrimChar(s[i]) then 1 + TrimRun(s, i + 1) else 0
  }

  /** The run is all trim characters and stops at one that is not. */
  lemma {:induction false} TrimRunSpec(s: string, i: nat)
    requires i <= |s|
    ensures forall k :: i <= k < i + TrimRun(s, i) ==> IsTrimChar(s[k])
    ensures i + TrimRun(s, i) < |s| ==> !IsTrimChar(s[i + TrimRun(s, i)])
    decreases |s| - i
  {
    if i < |s| && IsTrimChar(s[i]) {
      TrimRunSpec(s, i + 1);
    }
  }

  /** How many trim characters `s` holds just before index `j`. */
  function TrimRunBack(s: string, j: nat): (n: nat)
    requires j <= |s|
    ensures n <= j
  {
    if j > 0 && IsTrimChar(s[j - 1]) then 1 + TrimRunBack(s, j - 1) else 0
  }

  /** The run is all trim characters and stops at one that is not. */
  lemma {:induction false} TrimRunBackSpec(s: string, j: nat)
    requires j <= |s|
    ensures forall k :: j - TrimRunBack(s, j) <= k < j ==> IsTrimChar(s[k])
    ensures TrimRunBack(s, j) < j ==> !IsTrimChar(s[j - TrimRunBack(s, j) - 1])
  {
    if j > 0 && IsTrimChar(s[j - 1]) {
      TrimRunBackSpec(s, j - 1);
    }
  }

  /** `trim`: drops the leading and the trailing run of trim characters. */
  function Trim(s: string): (r: string)
    ensures |r| <= |s|
  {
    var lo, back := TrimRun(s, 0), TrimRunBack(s, |s|);
    if lo + back >= |s| then "" else seq(|s| - back - lo, k requires 0 <= k < |s| - back - lo => s[lo + k])
  }

  /** What `trim` keeps is an infix of `s` that neither starts nor ends with a
      trim character, and everything dropped on either side is a trim
      character. */
  lemma {:induction false} TrimSpec(s: string)
    ensures Trim(s) != [] ==> !IsTrimChar(Trim(s)[0]) && !IsTrimChar(Trim(s)[|Trim(s)| - 1])
    ensures TrimRun(s, 0) + |Trim(s)| <= |s|
    ensures Trim(s) == s[TrimRun(s, 0)..TrimRun(s, 0) + |Trim(s)|]
    ensures forall k :: 0 <= k < TrimRun(s, 0) ==> IsTrimChar(s[k])
    ensures forall k :: TrimRun(s, 0) + |Trim(s)| <= k < |s| ==> IsTrimChar(s[k])
  {
    TrimRunSpec(s, 0);
    TrimRunBackSpec(s, |s|);
    var lo, back := TrimRun(s, 0), TrimRunBack(s, |s|);
    if lo + back < |s| {
      assert Trim(s)[0] == s[lo];
      assert Trim(s)[|Trim(s)| - 1] == s[|s| - back - 1];
    }
  }

  /** A string that starts and ends with a non-trim character is its own trim. */
  lemma {:induction false} TrimFixed(s: string)
    requires s != [] ==> !IsTrimChar(s[0]) && !IsTrimChar(s[|s| - 1])
    ensures Trim(s) == s
  {
    assert s[0..|s|] == s;
  }

  /** Trimming twice is trimming once. */
  lemma {:induction false} TrimIdempotent(s: string)
    ensures Trim(Trim(s)) == Trim(s)
  {
    TrimSpec(s);
    TrimFixed(Trim(s));
  }

  /** PHP's `empty()` on a string: true for "" and for "0". */
  predicate PhpEmpty(s: string) {
    s == "" || s == "0"
  }

  /** The index of the first `c` in `s` from index `i` on, or `|s|`. */
  function IndexFrom(s: string, c: char, i: nat): (k: nat)
    requires i <= |s|
    ensures i <= k <= |s|
    decreases |s| - i
  {
    if i == |s| || s[i] == c then i else IndexFrom(s, c, i + 1)
  }

  /** The search skips only other characters and stops at a `c`, if any. */
  lemma {:induction false} IndexFromSpec(s: string, c: char, i: nat)
    requires i <= |s|
    ensures forall m :: i <= m < IndexFrom(s, c, i) ==> s[m] != c
    ensures IndexFrom(s, c, i) < |s| ==> s[IndexFrom(s, c, i)] == c
    decreases |s| - i
  {
    if i < |s| && s[i] != c {
      IndexFromSpec(s, c, i + 1);
    }
  }

  /** The search from `i` stops at the first `c`, or at the end. */
  lemma {:induction false} IndexFromFinds(s: string, c: char, i: nat, j: nat)
    requires i <= j <= |s| && (j < |s| ==> s[j] == c)
    requires forall m :: i <= m < j ==> s[m] != c
    ensures IndexFrom(s, c, i) == j
    decreases j - i
  {
    if i < j {
      IndexFromFinds(s, c, i + 1, j);
    }
  }

  /** The search reads the same behind any prefix. */
  lemma {:induction false} IndexFromShift(h: string, t: string, c: char, i: nat)
    requires i <= |t|
    ensures IndexFrom(h + t, c, |h| + i) == |h| + IndexFrom(t, c, i)
    decreases |t| - i
  {
    if i < |t| {
      assert (h + t)[|h| + i] == t[i];
      IndexFromShift(h, t, c, i + 1);
    }
  }

  /** `explode` with a one-character separator. */
  function Explode(s: string, sep: char): (r: seq<string>)
    ensures |r| >= 1
  {
    ExplodeFrom(s, sep, 0)
  }

  /** The pieces of `s[i..]` between occurrences of `sep`. */
  function ExplodeFrom(s: string, sep: char, i: nat): (r: seq<string>)
    requires i <= |s|
    ensures |r| >= 1
    decreases |s| - i
  {
    var k := IndexFrom(s, sep, i);
    if k == |s| then [s[i..]] else [s[i..k]] + ExplodeFrom(s, sep, k + 1)
  }

  /** No piece of an `explode` holds the separator. */
  lemma {:induction false} ExplodePartsNoSep(s: string, sep: char, i: nat)
    requires i <= |s|
    ensures forall k :: 0 <= k < |ExplodeFrom(s, sep, i)| ==> sep !in ExplodeFrom(s, sep, i)[k]
    decreases |s| - i
  {
    IndexFromSpec(s, sep, i);
    var k := IndexFrom(s, sep, i);
    if k < |s| {
      ExplodePartsNoSep(s, sep, k + 1);
      assert sep !in s[i..k];
    } else {
      assert sep !in s[i..];
    }
  }

  /** `implode`: the parts with `glue` between consecutive ones. */
  function Implode(parts: seq<string>, glue: string): string {
    if |parts| == 0 then ""
    else if |parts| == 1 then parts[0]
    else parts[0] + glue + Implode(parts[1..], glue)
  }

  lemma {:induction false} ImplodeExplodeFrom(s: string, sep: char, i: nat)
    requires i <= |s|
    ensures Implode(ExplodeFrom(s, sep, i), [sep]) == s[i..]
    decreases |s| - i
  {
    IndexFromSpec(s, sep, i);
    var k := IndexFrom(s, sep, i);
    if k < |s| {
      ImplodeExplodeFrom(s, sep, k + 1);
      var rest := ExplodeFrom(s, sep, k + 1);
      assert ([s[i..k]] + rest)[1..] == rest;
      assert s[i..] == s[i..k] + [sep] + s[k + 1..];
    }
  }

  /** Joining the pieces of an `explode` with the same separator gives the
      original string back. */
  lemma {:induction false} ImplodeExplode(s: string, sep: char)
    ensures Implode(Explode(s, sep), [sep]) == s
  {
    ImplodeExplodeFrom(s, sep, 0);
    assert s[0..] == s;
  }

  /** Exploding a join of separator-free parts gives the parts back. */
  lemma {:induction false} ExplodeImplode(parts: seq<string>, sep: char)
    requires |parts| >= 1
    requires forall k :: 0 <= k < |parts| ==> sep !in parts[k]
    ensures Explode(Implode(parts, [sep]), sep) == parts
  {
    if |parts| == 1 {
      ExplodeNoSep(parts[0], sep);
    } else {
      ExplodeImplode(parts[1..], sep);
      ExplodeAppend(parts[0], Implode(parts[1..], [sep]), sep);
      assert [parts[0]] + parts[1..] == parts;
    }
  }

  lemma {:induction false} ExplodeNoSep(s: string, sep: char)
    requires sep !in s
    ensures Explode(s, sep) == [s]
  {
    IndexFromFinds(s, sep, 0, |s|);
    assert s[0..] == s;
  }

  /** Exploding `a + sep + b` where `a` has no separator. */
  lemma {:induction false} ExplodeAppend(a: string, b: string, sep: char)
    requires sep !in a
    ensures Explode(a + [sep] + b, sep) == [a] + Explode(b, sep)
  {
    var h := a + [sep];
    var s := h + b;
    assert forall m :: 0 <= m < |a| ==> s[m] == a[m];
    IndexFromFinds(s, sep, 0, |a|);
    assert s[0..|a|] == a;
    ExplodeFromShift(h, b, sep, 0);
  }

  /** The pieces read the same behind any prefix. */
  lemma {:induction false} ExplodeFromShift(h: string, t: string, sep: char, i: nat)
    requires i <= |t|
    ensures ExplodeFrom(h + t, sep, |h| + i) == ExplodeFrom(t, sep, i)
    decreases |t| - i
  {
    IndexFromShift(h, t, sep, i);
    var k := IndexFrom(t, sep, i);
    SliceShift(h, t, i, k);
    if k < |t| {
      ExplodeFromShift(h, t, sep, k + 1);
    }
  }

  /** A slice behind a prefix is the slice of the rest. */
  lemma {:induction false} SliceShift(h: string, t: string, i: nat, k: nat)
    requires i <= k <= |t|
    ensures (h + t)[|h| + i..|h| + k] == t[i..k]
    ensures k == |t| ==> (h + t)[|h| + i..] == t[i..]
  {
  }

  /** `substr(s, lo, hi - lo)`: the characters of `s` on `[lo, hi)`. */
  function Substring(s: string, lo: nat, hi: nat): (r: string)
    requires lo <= hi <= |s|
    ensures |r| == hi - lo
  {
    seq(hi - lo, k requires 0 <= k < hi - lo => s[lo + k])
  }

  predicate IsDigit(c: char) {
    '0' <= c <= '9'
  }

  predicate AllDigits(s: string) {
    forall k :: 0 <= k < |s| ==> IsDigit(s[k])
  }

  function DigitChar(d: nat): (c: char)
    requires d < 10
    ensures IsDigit(c)
  {
    ['0', '1', '2', '3', '4', '5', '6', '7', '8', '9'][d]
  }

  function DigitValue(c: char): nat
    requires IsDigit(c)
  {
    (c as int - '0' as int) as nat
  }

  /** The value of a decimal digit string (leading zeros allowed). */
  function DigitsValue(s: string): nat
    requires AllDigits(s)
  {
    if s == [] then 0 else DigitsValue(s[..|s| - 1]) * 10 + DigitValue(s[|s| - 1])
  }

  /** The canonical decimal rendering of a natural number, as PHP interpolates
      an integer into a string. */
  function NatToString(n: nat): (r: string)
    ensures r != [] && AllDigits(r)
  {
    if n < 10 then [DigitChar(n)] else NatToString(n / 10) + [DigitChar(n % 10)]
  }

  function IntToString(i: int): string {
    if i < 0 then "-" + NatToString(-i) else NatToString(i)
  }

  /** Reading back a rendered number gives the number. */
  lemma {:induction false} DigitsValueOfNatToString(n: nat)
    ensures DigitsValue(NatToString(n)) == n
  {
    if n >= 10 {
      DigitsValueOfNatToString(n / 10);
      var s := NatToString(n);
      assert s[..|s| - 1] == NatToString(n / 10);
    }
  }

  /** `escapeshellarg` on POSIX systems: single-quote the argument and turn
      every embedded quote into `'\''`. */
  function EscapeShellArg(s: string): (r: string)
    ensures |r| >= 2 && r[0] == '\'' && r[|r| - 1] == '\''
  {
    "'" + EscapeQuotesFrom(s, 0) + "'"
  }

  /** `s[i..]` with every quote replaced by `'\''`. */
  function EscapeQuotesFrom(s: string, i: nat): string
    requires i <= |s|
    decreases |s| - i
  {
    if i == |s| then ""
    else (if s[i] == '\'' then "'\\''" else [s[i]]) + EscapeQuotesFrom(s, i + 1)
  }

  /** `strtolower` on ASCII letters. */
  function ToLowerAscii(s: string): (r: string)
    ensures |r| == |s|
  {
    seq(|s|, i requires 0 <= i < |s| => if 'A' <= s[i] <= 'Z' then (s[i] as int + 32) as char else s[i])
  }

  /** `str_repeat` of one character. */
  function Repeat(c: char, n: nat): (r: string)
    ensures |r| == n && forall k :: 0 <= k < n ==> r[k] == c
  {
    if n == 0 then "" else [c] + Repeat(c, n - 1)
  }

  /** The index just after the last occurrence of `c` in `s[..j]`, or 0. */
  function AfterLast(s: string, c: char, j: nat): (k: nat)
    requires j <= |s|
    ensures k <= j
    ensures forall m :: k <= m < j ==> s[m] != c
    ensures k > 0 ==> s[k - 1] == c
  {
    if j == 0 then 0
    else if s[j - 1] == c then j
    else AfterLast(s, c, j - 1)
  }

  /** Bounds of the half-up quotient `(2n + d) / 2d` of a non-negative `n`. */
  lemma {:induction false} HalfUp(n: int, den: int, q: int)
    requires n >= 0 && den > 0 && q == (2 * n + den) / (2 * den)
    ensures q >= 0
    ensures 2 * den * q - den <= 2 * n < 2 * den * q + den
  {
    var d := 2 * den;
    var a := 2 * n + den;
    assert a == d * q + a % d;
  }

  /** PHP's `round` of `num / den` (half away from zero), on exact values. */
  function RoundHalfAway(num: int, den: int): (r: int)
    requires den > 0
    ensures 2 * den * r - den <= 2 * num <= 2 * den * r + den
    ensures num >= 0 ==> 2 * num < 2 * den * r + den && r >= 0
    ensures num < 0 ==> 2 * den * r - den < 2 * num && r <= 0
  {
    if num >= 0 then
      var q := (2 * num + den) / (2 * den);
      HalfUp(num, den, q);
      q
    else
      var q := (2 * -num + den) / (2 * den);
      HalfUp(-num, den, q);
      assert 2 * den * -q == -(2 * den * q);
      -q
  }
}
