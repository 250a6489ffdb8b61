/**
 * The handful of C library string and number routines that all the cores
 * lean on, stated over `string` (= seq<char>): the `isspace`/`isdigit`
 * classes, the prefix a C string ends at, `strtol` (with its clamping to the
 * range of a 64-bit `long`), the narrowing cast to a 32-bit `int`, `%d`
 * rendering, and the searches `strstr`, `strchr` and `strrchr`.
 */
module CString {

  datatype Option<T> = None | Some(value: T)

  const LongMin: int := -0x8000_0000_0000_0000
  const LongMax: int := 0x7FFF_FFFF_FFFF_FFFF
  const IntMin: int := -0x8000_0000
  const IntMax: int := 0x7FFF_FFFF

  predicate IsDigit(c: char) { '0' <= c <= '9' }

  /** The six characters C's `isspace` accepts in the "C" locale. */
  predicate IsSpace(c: char) {
    c == ' ' || c == '\t' || c == '\n' || c == '\r' || c as int == 11 || c as int == 12
  }

  predicate AllDigits(s: string) { forall i :: 0 <= i < |s| ==> IsDigit(s[i]) }

  predicate NoNul(s: string) { forall i :: 0 <= i < |s| ==> s[i] != '\0' }

  /** The C string stored in a buffer: everything before the first NUL. */
  function CStr(s: string): (r: string)
    ensures r <= s && NoNul(r)
    ensures |r| < |s| ==> s[|r|] == '\0'
  {
    if s == [] || s[0] == '\0' then [] else [s[0]] + CStr(s[1..])
  }

  lemma {:induction false} CStrOfNoNul(s: string)
    requires NoNul(s)
    ensures CStr(s) == s
  {
    if s != [] { CStrOfNoNul(s[1..]); }
  }

  function DigitValue(c: char): nat requires IsDigit(c) { c as int - '0' as int }

  function DigitChar(d: nat): (c: char)
    requires d < 10
    ensures IsDigit(c) && DigitValue(c) == d
  {
    ('0' as int + d) as char
  }

  /** The number a run of decimal digits denotes (most significant first). */
  function DigitsValue(ds: string): nat
    requires AllDigits(ds)
  {
    if ds == [] then 0 else DigitsValue(ds[..|ds| - 1]) * 10 + DigitValue(ds[|ds| - 1])
  }

  /** Number of leading characters of `s` that satisfy `isspace`. */
  function SpacePrefix(s: string): (n: nat)
    ensures n <= |s|
    ensures n < |s| ==> !IsSpace(s[n])
  {
    if s != [] && IsSpace(s[0]) then 1 + SpacePrefix(s[1..]) else 0
  }

  /** What `SpacePrefix` skips is white space. */
  lemma {:induction false} SpacePrefixSpaces(s: string)
    ensures forall i :: 0 <= i < SpacePrefix(s) ==> IsSpace(s[i])
    decreases |s|
  {
    if s != [] && IsSpace(s[0]) {
      SpacePrefixSpaces(s[1..]);
      assert forall i :: 1 <= i < SpacePrefix(s) ==> s[i] == s[1..][i - 1];
    }
  }

  /** Number of leading decimal digits of `s`. */
  function DigitPrefix(s: string): (n: nat)
    ensures n <= |s| && AllDigits(s[..n])
    ensures n < |s| ==> !IsDigit(s[n])
  {
    if s != [] && IsDigit(s[0]) then
      var k := DigitPrefix(s[1..]);
      assert s[..1 + k] == [s[0]] + s[1..][..k];
      1 + k
    else 0
  }

  function Clamp(v: int, lo: int, hi: int): (r: int)
    requires lo <= hi
    ensures lo <= r <= hi
    ensures lo <= v <= hi ==> r == v
  {
    if v < lo then lo else if v > hi then hi else v
  }

  /** What `strtol(s, &end, 10)` yields: the value and the offset of `end`. */
  datatype Conversion = Conversion(value: int, end: nat)

  /**
   * `strtol(s, &end, 10)`: optional white space, an optional sign, then the
   * longest run of digits; with no digits the value is 0 and `end` is `s`
   * itself; an out-of-range value is clamped to LONG_MIN/LONG_MAX.
   */
  function StrToL(s: string): (c: Conversion)
    ensures c.end <= |s|
    ensures LongMin <= c.value <= LongMax
    ensures c.end == 0 ==> c.value == 0
  {
    var w := SpacePrefix(s);
    var rest := s[w..];
    var signLen := if |rest| > 0 && (rest[0] == '+' || rest[0] == '-') then 1 else 0;
    var negative := signLen == 1 && rest[0] == '-';
    var body := rest[signLen..];
    var d := DigitPrefix(body);
    if d == 0 then Conversion(0, 0)
    else
      var magnitude: int := DigitsValue(body[..d]);
      Conversion(Clamp(if negative then -magnitude else magnitude, LongMin, LongMax), w + signLen + d)
  }

  /** `strtol` stops right after the last digit of the run it reads. */
  lemma StrToLStopsAfterDigits(s: string)
    ensures var c := StrToL(s);
      c.end > 0 ==> IsDigit(s[c.end - 1]) && (c.end == |s| || !IsDigit(s[c.end]))
  {
    var w := SpacePrefix(s);
    var rest := s[w..];
    var signLen := if |rest| > 0 && (rest[0] == '+' || rest[0] == '-') then 1 else 0;
    var body := rest[signLen..];
    var d := DigitPrefix(body);
    if d > 0 {
      assert s[w + signLen + d - 1] == body[d - 1];
      assert w + signLen + d < |s| ==> s[w + signLen + d] == body[d];
    }
  }

  /** The conversion of a `long` (or any integer) to a 32-bit `int`, wrapping. */
  function ToInt32(v: int): (r: int)
    ensures IntMin <= r <= IntMax
    ensures IntMin <= v <= IntMax ==> r == v
    ensures (r - v) % 0x1_0000_0000 == 0
  {
    (v - IntMin) % 0x1_0000_0000 + IntMin
  }

  /** `atoi(s)`, as glibc computes it: `(int) strtol(s, NULL, 10)`. */
  function Atoi(s: string): int { ToInt32(StrToL(s).value) }

  /** `%d` of a non-negative number: its shortest decimal spelling. */
  function Dec(n: nat): (s: string)
    ensures |s| > 0 && AllDigits(s)
    ensures |s| > 1 ==> s[0] != '0'
    decreases n
  {
    if n < 10 then [DigitChar(n)] else Dec(n / 10) + [DigitChar(n % 10)]
  }

  /** `%d` of any integer. */
  function IntDec(i: int): string { if i < 0 then "-" + Dec(-i) else Dec(i) }

  lemma {:induction false} DecValue(n: nat)
    ensures DigitsValue(Dec(n)) == n
    decreases n
  {
    if n >= 10 {
      DecValue(n / 10);
      var s := Dec(n);
      assert s[..|s| - 1] == Dec(n / 10);
    }
  }

  lemma {:induction false} DigitPrefixOfDigitsThen(ds: string, rest: string)
    requires AllDigits(ds)
    requires rest == [] || !IsDigit(rest[0])
    ensures DigitPrefix(ds + rest) == |ds|
  {
    if ds != [] {
      assert (ds + rest)[1..] == ds[1..] + rest;
      DigitPrefixOfDigitsThen(ds[1..], rest);
    }
  }

  /**
   * `strtol` reads back what `%d` wrote: the decimal spelling of n, followed
   * by anything that does not start with a digit, converts to n and stops
   * right after the digits.
   */
  lemma StrToLOfDec(n: nat, rest: string)
    requires n <= LongMax
    requires rest == [] || !IsDigit(rest[0])
    ensures StrToL(Dec(n) + rest) == Conversion(n, |Dec(n)|)
  {
    var s := Dec(n) + rest;
    assert !IsSpace(s[0]) && s[0] != '+' && s[0] != '-';
    assert SpacePrefix(s) == 0;
    assert s[0..] == s;
    DigitPrefixOfDigitsThen(Dec(n), rest);
    assert s[..|Dec(n)|] == Dec(n);
    DecValue(n);
  }

  /** `atoi` of the decimal spelling of an `int` is that number. */
  lemma AtoiOfDec(n: nat)
    requires n <= IntMax
    ensures Atoi(Dec(n)) == n
  {
    StrToLOfDec(n, []);
    assert Dec(n) + [] == Dec(n);
  }

  /** A string is its first `n` characters followed by the rest. */
  lemma SplitAt(s: string, n: nat)
    requires n <= |s|
    ensures s[..n] + s[n..] == s
  {
  }

  /** `pat` occurs in `s` starting at index j. */
  predicate OccursAt(s: string, pat: string, j: nat) {
    j + |pat| <= |s| && s[j..j + |pat|] == pat
  }

  /** An occurrence after the first character is an occurrence in the rest. */
  lemma OccursShift(s: string, pat: string, j: nat)
    requires s != []
    ensures OccursAt(s, pat, j + 1) <==> OccursAt(s[1..], pat, j)
  {
    if j + 1 + |pat| <= |s| {
      assert s[j + 1..j + 1 + |pat|] == s[1..][j..j + |pat|];
    }
  }

  /** The first index at which `pat` occurs in `s`, as `strstr` finds it. */
  function Find(s: string, pat: string): (r: Option<nat>)
    ensures r.Some? ==> OccursAt(s, pat, r.value)
    ensures r.Some? ==> forall j: nat :: j < r.value ==> !OccursAt(s, pat, j)
    ensures r.None? ==> forall j: nat :: !OccursAt(s, pat, j)
    decreases |s|
  {
    if |s| < |pat| then None
    else if s[..|pat|] == pat then Some(0)
    else
      assert forall j: nat :: OccursAt(s, pat, j + 1) <==> OccursAt(s[1..], pat, j) by {
        forall j: nat ensures OccursAt(s, pat, j + 1) <==> OccursAt(s[1..], pat, j) {
          OccursShift(s, pat, j);
        }
      }
      match Find(s[1..], pat)
      case None =>
        assert forall j: nat :: !OccursAt(s, pat, j) by {
          forall j: nat ensures !OccursAt(s, pat, j) {
            if j > 0 { assert !OccursAt(s[1..], pat, j - 1); }
          }
        }
        None
      case Some(k) =>
        assert forall j: nat :: j < k + 1 ==> !OccursAt(s, pat, j) by {
          forall j: nat | j < k + 1 ensures !OccursAt(s, pat, j) {
            if j > 0 { assert !OccursAt(s[1..], pat, j - 1); }
          }
        }
        Some(k + 1)
  }

  /** The first index of character `c` in `s`, as `strchr` finds it. */
  function IndexOf(s: string, c: char): (r: Option<nat>)
    ensures r.Some? ==> r.value < |s| && s[r.value] == c && c !in s[..r.value]
    ensures r.None? ==> c !in s
  {
    if s == [] then None
    else if s[0] == c then Some(0)
    else match IndexOf(s[1..], c)
      case None => None
      case Some(k) => assert s[..k + 1] == [s[0]] + s[1..][..k]; Some(k + 1)
  }

  /** `strchr` on a concatenation whose first part lacks the character. */
  lemma {:induction false} IndexOfAfter(a: string, b: string, c: char)
    requires c !in a
    ensures IndexOf(a + b, c) == match IndexOf(b, c) case None => None case Some(k) => Some(|a| + k)
  {
    if a != [] {
      assert (a + b)[0] == a[0] != c;
      assert (a + b)[1..] == a[1..] + b;
      IndexOfAfter(a[1..], b, c);
      match IndexOf(b, c)
      case None =>
      case Some(k) => assert IndexOf(a[1..] + b, c) == Some(|a| - 1 + k);
    } else {
      assert a + b == b;
    }
  }

  /** `strchr` finds a character that ends a prefix lacking it. */
  lemma IndexOfAt(a: string, b: string, c: char)
    requires c !in a
    ensures IndexOf(a + [c] + b, c) == Some(|a|)
  {
    IndexOfAfter(a, [c] + b, c);
    assert a + [c] + b == a + ([c] + b);
  }

  /** The last index of character `c` in `s`, as `strrchr` finds it. */
  function LastIndexOf(s: string, c: char): (r: Option<nat>)
    ensures r.Some? ==> r.value < |s| && s[r.value] == c && c !in s[r.value + 1..]
    ensures r.Some? ==> forall j :: r.value < j < |s| ==> s[j] != c
    ensures r.None? ==> c !in s
  {
    if s == [] then None
    else if s[|s| - 1] == c then Some(|s| - 1)
    else match LastIndexOf(s[..|s| - 1], c)
      case None => assert s == s[..|s| - 1] + [s[|s| - 1]]; None
      case Some(k) => assert s[k + 1..] == s[..|s| - 1][k + 1..] + [s[|s| - 1]]; Some(k)
  }

  /** Before a text without `c`, the last `c` is the one placed there. */
  lemma {:induction false} LastIndexOfBefore(a: string, b: string, c: char)
    requires c !in b
    ensures LastIndexOf(a + [c] + b, c) == Some(|a|)
    decreases |b|
  {
    var s := a + [c] + b;
    if b != [] {
      var front := b[..|b| - 1];
      assert s[..|s| - 1] == a + [c] + front;
      assert s[|s| - 1] == b[|b| - 1];
      LastIndexOfBefore(a, front, c);
    }
  }

  /** `strncpy(dst, s, n)` followed by `dst[n] = '\0'`: at most n characters. */
  function Truncate(s: string, n: nat): (r: string)
    ensures r <= s && |r| <= n
    ensures |s| <= n ==> r == s
    ensures |s| > n ==> |r| == n
  {
    if |s| <= n then s else s[..n]
  }
}
