/** The Python string operations the path builders and the keyword check
    rely on: `str` of a non-negative integer, `str.zfill`, `str.join` and
    `os.path.join(dir, '')` on POSIX. */
module PyStrings {

  predicate IsDigit(ch: char) {
    '0' <= ch <= '9'
  }

  predicate AllDigits(s: string) {
    forall i :: 0 <= i < |s| ==> IsDigit(s[i])
  }

  function DigitChar(d: nat): char
    requires d < 10
  {
    ['0', '1', '2', '3', '4', '5', '6', '7', '8', '9'][d]
  }

  function DigitValue(ch: char): nat
    requires IsDigit(ch)
  {
    (ch - '0') as nat
  }

  /** `str(n)`: the decimal digits of `n`, without leading zeros. */
  function Str(n: nat): (s: string)
    ensures |s| >= 1 && AllDigits(s)
    ensures s[0] == '0' ==> n == 0
  {
    if n < 10 then [DigitChar(n)] else Str(n / 10) + [DigitChar(n % 10)]
  }

  /** `int(s)` on a string of digits. */
  function ParseNat(s: string): nat
    requires AllDigits(s)
  {
    if s == [] then 0 else 10 * ParseNat(s[..|s| - 1]) + DigitValue(s[|s| - 1])
  }

  /** `int(str(n)) == n`. */
  lemma {:induction false} StrRoundTrip(n: nat)
    ensures ParseNat(Str(n)) == n
  {
    if n >= 10 {
      var s := Str(n);
      assert s[..|s| - 1] == Str(n / 10);
      StrRoundTrip(n / 10);
    }
  }

  function Repeat(ch: char, k: nat): (s: string)
    ensures |s| == k && forall i :: 0 <= i < k ==> s[i] == ch
  {
    seq(k, _ => ch)
  }

  /** `s.zfill(width)`: left-padded with '0' up to `width` characters,
      the padding going after a leading sign. */
  function ZFill(s: string, width: int): (r: string)
    ensures |r| == (if width <= |s| then |s| else width)
    ensures width <= |s| ==> r == s
  {
    if width <= |s| then s
    else if |s| > 0 && (s[0] == '+' || s[0] == '-') then [s[0]] + Repeat('0', width - |s|) + s[1..]
    else Repeat('0', width - |s|) + s
  }

  /** On a string of digits, `zfill` keeps the digits as a suffix, puts
      only zeros before them, and is exactly `max(len(s), width)` long. */
  lemma ZFillDigits(s: string, width: int)
    requires AllDigits(s)
    ensures var r := ZFill(s, width);
      && |r| == (if width <= |s| then |s| else width)
      && r[|r| - |s|..] == s
      && (forall i :: 0 <= i < |r| - |s| ==> r[i] == '0')
      && AllDigits(r)
  {
    if width > |s| && |s| > 0 {
      assert IsDigit(s[0]);
    }
  }

  /** Leading zeros do not change the value of a digit string. */
  lemma {:induction false} LeadingZeros(k: nat, s: string)
    requires AllDigits(s)
    ensures AllDigits(Repeat('0', k) + s)
    ensures ParseNat(Repeat('0', k) + s) == ParseNat(s)
    decreases |s|
  {
    var t := Repeat('0', k) + s;
    if s == [] {
      assert t == Repeat('0', k);
      ZerosParse(k);
    } else {
      assert t[..|t| - 1] == Repeat('0', k) + s[..|s| - 1];
      LeadingZeros(k, s[..|s| - 1]);
    }
  }

  lemma {:induction false} ZerosParse(k: nat)
    ensures AllDigits(Repeat('0', k)) && ParseNat(Repeat('0', k)) == 0
  {
    if k > 0 {
      assert Repeat('0', k)[..k - 1] == Repeat('0', k - 1);
      ZerosParse(k - 1);
    }
  }

  /** A zero-padded number reads back as the number. */
  lemma ZFillStrRoundTrip(n: nat, width: int)
    ensures AllDigits(ZFill(Str(n), width))
    ensures ParseNat(ZFill(Str(n), width)) == n
  {
    StrRoundTrip(n);
    var s := Str(n);
    if width > |s| {
      assert IsDigit(s[0]);
      LeadingZeros(width - |s|, s);
    }
  }

  /** `os.path.join(dir, '')`: a '/' is added unless `dir` is empty or
      already ends with one. */
  function JoinDir(dir: string): (r: string)
    ensures r == [] <==> dir == []
    ensures |dir| <= |r| <= |dir| + 1 && r[..|dir|] == dir
  {
    if dir == [] || dir[|dir| - 1] == '/' then dir else dir + "/"
  }

  /** The joined directory extends `dir` by at most one '/', ends with a
      '/' exactly when `dir` is non-empty, never doubles a trailing '/',
      and joining twice changes nothing. */
  lemma JoinDirProperties(dir: string)
    ensures |JoinDir(dir)| <= |dir| + 1 && JoinDir(dir)[..|dir|] == dir
    ensures JoinDir(dir) == [] <==> dir == []
    ensures dir != [] ==> JoinDir(dir)[|JoinDir(dir)| - 1] == '/'
    ensures dir != [] && dir[|dir| - 1] == '/' ==> JoinDir(dir) == dir
    ensures JoinDir(JoinDir(dir)) == JoinDir(dir)
  {
  }

  /** `sep.join(xs)`. */
  function Join(sep: string, xs: seq<string>): (r: string)
    ensures xs != [] ==> |r| >= |xs[0]| && r[..|xs[0]|] == xs[0]
  {
    if xs == [] then ""
    else if |xs| == 1 then xs[0]
    else xs[0] + sep + Join(sep, xs[1..])
  }

  /** `t` occurs in `s` starting at index `k`. */
  predicate OccursAt(s: string, t: string, k: int) {
    0 <= k <= |s| - |t| && s[k..k + |t|] == t
  }

  /** Every joined string appears in the result. */
  lemma {:induction false} JoinContains(sep: string, xs: seq<string>, i: nat)
    requires i < |xs|
    ensures exists k :: OccursAt(Join(sep, xs), xs[i], k)
  {
    var j := Join(sep, xs);
    if |xs| == 1 || i == 0 {
      assert OccursAt(j, xs[i], 0);
    } else {
      JoinContains(sep, xs[1..], i - 1);
      var rest := Join(sep, xs[1..]);
      var k :| OccursAt(rest, xs[1..][i - 1], k);
      var off := |xs[0]| + |sep|;
      assert j == xs[0] + sep + rest;
      assert j[off + k..off + k + |xs[i]|] == rest[k..k + |xs[i]|];
      assert OccursAt(j, xs[i], off + k);
    }
  }
}
