/**
  String operations of the Rust standard library that the parsers and code
  writers rely on: `trim`, `split("//").next()`, `split_whitespace`,
  `starts_with`/`ends_with`, `split(c)`, `str::parse::<u16>` /
  `str::parse::<i16>`, and the `{}` and `{:015b}` formatting of integers.

  Whitespace is Rust's `char::is_whitespace`: the characters with the
  Unicode White_Space property.
 */
module Text {
  import opened Wrappers

  /** U+0009..U+000D, U+0020, U+0085, U+00A0, U+1680, U+2000..U+200A, U+2028, U+2029, U+202F, U+205F, U+3000 */
  predicate IsWhitespace(c: char) {
    if c <= ' ' then c == ' ' || '\U{0009}' <= c <= '\U{000D}'
    else if c < '\U{0085}' then false
    else
      || c == '\U{0085}' || c == '\U{00A0}' || c == '\U{1680}' || '\U{2000}' <= c <= '\U{200A}'
      || c == '\U{2028}' || c == '\U{2029}' || c == '\U{202F}' || c == '\U{205F}' || c == '\U{3000}'
  }

  predicate NoWhitespace(s: string) {
    forall i | 0 <= i < |s| :: !IsWhitespace(s[i])
  }

  predicate AllWhitespace(s: string) {
    forall i | 0 <= i < |s| :: IsWhitespace(s[i])
  }

  predicate StartsWith(s: string, prefix: string) {
    |prefix| <= |s| && s[..|prefix|] == prefix
  }

  predicate EndsWith(s: string, suffix: string) {
    |suffix| <= |s| && s[|s| - |suffix|..] == suffix
  }

  // ---------------------------------------------------------------------------
  // trim

  function TrimStart(s: string): (r: string)
    ensures |r| <= |s| && r == s[|s| - |r|..]
    ensures AllWhitespace(s[..|s| - |r|])
    ensures |r| > 0 ==> !IsWhitespace(r[0])
  {
    if |s| > 0 && IsWhitespace(s[0]) then TrimStart(s[1..]) else s
  }

  function TrimEnd(s: string): (r: string)
    ensures |r| <= |s| && r == s[..|r|]
    ensures AllWhitespace(s[|r|..])
    ensures |r| > 0 ==> !IsWhitespace(r[|r| - 1])
  {
    if |s| > 0 && IsWhitespace(s[|s| - 1]) then TrimEnd(s[..|s| - 1]) else s
  }

  /** `str::trim`: the longest infix with no whitespace at either end. */
  function Trim(s: string): (r: string)
    ensures exists i | 0 <= i <= |s| - |r| :: r == s[i..i + |r|]
              && AllWhitespace(s[..i]) && AllWhitespace(s[i + |r|..])
    ensures |r| > 0 ==> !IsWhitespace(r[0]) && !IsWhitespace(r[|r| - 1])
  {
    var t := TrimStart(s);
    var r := TrimEnd(t);
    TrimSplit(s, t, r);
    TrimEnds(t);
    r
  }

  lemma TrimEnds(t: string)
    requires |t| > 0 ==> !IsWhitespace(t[0])
    ensures var r := TrimEnd(t); |r| > 0 ==> !IsWhitespace(r[0]) && !IsWhitespace(r[|r| - 1])
  {
    var r := TrimEnd(t);
    if |r| > 0 {
      assert r[0] == t[0];
    }
  }

  lemma TrimSplit(s: string, t: string, r: string)
    requires |t| <= |s| && t == s[|s| - |t|..] && AllWhitespace(s[..|s| - |t|])
    requires |r| <= |t| && r == t[..|r|] && AllWhitespace(t[|r|..])
    ensures exists i | 0 <= i <= |s| - |r| :: r == s[i..i + |r|]
              && AllWhitespace(s[..i]) && AllWhitespace(s[i + |r|..])
  {
    var i := |s| - |t|;
    assert s[i + |r|..] == t[|r|..];
    assert r == s[i..i + |r|] && AllWhitespace(s[..i]) && AllWhitespace(s[i + |r|..]);
  }

  // ---------------------------------------------------------------------------
  // split("//").next().unwrap()

  /** The text before the first occurrence of "//" (all of `s` when there is none). */
  function CutComment(s: string): (r: string)
    ensures |r| <= |s| && r == s[..|r|]
    ensures forall i | 0 <= i < |r| - 1 :: !(r[i] == '/' && r[i + 1] == '/')
    ensures |r| < |s| ==> |r| + 2 <= |s| && s[|r|] == '/' && s[|r| + 1] == '/'
  {
    if |s| < 2 then s
    else if s[0] == '/' && s[1] == '/' then ""
    else
      var rest := CutComment(s[1..]);
      assert rest == s[1..][..|rest|];
      [s[0]] + rest
  }

  /** Text without a slash has no comment to cut. */
  lemma {:induction false} CutCommentNoSlash(s: string)
    requires '/' !in s
    ensures CutComment(s) == s
  {
    if |s| >= 2 {
      assert s[0] != '/' && s[1..][0] != '/';
      assert '/' !in s[1..] by {
        forall i | 0 <= i < |s[1..]| ensures s[1..][i] != '/' {
          assert s[1..][i] == s[i + 1];
        }
      }
      CutCommentNoSlash(s[1..]);
      assert [s[0]] + s[1..] == s;
    }
  }

  /** Text that neither starts nor ends with whitespace is its own trim. */
  lemma TrimNoop(s: string)
    requires |s| > 0 ==> !IsWhitespace(s[0]) && !IsWhitespace(s[|s| - 1])
    ensures Trim(s) == s
  {
  }

  /** A source line with its comment removed and surrounding whitespace trimmed. */
  function Clean(line: string): string {
    Trim(CutComment(line))
  }

  // ---------------------------------------------------------------------------
  // split_whitespace

  /** The maximal run of non-whitespace characters at the start of `s`. */
  function Word(s: string): (w: string)
    ensures |w| <= |s| && w == s[..|w|]
    ensures NoWhitespace(w)
    ensures |w| < |s| ==> IsWhitespace(s[|w|])
    ensures |s| > 0 && !IsWhitespace(s[0]) ==> |w| > 0
  {
    if |s| == 0 || IsWhitespace(s[0]) then "" else [s[0]] + Word(s[1..])
  }

  /** `str::split_whitespace`: the maximal non-whitespace runs of `s`, in order. */
  function Words(s: string): (ws: seq<string>)
    ensures forall k | 0 <= k < |ws| :: |ws[k]| > 0 && NoWhitespace(ws[k])
    ensures NoWhitespace(s) && |s| > 0 ==> ws == [s]
    ensures AllWhitespace(s) <==> ws == []
    decreases |s|
  {
    if |s| == 0 then []
    else if IsWhitespace(s[0]) then Words(s[1..])
    else
      var w := Word(s);
      assert NoWhitespace(s) ==> |w| == |s| && w == s && Words(s[|w|..]) == [];
      [w] + Words(s[|w|..])
  }

  /** Joins words with one space between neighbours. */
  function Unwords(ws: seq<string>): string {
    if |ws| == 0 then "" else if |ws| == 1 then ws[0] else ws[0] + " " + Unwords(ws[1..])
  }

  /** A word ends at the first whitespace character after it, whichever one it is. */
  lemma WordOfWordThen(w: string, c: char, rest: string)
    requires |w| > 0 && NoWhitespace(w) && IsWhitespace(c)
    ensures Word(w + [c] + rest) == w
    decreases |w|
  {
    if |w| > 1 {
      assert (w + [c] + rest)[1..] == w[1..] + [c] + rest;
      WordOfWordThen(w[1..], c, rest);
    }
  }

  /** Any whitespace character, not only a space, separates a word from what follows. */
  lemma WordsAfterSeparator(w: string, c: char, rest: string)
    requires |w| > 0 && NoWhitespace(w) && IsWhitespace(c)
    ensures Words(w + [c] + rest) == [w] + Words(rest)
  {
    var s := w + [c] + rest;
    WordOfWordThen(w, c, rest);
    assert s[|w|..] == [c] + rest;
    assert s[|w|..][1..] == rest;
  }

  /** `split_whitespace` recovers the words that were joined with spaces. */
  lemma {:induction false} WordsUnwords(ws: seq<string>)
    requires forall k | 0 <= k < |ws| :: |ws[k]| > 0 && NoWhitespace(ws[k])
    ensures Words(Unwords(ws)) == ws
  {
    if |ws| == 1 {
    } else if |ws| > 1 {
      var s := Unwords(ws);
      var w := ws[0];
      assert s == w + [' '] + Unwords(ws[1..]);
      WordsAfterSeparator(w, ' ', Unwords(ws[1..]));
      WordsUnwords(ws[1..]);
    }
  }

  // ---------------------------------------------------------------------------
  // split(c): the first two segments

  /** The first segment of `split(c)`: the text before the first `c`. */
  function BeforeChar(s: string, c: char): (r: string)
    ensures |r| <= |s| && r == s[..|r|] && c !in r
    ensures |r| < |s| ==> s[|r|] == c
  {
    if |s| == 0 then "" else if s[0] == c then "" else [s[0]] + BeforeChar(s[1..], c)
  }

  /** The text after the first `c`, or `None` when `c` does not occur. */
  function AfterChar(s: string, c: char): (r: Option<string>)
    ensures r.None? <==> c !in s
    ensures r.Some? ==> s == BeforeChar(s, c) + [c] + r.value
  {
    var b := BeforeChar(s, c);
    if |b| == |s| then None else Some(s[|b| + 1..])
  }

  // ---------------------------------------------------------------------------
  // decimal digits

  predicate IsDigit(c: char) {
    '0' <= c <= '9'
  }

  predicate AllDigits(s: string) {
    forall i | 0 <= i < |s| :: IsDigit(s[i])
  }

  function DigitChar(d: nat): char
    requires d < 10
  {
    "0123456789"[d]
  }

  function DigitValue(c: char): nat
    requires IsDigit(c)
  {
    (c as int - '0' as int) as nat
  }

  /** The number a string of decimal digits denotes. */
  function DigitsValue(s: string): nat
    requires AllDigits(s)
  {
    if |s| == 0 then 0 else DigitsValue(s[..|s| - 1]) * 10 + DigitValue(s[|s| - 1])
  }

  /** `format!("{}", n)` for a non-negative integer. */
  function Dec(n: nat): (r: string)
    ensures |r| > 0 && AllDigits(r)
  {
    if n < 10 then [DigitChar(n)] else Dec(n / 10) + [DigitChar(n % 10)]
  }

  /** The decimal rendering denotes the number it renders. */
  lemma {:induction false} DecValue(n: nat)
    ensures DigitsValue(Dec(n)) == n
  {
    if n >= 10 {
      var r := Dec(n);
      assert r[..|r| - 1] == Dec(n / 10);
      DecValue(n / 10);
    }
  }

  /** Distinct numbers render as distinct strings. */
  lemma DecInjective(m: nat, n: nat)
    ensures Dec(m) == Dec(n) ==> m == n
  {
    DecValue(m);
    DecValue(n);
  }

  // ---------------------------------------------------------------------------
  // str::parse::<u16>() and str::parse::<i16>()

  /** Splitting at the first `c` of `a + [c] + b`, when `a` has no `c`, gives `a` and `b`. */
  lemma SplitAt(a: string, c: char, b: string)
    requires c !in a
    ensures BeforeChar(a + [c] + b, c) == a
    ensures AfterChar(a + [c] + b, c) == Some(b)
  {
    BeforeSplit(a, c, b);
    assert (a + [c] + b)[|a| + 1..] == b;
  }

  lemma {:induction false} BeforeSplit(a: string, c: char, b: string)
    requires c !in a
    ensures BeforeChar(a + [c] + b, c) == a
    decreases |a|
  {
    if |a| > 0 {
      assert (a + [c] + b)[1..] == a[1..] + [c] + b;
      BeforeSplit(a[1..], c, b);
      assert [a[0]] + a[1..] == a;
    }
  }

  /** Text without `c` is its own first segment and has nothing after a `c`. */
  lemma SplitNone(a: string, c: char)
    requires c !in a
    ensures BeforeChar(a, c) == a && AfterChar(a, c) == None
  {
  }

  const U16Max := 65535
  const I16Min := -32768
  const I16Max := 32767

  /**
    `str::parse::<u16>`: an optional '+', then at least one decimal digit; the
    value must fit in 16 bits. A '-' is never accepted for an unsigned type.
   */
  function ParseU16(s: string): (r: Option<nat>)
    ensures r.Some? ==> r.value <= U16Max
    ensures r.Some? ==> |s| > 0 && (IsDigit(s[0]) || s[0] == '+')
  {
    if |s| == 0 then None
    else
      var digits := if s[0] == '+' then s[1..] else s;
      if |digits| == 0 || !AllDigits(digits) then None
      else if DigitsValue(digits) <= U16Max then Some(DigitsValue(digits))
      else None
  }

  /** `str::parse::<i16>`: like `ParseU16`, but a leading '-' negates. */
  function ParseI16(s: string): (r: Option<int>)
    ensures r.Some? ==> I16Min <= r.value <= I16Max
  {
    if |s| == 0 then None
    else
      var negative := s[0] == '-';
      var digits := if s[0] == '+' || s[0] == '-' then s[1..] else s;
      if |digits| == 0 || !AllDigits(digits) then None
      else
        var v := if negative then -(DigitsValue(digits) as int) else DigitsValue(digits);
        if I16Min <= v <= I16Max then Some(v) else None
  }

  /** Parsing the decimal rendering of a 16-bit value gives the value back. */
  lemma ParseU16Dec(n: nat)
    requires n <= U16Max
    ensures ParseU16(Dec(n)) == Some(n)
  {
    DecValue(n);
    assert Dec(n)[0] != '+';
  }

  /** A string with no digit in it never parses as a number. */
  lemma ParseU16NeedsDigit(s: string)
    requires forall i | 0 <= i < |s| :: !IsDigit(s[i])
    ensures ParseU16(s).None?
  {
    if |s| > 0 {
      var digits := if s[0] == '+' then s[1..] else s;
      if |digits| > 0 {
        assert !IsDigit(digits[0]);
      }
    }
  }

  // ---------------------------------------------------------------------------
  // format!("{:015b}", v)

  function BitChar(b: nat): char
    requires b < 2
  {
    if b == 0 then '0' else '1'
  }

  predicate AllBits(s: string) {
    forall i | 0 <= i < |s| :: s[i] == '0' || s[i] == '1'
  }

  /** The number a string of binary digits denotes. */
  function BitsValue(s: string): nat
    requires AllBits(s)
  {
    if |s| == 0 then 0 else BitsValue(s[..|s| - 1]) * 2 + (if s[|s| - 1] == '1' then 1 else 0)
  }

  /** The shortest binary rendering of `v` ("0" for zero). */
  function Binary(v: nat): (r: string)
    ensures |r| > 0 && AllBits(r)
  {
    if v < 2 then [BitChar(v)] else Binary(v / 2) + [BitChar(v % 2)]
  }

  function Pow2(k: nat): (p: nat)
    ensures p >= 1
  {
    if k == 0 then 1 else 2 * Pow2(k - 1)
  }

  function Zeros(k: nat): (r: string)
    ensures |r| == k && AllBits(r)
    ensures forall i | 0 <= i < k :: r[i] == '0'
  {
    if k == 0 then "" else "0" + Zeros(k - 1)
  }

  /** `format!("{:015b}", v)`: binary, left-padded with zeros to at least 15 digits. */
  function Binary15(v: nat): (r: string)
    ensures AllBits(r)
  {
    var b := Binary(v);
    if |b| >= 15 then b else Zeros(15 - |b|) + b
  }

  lemma {:induction false} BinaryValue(v: nat)
    ensures BitsValue(Binary(v)) == v
  {
    if v >= 2 {
      var r := Binary(v);
      assert r[..|r| - 1] == Binary(v / 2);
      BinaryValue(v / 2);
    }
  }

  lemma {:induction false} LeadingZeros(k: nat, s: string)
    requires AllBits(s)
    ensures AllBits(Zeros(k) + s) && BitsValue(Zeros(k) + s) == BitsValue(s)
    decreases |s|
  {
    var z := Zeros(k) + s;
    if |s| == 0 {
      assert z == Zeros(k);
      ZerosValue(k);
    } else {
      assert z[..|z| - 1] == Zeros(k) + s[..|s| - 1];
      LeadingZeros(k, s[..|s| - 1]);
    }
  }

  lemma {:induction false} ZerosValue(k: nat)
    ensures BitsValue(Zeros(k)) == 0
  {
    if k > 0 {
      assert Zeros(k)[..k - 1] == Zeros(k - 1);
      ZerosValue(k - 1);
    }
  }

  /** The shortest binary rendering has at most `k` digits exactly when `v < 2^k`. */
  lemma {:induction false} BinaryLength(v: nat, k: nat)
    requires k >= 1
    ensures |Binary(v)| <= k <==> v < Pow2(k)
  {
    if v >= 2 {
      if k == 1 {
        assert |Binary(v)| >= 2;
      } else {
        BinaryLength(v / 2, k - 1);
      }
    }
  }

  /**
    The rendering of an A-instruction value is 15 digits long exactly when the
    value fits in 15 bits, and it denotes the value in every case.
   */
  lemma Binary15Spec(v: nat)
    ensures BitsValue(Binary15(v)) == v
    ensures |Binary15(v)| == 15 <==> v < 32768
  {
    BinaryValue(v);
    BinaryLength(v, 15);
    assert Pow2(15) == 32768;
    var b := Binary(v);
    if |b| < 15 {
      LeadingZeros(15 - |b|, b);
    }
  }
}
