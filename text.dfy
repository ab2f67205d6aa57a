/**
 * The pieces of Go's standard library that the formatters of ptime.go lean
 * on, on strings of code points: `strconv.Itoa`, the `%d` verbs of
 * `fmt.Sprintf` with a width, `strings.HasPrefix`, `strings.TrimRight` with
 * a one-character cutset and the generic `strings.Replacer`.
 */
module Text {

  /** The decimal digit `d` as a character. */
  function DigitChar(d: int): (c: char)
    requires 0 <= d < 10
    ensures '0' <= c <= '9'
  {
    (48 + d) as char
  }

  predicate IsDigits(s: string)
  {
    forall k :: 0 <= k < |s| ==> '0' <= s[k] <= '9'
  }

  /** The value of a run of decimal digits; leading zeros add nothing. */
  function DigitsValue(s: string): int
    requires IsDigits(s)
  {
    if s == [] then 0 else 10 * DigitsValue(s[..|s| - 1]) + (s[|s| - 1] as int - 48)
  }

  /** The decimal digits of `n`, most significant first, without leading zeros. */
  function Digits(n: nat): (s: string)
    ensures |s| >= 1 && IsDigits(s)
  {
    if n < 10 then [DigitChar(n)] else Digits(n / 10) + [DigitChar(n % 10)]
  }

  function Pow10(k: nat): (p: nat)
    ensures p >= 1
  {
    if k == 0 then 1 else 10 * Pow10(k - 1)
  }

  /** `Digits` is read back by `DigitsValue`, and only `0` is written with a leading zero. */
  lemma {:induction false} DigitsRoundTrip(n: nat)
    ensures DigitsValue(Digits(n)) == n
    ensures Digits(n)[0] == '0' <==> n == 0
  {
    if n >= 10 {
      DigitsRoundTrip(n / 10);
      var s := Digits(n);
      assert s[..|s| - 1] == Digits(n / 10);
      assert s[0] == Digits(n / 10)[0];
    }
  }

  /** `n` has at most `k` digits exactly when it is below `10^k`. */
  lemma {:induction false} DigitsLength(n: nat, k: nat)
    requires k >= 1
    ensures |Digits(n)| <= k <==> n < Pow10(k)
  {
    if n >= 10 && k > 1 {
      DigitsLength(n / 10, k - 1);
    }
  }

  /** `strconv.Itoa`. */
  function Itoa(v: int): string
  {
    if v < 0 then "-" + Digits(-v) else Digits(v)
  }

  /** An optional sign followed by decimal digits, read back as a number. */
  function SignedValue(s: string): int
    requires |s| > 0 && IsDigits(s[1..])
    requires s[0] != '-' && s[0] != '+' ==> IsDigits(s)
  {
    if s[0] == '-' then -DigitsValue(s[1..])
    else if s[0] == '+' then DigitsValue(s[1..])
    else DigitsValue(s)
  }

  /** `Itoa` writes a sign only for negative numbers, and its output reads back as `v`. */
  lemma ItoaRoundTrip(v: int)
    ensures var s := Itoa(v);
      |s| > 0 && IsDigits(s[1..]) && (s[0] == '-' <==> v < 0)
      && (v >= 0 ==> IsDigits(s)) && SignedValue(s) == v
  {
    var s := Itoa(v);
    if v < 0 {
      DigitsRoundTrip(-v);
      assert s == "-" + Digits(-v);
      assert s[1..] == Digits(-v);
      assert SignedValue(s) == -DigitsValue(Digits(-v));
    } else {
      DigitsRoundTrip(v);
      assert s == Digits(v);
      assert IsDigits(s[1..]) by {
        forall k | 0 <= k < |s[1..]| ensures '0' <= s[1..][k] <= '9' {
          assert s[1..][k] == s[k + 1];
        }
      }
      assert '0' <= s[0] <= '9';
      assert SignedValue(s) == DigitsValue(Digits(v));
    }
  }

  /** Joining strings is associative. */
  lemma AppendAssoc(a: string, b: string, c: string)
    ensures a + (b + c) == (a + b) + c
  {
  }

  /** `n` copies of `c`, none when `n` is not positive. */
  function Repeat(c: char, n: int): (s: string)
    ensures |s| == (if n > 0 then n else 0)
    ensures forall k :: 0 <= k < |s| ==> s[k] == c
  {
    if n <= 0 then [] else [c] + Repeat(c, n - 1)
  }

  /**
   * `fmt.Sprintf` of one integer with the verb `%d`, a minimum `width`,
   * and the `+` and `0` flags: the sign (`-`, or `+` when `plus` and the
   * number is not negative), then the digits of the magnitude; with `zero`
   * the gap up to `width` is filled with zeros after the sign, otherwise
   * with spaces before it.
   */
  function FormatDecimal(v: int, width: nat, plus: bool, zero: bool): string
  {
    var sign := if v < 0 then "-" else if plus then "+" else "";
    var body := Digits(if v < 0 then -v else v);
    var gap := width - |sign| - |body|;
    if zero then sign + (Repeat('0', gap) + body) else Repeat(' ', gap) + (sign + body)
  }

  /** `FormatDecimal(v, width, false, ...)` is `Itoa(v)` whenever `Itoa(v)` is already at least `width` long. */
  lemma FormatDecimalWide(v: int, width: nat, zero: bool)
    requires |Itoa(v)| >= width
    ensures FormatDecimal(v, width, false, zero) == Itoa(v)
  {
    if v < 0 {
      var body := Digits(-v);
      assert |body| + 1 >= width;
      assert Repeat('0', width - 1 - |body|) == [] && Repeat(' ', width - 1 - |body|) == [];
    } else {
      var body := Digits(v);
      assert |body| >= width;
      assert Repeat('0', width - |body|) == [] && Repeat(' ', width - |body|) == [];
    }
  }

  /**
   * Zero padding keeps the value: the output is a sign (when the number is
   * negative or `plus` is given) and a run of digits that reads back as the
   * number, exactly `width` long when `Itoa` would be shorter.
   */
  lemma ZeroPaddedRoundTrip(v: int, width: nat, plus: bool)
    ensures var r := FormatDecimal(v, width, plus, true);
      |r| > 0 && IsDigits(r[1..]) && (v >= 0 && !plus ==> IsDigits(r))
    ensures var r := FormatDecimal(v, width, plus, true);
      (r[0] == '-' <==> v < 0) && (r[0] == '+' <==> v >= 0 && plus)
    ensures SignedValue(FormatDecimal(v, width, plus, true)) == v
    ensures var n := |Itoa(v)| + (if v >= 0 && plus then 1 else 0);
      |FormatDecimal(v, width, plus, true)| == if n < width then width else n
  {
    ZeroPaddedValue(v, width, plus);
    ZeroPaddedLength(v, width, plus);
  }

  /** The sign and the digits of a zero-padded number, read back. */
  lemma ZeroPaddedValue(v: int, width: nat, plus: bool)
    ensures var r := FormatDecimal(v, width, plus, true);
      |r| > 0 && IsDigits(r[1..]) && (v >= 0 && !plus ==> IsDigits(r))
      && (r[0] == '-' <==> v < 0) && (r[0] == '+' <==> v >= 0 && plus)
      && SignedValue(r) == v
  {
    var m := if v < 0 then -v else v;
    var sign := if v < 0 then "-" else if plus then "+" else "";
    var gap := width - |sign| - |Digits(m)|;
    var digits := Repeat('0', gap) + Digits(m);
    assert FormatDecimal(v, width, plus, true) == sign + digits;
    PaddedDigits(m, gap);
    SignedDigits(sign, digits);
  }

  /** The length of a zero-padded number: the width, or the sign and digits when they are longer. */
  lemma ZeroPaddedLength(v: int, width: nat, plus: bool)
    ensures var n := |Itoa(v)| + (if v >= 0 && plus then 1 else 0);
      |FormatDecimal(v, width, plus, true)| == if n < width then width else n
  {
    var m := if v < 0 then -v else v;
    var sign := if v < 0 then "-" else if plus then "+" else "";
    var gap := width - |sign| - |Digits(m)|;
    assert FormatDecimal(v, width, plus, true) == sign + (Repeat('0', gap) + Digits(m));
    assert |Itoa(v)| == |Digits(m)| + (if v < 0 then 1 else 0);
  }

  /** The number of decimal digits of a value below 10000. */
  lemma DigitCount(v: nat)
    ensures v < 10 ==> |Digits(v)| == 1
    ensures 10 <= v < 100 ==> |Digits(v)| == 2
    ensures 100 <= v < 1000 ==> |Digits(v)| == 3
    ensures 1000 <= v < 10000 ==> |Digits(v)| == 4
    ensures v >= 10000 ==> |Digits(v)| > 4
  {
    DigitsLength(v, 1);
    DigitsLength(v, 2);
    DigitsLength(v, 3);
    DigitsLength(v, 4);
    assert Pow10(1) == 10 && Pow10(2) == 100 && Pow10(3) == 1000 && Pow10(4) == 10000;
  }

  /** `%0<width>d` of a non-negative value: zeros up to the width, then its digits, read back as the value. */
  lemma UnsignedPad(v: nat, width: nat)
    ensures FormatDecimal(v, width, false, true) == Repeat('0', width - |Digits(v)|) + Digits(v)
    ensures IsDigits(FormatDecimal(v, width, false, true)) && DigitsValue(FormatDecimal(v, width, false, true)) == v
  {
    var digits := Repeat('0', width - |Digits(v)|) + Digits(v);
    PaddedDigits(v, width - |Digits(v)|);
    assert "" + digits == digits;
  }

  /** A sign in front of a run of digits is read back by `SignedValue`. */
  lemma SignedDigits(sign: string, digits: string)
    requires sign == "" || sign == "-" || sign == "+"
    requires |digits| > 0 && IsDigits(digits)
    ensures var r := sign + digits;
      IsDigits(r[1..]) && (sign == "" ==> IsDigits(r))
      && (r[0] == '-' <==> sign == "-") && (r[0] == '+' <==> sign == "+")
      && SignedValue(r) == (if sign == "-" then -DigitsValue(digits) else DigitsValue(digits))
  {
    if sign == "" {
      assert sign + digits == digits;
      assert '0' <= digits[0] <= '9';
    } else {
      assert (sign + digits)[1..] == digits;
    }
  }

  /** A run of zeros and then the digits of `m` reads back as `m`. */
  lemma PaddedDigits(m: nat, gap: int)
    ensures var d := Repeat('0', gap) + Digits(m);
      IsDigits(d) && DigitsValue(d) == m && (d[0] == '0' ==> m == 0 || gap > 0)
  {
    LeadingZeros(Repeat('0', gap), Digits(m));
    DigitsRoundTrip(m);
  }

  /** Zeros in front of a run of digits leave its value alone. */
  lemma {:induction false} LeadingZeros(zeros: string, s: string)
    requires IsDigits(s) && forall k :: 0 <= k < |zeros| ==> zeros[k] == '0'
    ensures IsDigits(zeros + s) && DigitsValue(zeros + s) == DigitsValue(s) + Pow10(|s|) * DigitsValue(zeros)
    ensures DigitsValue(zeros) == 0
  {
    if s == [] {
      assert zeros + s == zeros;
      ZerosValue(zeros);
    } else {
      var t := s[..|s| - 1];
      LeadingZeros(zeros, t);
      assert (zeros + s)[..|zeros + s| - 1] == zeros + t;
      assert DigitsValue(zeros + s) == 10 * DigitsValue(zeros + t) + (s[|s| - 1] as int - 48);
    }
  }

  lemma {:induction false} ZerosValue(zeros: string)
    requires forall k :: 0 <= k < |zeros| ==> zeros[k] == '0'
    ensures IsDigits(zeros) && DigitsValue(zeros) == 0
  {
    if zeros != [] {
      ZerosValue(zeros[..|zeros| - 1]);
    }
  }

  /** `strings.HasPrefix`. */
  predicate HasPrefix(s: string, prefix: string)
  {
    |prefix| <= |s| && s[..|prefix|] == prefix
  }

  /**
   * `strings.TrimRight(s, [c])`: `s` without its trailing run of `c`. The
   * result is the longest prefix of `s` that does not end in `c` and after
   * which `s` holds only `c`.
   */
  function TrimRight(s: string, c: char): (r: string)
    ensures |r| <= |s| && r == s[..|r|]
    ensures r == [] || r[|r| - 1] != c
    ensures forall k :: |r| <= k < |s| ==> s[k] == c
  {
    if |s| > 0 && s[|s| - 1] == c then TrimRight(s[..|s| - 1], c) else s
  }

  /** The pairs of a `strings.NewReplacer`: old string, new string, in the order given. */
  type Pairs = seq<(string, string)>

  predicate NonEmptyKeys(pairs: Pairs)
  {
    forall j :: 0 <= j < |pairs| ==> pairs[j].0 != []
  }

  /**
   * The pair a replacer applies at the head of `s`: the first one, in
   * argument order, whose old string is a prefix of `s`; `|pairs|` when
   * there is none.
   */
  function FirstMatch(pairs: Pairs, s: string): (k: nat)
    ensures k <= |pairs|
    ensures k < |pairs| ==> HasPrefix(s, pairs[k].0)
    ensures forall j :: 0 <= j < k ==> !HasPrefix(s, pairs[j].0)
  {
    if pairs == [] then 0
    else if HasPrefix(s, pairs[0].0) then 0
    else 1 + FirstMatch(pairs[1..], s)
  }

  /** The first match is the one before which no old string matches. */
  lemma FirstMatchAt(pairs: Pairs, s: string, k: nat)
    requires k <= |pairs| && (k < |pairs| ==> HasPrefix(s, pairs[k].0))
    requires forall j :: 0 <= j < k ==> !HasPrefix(s, pairs[j].0)
    ensures FirstMatch(pairs, s) == k
  {
  }

  /**
   * `strings.NewReplacer(pairs...).Replace(s)` for non-empty old strings:
   * scanning from the left, the first matching pair (FirstMatch) is
   * replaced and scanning goes on after it; a position where no pair
   * matches is copied. Replaced text is never scanned again.
   */
  function Replace(pairs: Pairs, s: string): string
    requires NonEmptyKeys(pairs)
    decreases |s|
  {
    if s == [] then []
    else
      var k := FirstMatch(pairs, s);
      if k < |pairs| then pairs[k].1 + Replace(pairs, s[|pairs[k].0|..])
      else [s[0]] + Replace(pairs, s[1..])
  }

  /** A string that is exactly the old string of its first match becomes that pair's new string. */
  lemma ReplaceOne(pairs: Pairs, s: string, k: nat)
    requires NonEmptyKeys(pairs) && k < |pairs| && pairs[k].0 == s
    requires forall j :: 0 <= j < k ==> !HasPrefix(s, pairs[j].0)
    ensures Replace(pairs, s) == pairs[k].1
  {
    FirstMatchAt(pairs, s, k);
    assert s[|s|..] == [];
  }

  /** The first match at the head of `s` is replaced and the scan goes on after it. */
  lemma ReplaceHead(pairs: Pairs, s: string, k: nat)
    requires NonEmptyKeys(pairs) && k < |pairs| && HasPrefix(s, pairs[k].0)
    requires forall j :: 0 <= j < k ==> !HasPrefix(s, pairs[j].0)
    ensures Replace(pairs, s) == pairs[k].1 + Replace(pairs, s[|pairs[k].0|..])
  {
    FirstMatchAt(pairs, s, k);
  }

  /** A head that no old string matches is copied and the scan goes on after it. */
  lemma ReplaceCopy(pairs: Pairs, s: string)
    requires NonEmptyKeys(pairs) && |s| > 0
    requires forall j :: 0 <= j < |pairs| ==> !HasPrefix(s, pairs[j].0)
    ensures Replace(pairs, s) == [s[0]] + Replace(pairs, s[1..])
  {
    FirstMatchAt(pairs, s, |pairs|);
  }

  /** A head that starts no old string is copied and the scan goes on after it. */
  lemma ReplaceCopyHead(pairs: Pairs, s: string)
    requires NonEmptyKeys(pairs) && |s| > 0
    requires forall j :: 0 <= j < |pairs| ==> pairs[j].0[0] != s[0]
    ensures Replace(pairs, s) == [s[0]] + Replace(pairs, s[1..])
  {
    forall j | 0 <= j < |pairs|
      ensures !HasPrefix(s, pairs[j].0)
    {
      if |pairs[j].0| <= |s| {
        assert s[..|pairs[j].0|][0] == s[0];
      }
    }
    ReplaceCopy(pairs, s);
  }

  /** No old string occurs anywhere in `s`. */
  predicate NoKeyIn(pairs: Pairs, s: string)
  {
    forall i :: 0 <= i < |s| ==> FirstMatch(pairs, s[i..]) == |pairs|
  }

  /** A replacer leaves a string in which none of its old strings occurs unchanged. */
  lemma {:induction false} ReplaceIdentity(pairs: Pairs, s: string)
    requires NonEmptyKeys(pairs) && NoKeyIn(pairs, s)
    ensures Replace(pairs, s) == s
    decreases |s|
  {
    if s != [] {
      assert s[0..] == s;
      assert NoKeyIn(pairs, s[1..]) by {
        forall i | 0 <= i < |s[1..]| ensures FirstMatch(pairs, s[1..][i..]) == |pairs| {
          assert s[1..][i..] == s[i + 1..];
        }
      }
      ReplaceIdentity(pairs, s[1..]);
    }
  }
}
