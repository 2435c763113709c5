/** Zero-padded decimal rendering (`strftime`'s `%Y`, `%m`, `%d`, `%H`, `%M`,
    `%S`, `%f`), its reading back, and the trailing-zero trimming of
    `str.rstrip("0")`. */
module Digits {

  function Pow10(n: nat): (p: nat)
    ensures p >= 1
  {
    if n == 0 then 1 else 10 * Pow10(n - 1)
  }

  predicate IsDigit(c: char) {
    '0' <= c <= '9'
  }

  predicate AllDigits(s: string) {
    forall i :: 0 <= i < |s| ==> IsDigit(s[i])
  }

  function DigitChar(d: nat): (c: char)
    requires d < 10
    ensures IsDigit(c)
  {
    ('0' as int + d) as char
  }

  function DigitValue(c: char): (d: nat)
    requires IsDigit(c)
    ensures d < 10 && DigitChar(d) == c
  {
    c as int - '0' as int
  }

  /** `n` written in decimal with exactly `width` digits: zero-padded on the
      left, and keeping only the low-order digits if `n` is too wide. */
  function Pad(n: nat, width: nat): (s: string)
    ensures |s| == width && AllDigits(s)
  {
    if width == 0 then "" else Pad(n / 10, width - 1) + [DigitChar(n % 10)]
  }

  /** The number a string of decimal digits denotes. */
  function Value(s: string): nat
    requires AllDigits(s)
  {
    if s == [] then 0 else Value(s[..|s| - 1]) * 10 + DigitValue(s[|s| - 1])
  }

  /** Reading back a padded rendering gives the number, when it fits. */
  lemma {:induction false} ValueOfPad(n: nat, width: nat)
    requires n < Pow10(width)
    ensures Value(Pad(n, width)) == n
  {
    if width > 0 {
      ValueOfPad(n / 10, width - 1);
      var s := Pad(n, width);
      assert s[..|s| - 1] == Pad(n / 10, width - 1);
    }
  }

  /** Padding a value already of that width changes nothing. */
  lemma {:induction false} PadOfValue(s: string)
    requires AllDigits(s)
    ensures Value(s) < Pow10(|s|)
    ensures Pad(Value(s), |s|) == s
  {
    if s != [] {
      var init := s[..|s| - 1];
      PadOfValue(init);
      assert (Value(init) * 10 + DigitValue(s[|s| - 1])) / 10 == Value(init);
      assert s == init + [s[|s| - 1]];
    }
  }

  /** `n` zero characters. */
  function Zeros(n: nat): (s: string)
    ensures |s| == n && AllDigits(s)
    ensures forall i :: 0 <= i < n ==> s[i] == '0'
  {
    if n == 0 then "" else Zeros(n - 1) + "0"
  }

  /** Appending `k` zeros multiplies the value by ten to the `k`. */
  lemma {:induction false} ValueAppendZeros(r: string, k: nat)
    requires AllDigits(r)
    ensures AllDigits(r + Zeros(k))
    ensures Value(r + Zeros(k)) == Value(r) * Pow10(k)
  {
    if k > 0 {
      var t := r + Zeros(k - 1);
      ValueAppendZeros(r, k - 1);
      AppendAssoc(r, Zeros(k - 1), "0");
      ValueAppendZero(t);
      assert Zeros(k) == Zeros(k - 1) + "0";
      assert r + Zeros(k) == t + "0";
      var a, p := Value(r), Pow10(k - 1);
      assert Pow10(k) == 10 * p;
      TimesTen(a, p);
    } else {
      assert r + Zeros(k) == r;
    }
  }

  lemma TimesTen(a: nat, p: nat)
    ensures a * (10 * p) == (a * p) * 10
  {
  }

  /** One more zero multiplies the value by ten. */
  lemma ValueAppendZero(t: string)
    requires AllDigits(t)
    ensures AllDigits(t + "0") && Value(t + "0") == Value(t) * 10
  {
    var u := t + "0";
    assert u[..|u| - 1] == t;
  }

  /** `s` without its trailing `'0'` characters, like `s.rstrip("0")`. */
  function TrimZeros(s: string): (r: string)
    ensures |r| <= |s|
    ensures r == [] || r[|r| - 1] != '0'
    ensures s == r + Zeros(|s| - |r|)
  {
    if s == [] || s[|s| - 1] != '0' then s
    else
      var init := s[..|s| - 1];
      var r := TrimZeros(init);
      assert s == init + "0";
      TrimStep(s, init, r);
      r
  }

  /** One more trailing zero leaves the trimmed prefix unchanged. */
  lemma TrimStep(s: string, init: string, r: string)
    requires s == init + "0" && |r| <= |init| && init == r + Zeros(|init| - |r|)
    ensures |r| <= |s| && s == r + Zeros(|s| - |r|)
  {
    var a := |init| - |r|;
    assert Zeros(a + 1) == Zeros(a) + "0";
    AppendAssoc(r, Zeros(a), "0");
  }

  lemma AppendAssoc(a: string, b: string, c: string)
    ensures a + b + c == a + (b + c)
  {
  }

  /** `s` extended on the right with zeros to `width` characters. */
  function RightPad(s: string, width: nat): (r: string)
    requires |s| <= width
    ensures |r| == width && r[..|s|] == s
  {
    s + Zeros(width - |s|)
  }

  /** Right-padding trimmed digits gives back the untrimmed digits. */
  lemma TrimThenPad(s: string)
    ensures RightPad(TrimZeros(s), |s|) == s
  {
  }

  /** Trimming a rendering of a positive number leaves at least one digit. */
  lemma {:induction false} TrimOfPositive(s: string)
    requires AllDigits(s) && Value(s) > 0
    ensures TrimZeros(s) != []
  {
    var r := TrimZeros(s);
    assert AllDigits(r) by {
      forall i | 0 <= i < |r|
        ensures IsDigit(r[i])
      {
        assert r[i] == (r + Zeros(|s| - |r|))[i];
      }
    }
    ValueAppendZeros(r, |s| - |r|);
  }
}
