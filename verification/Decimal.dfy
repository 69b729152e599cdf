/** Decimal numerals: the one notation that the Solidity printer, the Rust guest
    (`u64::to_string`) and the egress port normaliser all emit. */
module Decimal {

  /** A byte stands for the character with its code, so ASCII literals read as themselves.
      Nothing below needs the bound 256: every result holds for all strings of characters,
      and so in particular for those of bytes. */
  type byte = char

  predicate IsDigit(c: char) { '0' <= c <= '9' }

  predicate AllDigits(s: string) { forall k :: 0 <= k < |s| ==> IsDigit(s[k]) }

  function DigitChar(d: nat): (c: byte)
    requires d < 10
    ensures IsDigit(c) && c as int - 48 == d
  {
    (48 + d) as char
  }

  /** The number written by a string of digits, most significant first. */
  function Value(s: string): nat
    requires AllDigits(s)
  {
    if s == [] then 0 else Value(s[..|s| - 1]) * 10 + (s[|s| - 1] as int - 48)
  }

  /** The numeral of `n`: no sign and no leading zero. */
  function Numeral(n: nat): (s: seq<byte>)
    ensures s != []
  {
    if n < 10 then [DigitChar(n)] else Numeral(n / 10) + [DigitChar(n % 10)]
  }

  ghost predicate IsNumeral(s: string) {
    s != [] && AllDigits(s) && (|s| > 1 ==> s[0] != '0')
  }

  /** `s` is a numeral and its value is `n`; only zero starts with a zero. */
  ghost predicate Writes(s: string, n: nat) {
    IsNumeral(s) && Value(s) == n && (s[0] == '0' <==> n == 0)
  }

  lemma {:induction false} NumeralReadsBack(n: nat)
    ensures Writes(Numeral(n), n)
  {
    if n >= 10 {
      NumeralReadsBack(n / 10);
      assert Numeral(n)[..|Numeral(n)| - 1] == Numeral(n / 10);
    } else {
      assert Numeral(n)[..0] == [];
    }
  }

  /** Numerals are canonical: a digit string without a leading zero is the numeral of its value. */
  lemma {:induction false} NumeralIsCanonical(s: string)
    requires IsNumeral(s)
    ensures Numeral(Value(s)) == s
    ensures |s| > 1 ==> Value(s) >= 10
  {
    var init, last := s[..|s| - 1], s[|s| - 1];
    if |s| == 1 {
      assert init == [];
      assert s == [last];
    } else {
      NumeralIsCanonical(init);
      if |init| == 1 {
        assert init[..0] == [];
        assert Value(init) == init[0] as int - 48 >= 1;
      }
      assert s == init + [last];
    }
  }

  lemma ValueAppend(s: string, c: char)
    requires AllDigits(s) && IsDigit(c)
    ensures AllDigits(s + [c]) && Value(s + [c]) == Value(s) * 10 + (c as int - 48)
  {
    assert (s + [c])[..|s|] == s;
  }

  /** Reading more digits never makes the value smaller. */
  lemma {:induction false} ValueOfPrefix(s: string, k: nat)
    requires AllDigits(s) && k <= |s|
    ensures Value(s[..k]) <= Value(s)
    decreases |s|
  {
    if k < |s| {
      var init := s[..|s| - 1];
      ValueOfPrefix(init, k);
      assert init[..k] == s[..k];
    } else {
      assert s[..k] == s;
    }
  }
}
