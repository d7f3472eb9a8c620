/** Decimal text for unsigned integers: Rust's `u64::from_str` (used through
    `str::parse::<u64>()`) and the `{}` formatting of an unsigned integer. */
module Decimal {
  import opened Base

  /** The largest `u64`. */
  const U64Max: nat := 0xFFFF_FFFF_FFFF_FFFF

  predicate IsDigit(c: char) { '0' <= c <= '9' }

  predicate AllDigits(s: string) {
    forall i :: 0 <= i < |s| ==> IsDigit(s[i])
  }

  function DigitValue(c: char): (d: nat)
    requires IsDigit(c)
    ensures d < 10
  {
    c as int - '0' as int
  }

  function DigitChar(d: nat): (c: char)
    requires d < 10
    ensures IsDigit(c) && DigitValue(c) == d
  {
    ('0' as int + d) as char
  }

  /** The number a string of decimal digits denotes, most significant first. */
  function DigitsValue(s: string): nat
    requires AllDigits(s)
  {
    if s == [] then 0 else DigitsValue(s[..|s| - 1]) * 10 + DigitValue(s[|s| - 1])
  }

  /** `s.parse::<u64>()`: an optional leading `+`, then at least one decimal
      digit and nothing else, denoting a value that fits in 64 bits. Anything
      else (empty text, a lone sign, a `-`, a space, an overflow) is an error. */
  function ParseU64(s: string): (r: Option<nat>)
    ensures r.Some? ==> r.value <= U64Max
    ensures |s| == 0 ==> r.None?
    ensures s == "+" ==> r.None?
    ensures (exists i :: 0 <= i < |s| && !IsDigit(s[i]) && !(i == 0 && s[i] == '+')) ==> r.None?
    ensures AllDigits(s) && s != [] && DigitsValue(s) <= U64Max ==> r == Some(DigitsValue(s))
    ensures AllDigits(s) && s != [] && DigitsValue(s) > U64Max ==> r.None?
    ensures |s| > 1 && s[0] == '+' && AllDigits(s[1..]) ==>
      r == (if DigitsValue(s[1..]) <= U64Max then Some(DigitsValue(s[1..])) else None)
  {
    var digits := if |s| > 0 && s[0] == '+' then s[1..] else s;
    if |digits| == 0 || !AllDigits(digits) then None
    else if DigitsValue(digits) > U64Max then None
    else Some(DigitsValue(digits))
  }

  /** `format!("{}", n)`: the shortest decimal text of `n`. */
  function ToDecimal(n: nat): (s: string)
    ensures s != [] && AllDigits(s)
    ensures |s| > 1 ==> s[0] != '0'
    ensures DigitsValue(s) == n
    decreases n
  {
    if n < 10 then [DigitChar(n)]
    else
      var prefix := ToDecimal(n / 10);
      var s := prefix + [DigitChar(n % 10)];
      assert s[..|s| - 1] == prefix;
      s
  }

  /** One leading `+` is accepted and changes nothing; a second sign is not. */
  lemma PlusSignIgnored(s: string)
    requires s != [] && s[0] != '+'
    ensures ParseU64("+" + s) == ParseU64(s)
  {
    assert ("+" + s)[1..] == s;
  }

  /** `"+7"` parses like `"7"`; `"++7"`, `"+"` and `"-7"` do not parse. */
  lemma ParseU64Examples()
    ensures ParseU64("+7") == Some(7)
    ensures ParseU64("++7").None?
    ensures ParseU64("+").None?
    ensures ParseU64("-7").None?
  {
    PlusSignIgnored("7");
    assert DigitsValue("7") == 7;
    assert !IsDigit(("++7")[1]);
    assert !IsDigit(("-7")[0]);
  }

  /** Formatting then parsing gives back every `u64`. */
  lemma ParseToDecimal(n: nat)
    requires n <= U64Max
    ensures ParseU64(ToDecimal(n)) == Some(n)
  {
    var s := ToDecimal(n);
    assert s[0] != '+' by { assert IsDigit(s[0]); }
  }

  /** Different numbers have different decimal texts. */
  lemma ToDecimalInjective(m: nat, n: nat)
    requires ToDecimal(m) == ToDecimal(n)
    ensures m == n
  {
    assert DigitsValue(ToDecimal(m)) == m;
  }
}
