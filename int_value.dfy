/** Integer literals (src/java/me/pavlina/alco/ast/IntValue.java): the radix
    prefix of the token text, the digits read in that radix as
    java.math.BigInteger reads them, and the default type checkTypes gives
    the value. */
module IntValue {
  import opened Wrappers
  import opened Text
  import opened IntLimits
  import Types
  import Cast

  const InvalidInteger := "invalid integer"
  const MagnitudeTooHigh := "integer magnitude too high"

  /** Character.digit for ASCII: the value of a digit or letter in the radix,
      or -1 when the character is not a digit of that radix. */
  function DigitIn(c: char, radix: nat): (d: int)
    ensures -1 <= d && d < radix
  {
    var v :=
      if '0' <= c <= '9' then c as int - '0' as int
      else if 'a' <= c <= 'z' then c as int - 'a' as int + 10
      else if 'A' <= c <= 'Z' then c as int - 'A' as int + 10
      else -1;
    if v < radix then v else -1
  }

  predicate AllDigitsIn(s: string, radix: nat) {
    forall i :: 0 <= i < |s| ==> DigitIn(s[i], radix) >= 0
  }

  /** The value of a run of digits in the radix, most significant first. */
  function ValueIn(s: string, radix: nat): nat
    requires AllDigitsIn(s, radix)
  {
    if s == [] then 0
    else ValueIn(s[..|s| - 1], radix) * radix + DigitIn(s[|s| - 1], radix)
  }

  /** new BigInteger(number, radix): an optional '-' or '+' and then one or
      more digits of the radix; anything else is a NumberFormatException. */
  function ParseBigInteger(number: string, radix: nat): Option<int> {
    var signed := number != [] && (number[0] == '-' || number[0] == '+');
    var digits := if signed then number[1..] else number;
    if digits == [] || !AllDigitsIn(digits, radix) then None
    else if signed && number[0] == '-' then Some(-(ValueIn(digits, radix) as int))
    else Some(ValueIn(digits, radix))
  }

  /** The radix prefix: 0x, 0d, 0o or 0b in either case, stripped from the
      digits; without one the whole text is read in radix 10. */
  function SplitRadix(text: string): (r: (string, nat))
    ensures r.1 in {2, 8, 10, 16}
    ensures r.0 == text || (|text| >= 2 && r.0 == text[2..])
  {
    if StartsWith(text, "0x") || StartsWith(text, "0X") then (text[2..], 16)
    else if StartsWith(text, "0D") || StartsWith(text, "0d") then (text[2..], 10)
    else if StartsWith(text, "0O") || StartsWith(text, "0o") then (text[2..], 8)
    else if StartsWith(text, "0B") || StartsWith(text, "0b") then (text[2..], 2)
    else (text, 10)
  }

  /** The IntValue constructor on the text of an INT token. */
  function ParseLiteral(text: string): Result<int, string> {
    var (number, radix) := SplitRadix(text);
    match ParseBigInteger(number, radix)
    case Some(v) => Ok(v)
    case None => Err(InvalidInteger)
  }

  // ---------------------------------------------------------------------
  // Writing a literal back

  const DigitLetters := "0123456789abcdef"

  /** The digits of `n` in a radix up to 16, most significant first. */
  function RadixDigits(n: nat, radix: nat): (s: string)
    requires 2 <= radix <= 16
    decreases n
  {
    if n < radix then [DigitLetters[n]]
    else RadixDigits(n / radix, radix) + [DigitLetters[n % radix]]
  }

  /** The prefix that selects each radix, in lower case. */
  function PrefixOf(radix: nat): string {
    if radix == 16 then "0x" else if radix == 8 then "0o" else if radix == 2 then "0b" else "0d"
  }

  /** The letter written for a digit reads back as that digit. */
  lemma LetterDigit(d: nat, radix: nat)
    requires d < radix <= 16
    ensures DigitIn(DigitLetters[d], radix) == d
  {
    if d < 10 {
      assert DigitLetters[d] as int == '0' as int + d;
    } else {
      assert DigitLetters[d] as int == 'a' as int + d - 10;
    }
  }

  lemma DivMod(n: nat, radix: nat)
    requires radix > 0
    ensures (n / radix) * radix + n % radix == n
  {
  }

  lemma {:induction false} RadixDigitsValue(n: nat, radix: nat)
    requires 2 <= radix <= 16
    ensures |RadixDigits(n, radix)| >= 1
    ensures AllDigitsIn(RadixDigits(n, radix), radix)
    ensures ValueIn(RadixDigits(n, radix), radix) == n
    decreases n
  {
    if n < radix {
      LetterDigit(n, radix);
      AppendDigit([], DigitLetters[n], radix);
      assert [] + [DigitLetters[n]] == RadixDigits(n, radix);
    } else {
      RadixDigitsValue(n / radix, radix);
      RadixDigitsStep(n, radix);
    }
  }

  /** The inductive step of RadixDigitsValue: the digits of n are those of
      n / radix and one more letter. */
  lemma RadixDigitsStep(n: nat, radix: nat)
    requires 2 <= radix <= 16 && n >= radix
    requires AllDigitsIn(RadixDigits(n / radix, radix), radix)
    requires ValueIn(RadixDigits(n / radix, radix), radix) == n / radix
    ensures AllDigitsIn(RadixDigits(n, radix), radix)
    ensures ValueIn(RadixDigits(n, radix), radix) == n
  {
    var q, m := n / radix, n % radix;
    LetterDigit(m, radix);
    var init := RadixDigits(q, radix);
    assert RadixDigits(n, radix) == init + [DigitLetters[m]];
    AppendDigit(init, DigitLetters[m], radix);
    DivMod(n, radix);
  }

  /** One more digit on the right multiplies the value by the radix and
      adds the digit. */
  lemma AppendDigit(init: string, c: char, radix: nat)
    requires AllDigitsIn(init, radix) && DigitIn(c, radix) >= 0
    ensures AllDigitsIn(init + [c], radix)
    ensures ValueIn(init + [c], radix) == ValueIn(init, radix) * radix + DigitIn(c, radix)
  {
    var s := init + [c];
    assert s[..|s| - 1] == init;
    assert forall i :: 0 <= i < |init| ==> s[i] == init[i];
  }

  /** Reading a literal written with a radix prefix gives back the number,
      for every radix the prefixes select. */
  lemma PrefixedLiteralRoundTrip(n: nat, radix: nat)
    requires radix in {2, 8, 10, 16}
    ensures ParseLiteral(PrefixOf(radix) + RadixDigits(n, radix)) == Ok(n)
  {
    DigitsParse(n, radix);
    SplitPrefixed(RadixDigits(n, radix), radix);
  }

  /** The prefix of each radix is recognised and stripped. */
  lemma SplitPrefixed(d: string, radix: nat)
    requires radix in {2, 8, 10, 16}
    ensures SplitRadix(PrefixOf(radix) + d) == (d, radix)
  {
    var text := PrefixOf(radix) + d;
    var p := text[..2];
    assert p == PrefixOf(radix);
    assert text[2..] == d;
    assert StartsWith(text, p);
    assert p[0] == '0';
    if radix != 16 {
      assert p[1] != 'x' && p[1] != 'X';
      assert !StartsWith(text, "0x") && !StartsWith(text, "0X");
    }
    if radix != 10 {
      assert p[1] != 'd' && p[1] != 'D';
      assert !StartsWith(text, "0d") && !StartsWith(text, "0D");
    }
    if radix != 8 {
      assert p[1] != 'o' && p[1] != 'O';
      assert !StartsWith(text, "0o") && !StartsWith(text, "0O");
    }
  }

  /** The digits of a number parse back to it in their radix. */
  lemma DigitsParse(n: nat, radix: nat)
    requires 2 <= radix <= 16
    ensures ParseBigInteger(RadixDigits(n, radix), radix) == Some(n)
  {
    var d := RadixDigits(n, radix);
    RadixDigitsValue(n, radix);
    assert DigitIn(d[0], radix) >= 0;
  }

  /** A literal without a prefix is read in radix 10. */
  lemma DecimalLiteralRoundTrip(n: nat)
    ensures ParseLiteral(RadixDigits(n, 10)) == Ok(n)
  {
    var d := RadixDigits(n, 10);
    DigitsParse(n, 10);
    if n >= 10 {
      RadixDigitsLead(n, 10);
    } else {
      assert |d| == 1;
    }
    Unprefixed(d);
  }

  /** Text that does not start with '0' and a second character has no radix
      prefix. */
  lemma Unprefixed(text: string)
    requires |text| < 2 || text[0] != '0'
    ensures SplitRadix(text) == (text, 10)
  {
    if |text| >= 2 {
      assert text[..2][0] != '0';
    }
  }

  /** Only a number below the radix is written with a leading '0'. */
  lemma {:induction false} RadixDigitsLead(n: nat, radix: nat)
    requires 2 <= radix <= 16 && n >= radix
    ensures |RadixDigits(n, radix)| >= 2 && RadixDigits(n, radix)[0] != '0'
    decreases n
  {
    if n / radix >= radix {
      RadixDigitsLead(n / radix, radix);
    } else {
      RadixDigitsValue(n / radix, radix);
      assert RadixDigits(n / radix, radix) == [DigitLetters[n / radix]];
    }
  }

  /** A character that is not a digit of the selected radix makes the
      literal invalid, wherever it stands after the prefix and sign. */
  lemma InvalidDigitRejected(text: string, i: nat)
    requires var (number, radix) := SplitRadix(text);
             0 < i < |number| && DigitIn(number[i], radix) < 0
    ensures ParseLiteral(text) == Err(InvalidInteger)
  {
    var (number, radix) := SplitRadix(text);
    var signed := number[0] == '-' || number[0] == '+';
    var digits := if signed then number[1..] else number;
    var j := if signed then i - 1 else i;
    assert digits[j] == number[i];
  }

  // ---------------------------------------------------------------------
  // Default type

  /** checkTypes: the first of int, i64 and u64 whose range holds the value,
      or an error when none does. */
  function DefaultTypeName(v: int): (r: Result<string, string>)
    ensures r.Err? <==> v < I64Min || v > U64Max
    ensures r.Err? ==> r.error == MagnitudeTooHigh
    ensures r.Ok? ==> r.value in {"int", "i64", "u64"}
  {
    if I32Min <= v <= I32Max then Ok("int")
    else if I64Min <= v <= I64Max then Ok("i64")
    else if 0 <= v <= U64Max then Ok("u64")
    else Err(MagnitudeTooHigh)
  }

  /** The range of an integer type, as the cast check reads it. */
  function RangeOf(bits: nat, name: string): (int, int) {
    var t := Types.BaseType(bits, name, None);
    Cast.LiteralRange(Types.EncodingOf(t) == Types.SInt, Types.SizeOf(t))
  }

  predicate InRange(bits: nat, name: string, v: int) {
    RangeOf(bits, name).0 <= v <= RangeOf(bits, name).1
  }

  /** The default type holds the value, and no earlier candidate in the
      order int, i64, u64 does. */
  lemma DefaultTypeHoldsValue(bits: nat, v: int)
    requires DefaultTypeName(v).Ok?
    ensures InRange(bits, DefaultTypeName(v).value, v)
    ensures DefaultTypeName(v).value != "int" ==> !InRange(bits, "int", v)
    ensures DefaultTypeName(v).value == "u64" ==> !InRange(bits, "i64", v)
  {
  }

  /** Every literal read from a token, which carries no sign, has a type
      unless it exceeds the u64 range. */
  lemma UnsignedLiteralTyped(n: nat)
    ensures DefaultTypeName(n).Ok? <==> n <= U64Max
  {
  }
}
