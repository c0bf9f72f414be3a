/** A scanner that reads characters, counted strings and decimal integers out
    of a mangled name (src/java/me/pavlina/alco/language/MangleReader.java). */
module MangleReader {
  import opened Wrappers
  import opened Text

  /** End of the run of decimal digits that starts at `p`. */
  function DigitRunEnd(s: string, p: nat): (e: nat)
    requires p <= |s|
    ensures p <= e <= |s|
    ensures AllDigits(s[p..e])
    ensures e == |s| || !IsDigit(s[e])
    decreases |s| - p
  {
    if p < |s| && IsDigit(s[p]) then
      var e := DigitRunEnd(s, p + 1);
      assert s[p..e] == [s[p]] + s[p + 1..e];
      e
    else p
  }

  /** nextInt as written: the value of the digit run as a Java `int`; when the
      run stops on a non-digit the position is left one before that
      character, that is, on the run's last digit. */
  function ReadIntAsWritten(s: string, p: nat): (r: Result<(int, nat), string>)
    requires p <= |s|
    ensures r.Err? <==> p == |s| || !IsDigit(s[p])
    ensures r.Ok? ==> var e := DigitRunEnd(s, p);
                      r.value.0 == ToInt32(DigitsValue(s[p..e]))
                      && r.value.1 == (if e == |s| then e else e - 1)
  {
    if p >= |s| then Err("IndexOutOfBoundsException")
    else if !IsDigit(s[p]) then Err("NumberFormatException")
    else
      var e := DigitRunEnd(s, p);
      Ok((ToInt32(DigitsValue(s[p..e])), if e == |s| then e else e - 1))
  }

  /** nextInt as its documentation intends: the position is left on the first
      character after the digits. */
  function ReadInt(s: string, p: nat): (r: Result<(int, nat), string>)
    requires p <= |s|
    ensures r.Err? <==> p == |s| || !IsDigit(s[p])
    ensures r.Ok? ==> var e := DigitRunEnd(s, p);
                      r.value.0 == ToInt32(DigitsValue(s[p..e])) && r.value.1 == e
  {
    if p >= |s| then Err("IndexOutOfBoundsException")
    else if !IsDigit(s[p]) then Err("NumberFormatException")
    else
      var e := DigitRunEnd(s, p);
      Ok((ToInt32(DigitsValue(s[p..e])), e))
  }

  /** nextString: the next `length` characters, or IndexOutOfBoundsException
      when fewer remain (or the length is negative). */
  function ReadString(s: string, p: nat, length: int): (r: Result<(string, nat), string>)
    requires p <= |s|
    ensures r.Err? <==> length < 0 || p + length > |s|
    ensures r.Ok? ==> |r.value.0| == length && s[..p] + r.value.0 == s[..p + length]
                      && r.value.1 == p + length
  {
    if length < 0 || p + length > |s| then Err("IndexOutOfBoundsException")
    else
      assert s[..p + length] == s[..p] + s[p..p + length];
      Ok((s[p..p + length], p + length))
  }

  lemma DigitRunOfDecimal(n: nat, rest: string)
    requires rest == [] || !IsDigit(rest[0])
    ensures var s := NatToString(n) + rest;
            DigitRunEnd(s, 0) == |NatToString(n)| && s[..|NatToString(n)|] == NatToString(n)
  {
    var d := NatToString(n);
    var s := d + rest;
    NatToStringDigits(n);
    DigitRunFrom(s, 0, |d|);
  }

  lemma {:induction false} DigitRunFrom(s: string, p: nat, e: nat)
    requires p <= e <= |s|
    requires forall k :: p <= k < e ==> IsDigit(s[k])
    requires e == |s| || !IsDigit(s[e])
    ensures DigitRunEnd(s, p) == e
    decreases e - p
  {
    if p < e {
      DigitRunFrom(s, p + 1, e);
    }
  }

  /** The intended reader takes a decimal count back in full and stops on the
      character after it, so a length-prefixed name round-trips. */
  lemma {:induction false} ReadIntOfDecimal(n: nat, name: string)
    requires n < TwoTo31 && |name| == n
    requires name == [] || !IsDigit(name[0])
    ensures var s := NatToString(n) + name;
            ReadInt(s, 0) == Ok((n, |NatToString(n)|))
            && ReadString(s, |NatToString(n)|, n) == Ok((name, |s|))
  {
    var d := NatToString(n);
    var s := d + name;
    NatToStringDigits(n);
    DigitRunOfDecimal(n, name);
    assert s[0..|d|] == d;
    assert s[|d|..|d| + n] == name;
  }

  /** As written, reading "3abc" leaves the position on the '3', so the three
      characters read next are "3ab" rather than "abc". */
  lemma ReadIntAsWrittenRereadsLastDigit()
    ensures ReadIntAsWritten("3abc", 0) == Ok((3, 0))
    ensures ReadString("3abc", 0, 3) == Ok(("3ab", 3))
    ensures ReadInt("3abc", 0) == Ok((3, 1))
    ensures ReadString("3abc", 1, 3) == Ok(("abc", 4))
  {
    assert DigitRunEnd("3abc", 1) == 1;
    assert DigitRunEnd("3abc", 0) == 1;
    assert "3abc"[0..1] == "3";
    assert DigitsValue("3") == 3;
    assert "3abc"[1..4] == "abc";
    assert "3abc"[0..3] == "3ab";
  }

  /** One more digit in a run: the 32-bit value read so far, times ten,
      plus the digit. */
  lemma DigitStep(chs: string, start: nat, pos: nat)
    requires start <= pos < |chs| && AllDigits(chs[start..pos]) && IsDigit(chs[pos])
    ensures AllDigits(chs[start..pos + 1])
    ensures ToInt32(DigitsValue(chs[start..pos + 1]))
            == ToInt32(10 * ToInt32(DigitsValue(chs[start..pos])) + (chs[pos] as int - '0' as int))
  {
    var s := chs[start..pos + 1];
    assert s[..|s| - 1] == chs[start..pos];
    assert forall i :: 0 <= i < |s| - 1 ==> s[i] == chs[start..pos][i];
    ToInt32MulAdd(DigitsValue(chs[start..pos]), chs[pos] as int - '0' as int);
  }

  class MangleReader {
    const chs: seq<char>
    var pos: nat

    ghost predicate Valid()
      reads this
    {
      pos <= |chs|
    }

    constructor (str: string)
      ensures Valid() && chs == str && pos == 0
    {
      chs := str;
      pos := 0;
    }

    function HasMore(): (b: bool)
      reads this
      ensures b <==> pos < |chs|
    {
      pos < |chs|
    }

    /** The current character, advancing past it; IndexOutOfBoundsException
        at the end. */
    method NextChar() returns (r: Result<char, string>)
      requires Valid()
      modifies this
      ensures Valid()
      ensures r.Err? <==> old(pos) >= |chs|
      ensures r.Ok? ==> r.value == chs[old(pos)] && pos == old(pos) + 1
      ensures r.Err? ==> pos == old(pos)
    {
      if pos >= |chs| {
        return Err("IndexOutOfBoundsException");
      }
      r := Ok(chs[pos]);
      pos := pos + 1;
    }

    /** The current character without advancing. */
    function PeekChar(): (r: Result<char, string>)
      reads this
      requires Valid()
      ensures r.Err? <==> pos >= |chs|
      ensures r.Ok? ==> r.value == chs[pos]
    {
      if pos >= |chs| then Err("IndexOutOfBoundsException") else Ok(chs[pos])
    }

    /** nextInt as written, with Java's 32-bit wrap-around of the value. */
    method NextInt() returns (r: Result<int, string>)
      requires Valid()
      modifies this
      ensures Valid()
      ensures var spec := ReadIntAsWritten(chs, old(pos));
              if spec.Err? then r == Err(spec.error) && pos == old(pos)
              else r == Ok(spec.value.0) && pos == spec.value.1
    {
      if pos >= |chs| {
        return Err("IndexOutOfBoundsException");
      }
      if chs[pos] < '0' || chs[pos] > '9' {
        return Err("NumberFormatException");
      }
      ghost var start := pos;
      var value := 0;
      var stopped := false;
      while pos < |chs|
        invariant start <= pos <= |chs| && start < |chs| && IsDigit(chs[start])
        invariant AllDigits(chs[start..pos])
        invariant value == ToInt32(DigitsValue(chs[start..pos]))
      {
        var c := chs[pos];
        if '0' <= c <= '9' {
          DigitStep(chs, start, pos);
          value := ToInt32(value * 10 + (c as int - '0' as int));
          pos := pos + 1;
        } else {
          DigitRunFrom(chs, start, pos);
          pos := pos - 1;
          stopped := true;
          break;
        }
      }
      if !stopped {
        DigitRunFrom(chs, start, pos);
      }
      r := Ok(value);
    }

    method NextString(length: int) returns (r: Result<string, string>)
      requires Valid()
      modifies this
      ensures Valid()
      ensures var spec := ReadString(chs, old(pos), length);
              if spec.Err? then r == Err(spec.error) && pos == old(pos)
              else r == Ok(spec.value.0) && pos == spec.value.1
    {
      if pos + length > |chs| || length < 0 {
        return Err("IndexOutOfBoundsException");
      }
      assert chs[..pos + length] == chs[..pos] + chs[pos..pos + length];
      r := Ok(chs[pos..pos + length]);
      pos := pos + length;
    }
  }
}
