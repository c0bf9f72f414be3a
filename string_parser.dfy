/** String literals (src/java/me/pavlina/alco/parse/StringParser.java): the
    text of a STRING token, quotes included, decoded into the bytes of the
    string. A literal may hold the printable ASCII characters 0x20 to 0x7e
    directly and any byte through an escape. */
module StringParser {
  import opened Wrappers
  import opened Token
  import IntValue

  /** A Java byte, kept as its bit pattern. */
  type Byte = b: int | 0 <= b < 256

  datatype Failure =
    /** Unexpected.at("string"): the token is not a STRING. */
    | NotAString
    /** new ArrayList(length - 2) with a negative capacity. */
    | NegativeCapacity
    /** Unexpected.at("hex code after \\x"). */
    | HexMissing
    /** Unexpected.at("valid hex code after \\x"). */
    | BadHex
    /** The RuntimeException for an unescaped '"', a lexer bug. */
    | LexerQuote
    /** "invalid character code 0x%02x". */
    | InvalidChar(code: int)
    /** The IllegalFormatConversionException String.format throws when %x is
        given a char, which it does not accept. */
    | IllegalFormat

  /** The byte a one-letter escape stands for, when the letter is one of the
      escapes the switch lists besides x. */
  function SimpleEscape(c: char): (r: Option<Byte>)
    ensures r.Some? <==> c in "abfnrtv'\"\\"
  {
    if c == 'a' then Some(7)
    else if c == 'b' then Some(8)
    else if c == 'f' then Some(12)
    else if c == 'n' then Some(10)
    else if c == 'r' then Some(13)
    else if c == 't' then Some(9)
    else if c == 'v' then Some(11)
    else if c == '\'' then Some('\'' as int)
    else if c == '"' then Some('"' as int)
    else if c == '\\' then Some('\\' as int)
    else None
  }

  predicate Printable(c: char) { ' ' <= c <= '~' }

  /** The (byte) cast of an int: its low eight bits. */
  function ToByte(v: int): (r: Byte)
    ensures 0 <= v < 256 ==> r == v
  {
    v % 256
  }

  /** Integer.parseInt(code, 16), which reads a sign and digits the way
      BigInteger does. */
  function ParseHex(code: string): Option<int> {
    IntValue.ParseBigInteger(code, 16)
  }

  /** Bytes in front of a result; an error stays an error. */
  function Prepend(bytes: seq<Byte>, r: Result<seq<Byte>, Failure>): Result<seq<Byte>, Failure> {
    if r.Ok? then Ok(bytes + r.value) else r
  }

  lemma PrependNone(r: Result<seq<Byte>, Failure>)
    ensures Prepend([], r) == r
  {
    if r.Ok? {
      assert [] + r.value == r.value;
    }
  }

  lemma PrependTwice(a: seq<Byte>, b: seq<Byte>, r: Result<seq<Byte>, Failure>)
    ensures Prepend(a, Prepend(b, r)) == Prepend(a + b, r)
  {
    if r.Ok? {
      assert a + (b + r.value) == (a + b) + r.value;
    }
  }

  // ---------------------------------------------------------------------
  // As written

  /** The loop of parse from index `i` of the token text with the given
      escape flag, as written: the flag is set by a backslash and never
      cleared, and \x reads the next two characters without stepping over
      them. Each character before the closing one gives at most one byte. */
  function ScanAsWritten(text: string, i: nat, inside: bool): (r: Result<seq<Byte>, Failure>)
    ensures r.Ok? ==> |r.value| == 0 || i + 1 + |r.value| <= |text|
    decreases |text| - i
  {
    if i + 1 >= |text| then Ok([])
    else
      var c := text[i];
      if inside then
        match SimpleEscape(c)
        case Some(b) => Prepend([b], ScanAsWritten(text, i + 1, true))
        case None =>
          if c != 'x' then ScanAsWritten(text, i + 1, true)
          else if i > |text| - 3 then Err(HexMissing)
          else
            match ParseHex(text[i + 1..i + 3])
            case None => Err(BadHex)
            case Some(v) => Prepend([ToByte(v)], ScanAsWritten(text, i + 1, true))
      else if c == '\\' then ScanAsWritten(text, i + 1, true)
      else if c == '"' then Err(LexerQuote)
      else if !Printable(c) then Err(IllegalFormat)
      else Prepend([c as int], ScanAsWritten(text, i + 1, false))
  }

  /** parse as written: a string token's bytes are never more than the
      characters between its quotes. */
  function ParseAsWritten(token: Token): (r: Result<seq<Byte>, Failure>)
    ensures r.Ok? ==> token.kind == String && |r.value| <= |token.value| - 2
  {
    if token.kind != String then Err(NotAString)
    else if |token.value| < 2 then Err(NegativeCapacity)
    else ScanAsWritten(token.value, 1, false)
  }

  /** parse, character by character, with the escape flag as written. */
  method Parse(token: Token) returns (r: Result<seq<Byte>, Failure>)
    ensures r == ParseAsWritten(token)
  {
    if token.kind != String {
      return Err(NotAString);
    }
    var text := token.value;
    if |text| < 2 {
      return Err(NegativeCapacity);
    }
    var value: seq<Byte> := [];
    var insideEscape := false;
    var i := 1;
    PrependNone(ScanAsWritten(text, 1, false));
    while i < |text| - 1
      invariant 1 <= i <= |text| - 1
      invariant Prepend(value, ScanAsWritten(text, i, insideEscape)) == ScanAsWritten(text, 1, false)
    {
      var c := text[i];
      if insideEscape {
        var simple := SimpleEscape(c);
        if simple.Some? {
          PrependTwice(value, [simple.value], ScanAsWritten(text, i + 1, true));
          value := value + [simple.value];
        } else if c == 'x' {
          if i > |text| - 3 {
            return Err(HexMissing);
          }
          var code := ParseHex(text[i + 1..i + 3]);
          if code.None? {
            return Err(BadHex);
          }
          PrependTwice(value, [ToByte(code.value)], ScanAsWritten(text, i + 1, true));
          value := value + [ToByte(code.value)];
        }
      } else {
        if c == '\\' {
          insideEscape := true;
          i := i + 1;
          continue;
        }
        if c == '"' {
          return Err(LexerQuote);
        }
        if !Printable(c) {
          return Err(IllegalFormat);
        }
        PrependTwice(value, [c as int], ScanAsWritten(text, i + 1, false));
        value := value + [c as int];
      }
      i := i + 1;
    }
    assert value + [] == value;
    return Ok(value);
  }

  /** Once a backslash has been read, the letter after the next escape is
      decoded as an escape too: "\nb" gives a newline and a backspace. */
  lemma EscapeNeverEnds()
    ensures ParseAsWritten(Token(String, "\"\\nb\"")) == Ok([10, 8])
  {
    var t := "\"\\nb\"";
    assert |t| == 5 && t[2] == 'n' && t[3] == 'b';
    var none: seq<Byte> := [];
    assert ScanAsWritten(t, 4, true) == Ok(none);
    assert SimpleEscape('b') == Some(8);
    var one: seq<Byte> := [8];
    assert [8] + none == one;
    assert Prepend([8], Ok(none)) == Ok(one);
    assert ScanAsWritten(t, 3, true) == Ok(one);
    var two: seq<Byte> := [10, 8];
    assert [10] + one == two;
    assert ScanAsWritten(t, 2, true) == Ok(two);
  }

  /** A hex escape leaves its two digits to be read again as escapes: in
      "\xab" the a and b become bell and backspace after the byte 0xab. */
  lemma HexDigitsReread()
    ensures ParseAsWritten(Token(String, "\"\\xab\"")) == Ok([0xab, 7, 8])
  {
    var t := "\"\\xab\"";
    HexAbReads();
    ReadAgainAsEscapes(t);
    assert |t| == 6 && t[2] == 'x' && t[3..5] == "ab";
    HexStep(t, 2, 0xab, [7, 8]);
    assert [0xab] + [7, 8] == [0xab, 7, 8];
    assert t[1] == '\\';
    assert ScanAsWritten(t, 1, false) == ScanAsWritten(t, 2, true);
  }

  /** Inside an escape, x and two digits that read as v put the byte v in
      front of whatever reading on from the first digit gives. */
  lemma HexStep(t: string, i: nat, v: Byte, rest: seq<Byte>)
    requires i + 3 < |t| && t[i] == 'x' && ParseHex(t[i + 1..i + 3]) == Some(v)
    requires ScanAsWritten(t, i + 1, true) == Ok(rest)
    ensures ScanAsWritten(t, i, true) == Ok([v] + rest)
  {
    assert SimpleEscape(t[i]) == None;
  }

  lemma HexAbReads()
    ensures ParseHex("ab") == Some(0xab)
  {
    assert IntValue.ValueIn("ab", 16) == 0xab by {
      assert "ab"[..1] == "a";
    }
  }

  /** After the \x of the literal, a and b are read again as escapes. */
  lemma ReadAgainAsEscapes(t: string)
    requires t == "\"\\xab\""
    ensures ScanAsWritten(t, 3, true) == Ok([7, 8])
  {
    assert |t| == 6 && t[3] == 'a' && t[4] == 'b';
    var none: seq<Byte> := [];
    var one: seq<Byte> := [8];
    assert ScanAsWritten(t, 5, true) == Ok(none);
    assert [8] + none == one;
    assert ScanAsWritten(t, 4, true) == Ok(one);
    assert [7] + one == [7, 8];
  }

  // ---------------------------------------------------------------------
  // As intended

  /** The decoding the escape table describes: an escape covers the
      backslash, its letter and, for \x, two hex digits, after which plain
      characters are plain again. An unknown escape letter is dropped, as the
      switch drops it, and so is a backslash right before the closing quote. */
  function Decode(body: string): (r: Result<seq<Byte>, Failure>)
    ensures r.Ok? ==> |r.value| <= |body|
    decreases |body|
  {
    if body == [] then Ok([])
    else if body[0] == '\\' then
      if |body| == 1 then Ok([])
      else
        var c := body[1];
        match SimpleEscape(c)
        case Some(b) => Prepend([b], Decode(body[2..]))
        case None =>
          if c != 'x' then Decode(body[2..])
          else if |body| < 4 then Err(HexMissing)
          else
            match ParseHex(body[2..4])
            case None => Err(BadHex)
            case Some(v) => Prepend([ToByte(v)], Decode(body[4..]))
    else if body[0] == '"' then Err(LexerQuote)
    else if !Printable(body[0]) then Err(InvalidChar(body[0] as int))
    else Prepend([body[0] as int], Decode(body[1..]))
  }

  /** parse as intended: the quotes are dropped and the text between them
      decoded, which never gives more bytes than that text has characters. */
  function ParseIntended(token: Token): (r: Result<seq<Byte>, Failure>)
    ensures r.Ok? ==> token.kind == String && |r.value| <= |token.value| - 2
  {
    if token.kind != String then Err(NotAString)
    else if |token.value| < 2 then Err(NegativeCapacity)
    else Decode(token.value[1..|token.value| - 1])
  }

  const HexLetters := "0123456789abcdef"

  /** How a byte is written in a literal: printable characters other than
      the quote and the backslash stand for themselves, those two are
      escaped, and every other byte is a \x escape. */
  function EscapeOne(b: Byte): string {
    if b == '"' as int then "\\\""
    else if b == '\\' as int then "\\\\"
    else if 0x20 <= b <= 0x7e then [b as char]
    else "\\x" + [HexLetters[b / 16], HexLetters[b % 16]]
  }

  function Escape(bytes: seq<Byte>): string {
    if bytes == [] then "" else EscapeOne(bytes[0]) + Escape(bytes[1..])
  }

  lemma HexPair(b: Byte)
    ensures ParseHex([HexLetters[b / 16], HexLetters[b % 16]]) == Some(b)
  {
    var hi, lo := b / 16, b % 16;
    var code := [HexLetters[hi], HexLetters[lo]];
    IntValue.LetterDigit(hi, 16);
    IntValue.LetterDigit(lo, 16);
    assert IntValue.DigitLetters == HexLetters;
    assert code[..1] == [HexLetters[hi]];
    assert IntValue.ValueIn(code[..1], 16) == hi by {
      assert code[..1][..0] == [];
    }
  }

  /** One escaped byte, then the rest, decodes to that byte, then the rest. */
  lemma DecodeOne(b: Byte, rest: string)
    ensures Decode(EscapeOne(b) + rest) == Prepend([b], Decode(rest))
  {
    if b == '"' as int || b == '\\' as int {
      DecodeQuoted(b, rest);
    } else if 0x20 <= b <= 0x7e {
      DecodePlain(b, rest);
    } else {
      DecodeHex(b, rest);
    }
  }

  lemma DecodeQuoted(b: Byte, rest: string)
    requires b == '"' as int || b == '\\' as int
    ensures Decode(EscapeOne(b) + rest) == Prepend([b], Decode(rest))
  {
    var s := EscapeOne(b) + rest;
    assert s[0] == '\\' && s[1] == b as char;
    assert s[2..] == rest;
  }

  lemma DecodePlain(b: Byte, rest: string)
    requires 0x20 <= b <= 0x7e && b != '"' as int && b != '\\' as int
    ensures Decode(EscapeOne(b) + rest) == Prepend([b], Decode(rest))
  {
    var s := EscapeOne(b) + rest;
    assert s[0] == b as char;
    assert s[1..] == rest;
  }

  lemma DecodeHex(b: Byte, rest: string)
    requires !(0x20 <= b <= 0x7e)
    ensures Decode(EscapeOne(b) + rest) == Prepend([b], Decode(rest))
  {
    var code := [HexLetters[b / 16], HexLetters[b % 16]];
    assert EscapeOne(b) == "\\x" + code;
    assert EscapeOne(b) + rest == "\\x" + code + rest;
    assert ToByte(b) == b;
    HexPair(b);
    DecodeHexEscape(code, b, rest);
  }

  /** A \x escape with two digits that read as v stands for the byte of v. */
  lemma DecodeHexEscape(code: string, v: int, rest: string)
    requires |code| == 2 && ParseHex(code) == Some(v)
    ensures Decode("\\x" + code + rest) == Prepend([ToByte(v)], Decode(rest))
  {
    var s := "\\x" + code + rest;
    assert s[0] == '\\' && s[1] == 'x';
    assert SimpleEscape('x') == None;
    assert s[2..4] == code;
    assert s[4..] == rest;
  }

  /** Decoding undoes escaping: every byte string survives being written as
      a literal and read back. */
  lemma {:induction false} EscapeRoundTrip(bytes: seq<Byte>)
    ensures Decode(Escape(bytes)) == Ok(bytes)
  {
    if bytes != [] {
      EscapeRoundTrip(bytes[1..]);
      DecodeOne(bytes[0], Escape(bytes[1..]));
      assert [bytes[0]] + bytes[1..] == bytes;
    }
  }

  /** As a whole token: the quoted escape of any bytes parses back to them. */
  lemma LiteralRoundTrip(bytes: seq<Byte>)
    ensures ParseIntended(Token(String, "\"" + Escape(bytes) + "\"")) == Ok(bytes)
  {
    var text := "\"" + Escape(bytes) + "\"";
    assert text[1..|text| - 1] == Escape(bytes);
    EscapeRoundTrip(bytes);
  }

  // ---------------------------------------------------------------------
  // Where the two agree

  predicate Plain(body: string) {
    forall k :: 0 <= k < |body| ==> Printable(body[k]) && body[k] != '\\' && body[k] != '"'
  }

  function Codes(body: string): seq<Byte>
    requires forall k :: 0 <= k < |body| ==> Printable(body[k])
  {
    if body == [] then []
    else
      assert Printable(body[0]);
      var b: Byte := body[0] as int;
      [b] + Codes(body[1..])
  }

  /** A literal without escapes is its characters' codes, as written. */
  lemma {:induction false} PlainAsWritten(text: string, i: nat)
    requires 1 <= i <= |text| - 1 && Plain(text[i..|text| - 1])
    ensures ScanAsWritten(text, i, false) == Ok(Codes(text[i..|text| - 1]))
    decreases |text| - i
  {
    if i + 1 < |text| {
      PlainAsWritten(text, i + 1);
      assert text[i..|text| - 1][1..] == text[i + 1..|text| - 1];
    }
  }

  /** An unescaped character outside 0x20..0x7e, after plain text, makes
      the written parse throw from String.format instead of reporting the
      character, whatever follows it. */
  lemma UnprintableRejected(text: string, i: nat)
    requires 1 <= i < |text| - 1 && Plain(text[1..i])
    requires !Printable(text[i]) && text[i] != '\\' && text[i] != '"'
    ensures ParseAsWritten(Token(String, text)) == Err(IllegalFormat)
  {
    UnprintableFrom(text, 1, i);
  }

  lemma {:induction false} UnprintableFrom(text: string, j: nat, i: nat)
    requires 1 <= j <= i < |text| - 1 && Plain(text[j..i])
    requires !Printable(text[i]) && text[i] != '\\' && text[i] != '"'
    ensures ScanAsWritten(text, j, false) == Err(IllegalFormat)
    decreases i - j
  {
    if j < i {
      assert text[j] == text[j..i][0];
      assert text[j + 1..i] == text[j..i][1..];
      UnprintableFrom(text, j + 1, i);
    }
  }

  /** The intended parse reports the same character as a compile error
      carrying its code. */
  lemma UnprintableReported(text: string, i: nat)
    requires 1 <= i < |text| - 1 && Plain(text[1..i])
    requires !Printable(text[i]) && text[i] != '\\' && text[i] != '"'
    ensures ParseIntended(Token(String, text)) == Err(InvalidChar(text[i] as int))
  {
    var body := text[1..|text| - 1];
    assert body[..i - 1] == text[1..i] && body[i - 1] == text[i];
    DecodeUnprintableFrom(body, i - 1);
  }

  lemma {:induction false} DecodeUnprintableFrom(body: string, k: nat)
    requires k < |body| && Plain(body[..k])
    requires !Printable(body[k]) && body[k] != '\\' && body[k] != '"'
    ensures Decode(body) == Err(InvalidChar(body[k] as int))
    decreases k
  {
    if k > 0 {
      assert body[0] == body[..k][0];
      assert body[1..][..k - 1] == body[..k][1..];
      DecodeUnprintableFrom(body[1..], k - 1);
    }
  }

  /** Each escape letter, alone in a literal, gives its byte as written. */
  lemma SingleEscapes(c: char)
    requires SimpleEscape(c).Some?
    ensures ParseAsWritten(Token(String, "\"\\" + [c] + "\"")) == Ok([SimpleEscape(c).value])
  {
    var t := "\"\\" + [c] + "\"";
    assert |t| == 4 && t[1] == '\\' && t[2] == c;
    var none: seq<Byte> := [];
    var b := SimpleEscape(c).value;
    var one: seq<Byte> := [b];
    assert ScanAsWritten(t, 3, true) == Ok(none);
    assert [b] + none == one;
    assert ScanAsWritten(t, 2, true) == Ok(one);
  }
}
