/** An output stream that indents every line it passes through by a fixed
    number of spaces (src/java/me/pavlina/IndentOutputStream.java). Bytes
    are modelled as ints and the underlying PrintStream as the sequence of
    bytes it has received. */
module IndentOutput {

  const Newline: int := 10
  const Space: int := 32

  /** `n` spaces; a negative indent writes none. */
  function Spaces(n: int): (r: seq<int>)
    ensures |r| == if n < 0 then 0 else n
    ensures forall i :: 0 <= i < |r| ==> r[i] == Space
    decreases n
  {
    if n <= 0 then [] else Spaces(n - 1) + [Space]
  }

  /** What one write(b) sends on, given the indent flag before it. */
  function Emit(indentNext: bool, indent: int, b: int): seq<int> {
    (if b != Newline && indentNext then Spaces(indent) else []) + [b]
  }

  /** The bytes a fresh stream sends on for the input, written byte by byte
      with the flag each write leaves behind. */
  function Render(indentNext: bool, indent: int, bs: seq<int>): seq<int>
    decreases |bs|
  {
    if bs == [] then [] else Emit(indentNext, indent, bs[0]) + Render(bs[0] == Newline, indent, bs[1..])
  }

  function IndentLine(indent: int, line: seq<int>): seq<int> {
    if line == [] then [] else Spaces(indent) + line
  }

  /** Reference behaviour, line by line: every non-empty line (a maximal run
      without newlines) gets the indent in front, newlines are copied. */
  function IndentLines(indent: int, bs: seq<int>): seq<int>
    decreases |bs|
  {
    if Newline !in bs then IndentLine(indent, bs)
    else
      var k := FirstNewline(bs);
      IndentLine(indent, bs[..k]) + [Newline] + IndentLines(indent, bs[k + 1..])
  }

  function FirstNewline(bs: seq<int>): (k: nat)
    requires Newline in bs
    ensures k < |bs| && bs[k] == Newline && Newline !in bs[..k]
  {
    if bs[0] == Newline then 0 else
      var k := FirstNewline(bs[1..]);
      assert bs[1..][..k] == bs[1..k + 1];
      k + 1
  }

  /** Within a line, only the first byte can be indented. */
  lemma {:induction false} RenderLine(indentNext: bool, indent: int, line: seq<int>, rest: seq<int>)
    requires Newline !in line
    ensures Render(indentNext, indent, line + rest)
            == (if indentNext && line != [] then Spaces(indent) else []) + line
               + Render(if line == [] then indentNext else false, indent, rest)
    decreases |line|
  {
    if line != [] {
      var whole := line + rest;
      assert whole[0] == line[0] != Newline;
      assert whole[1..] == line[1..] + rest;
      RenderLine(false, indent, line[1..], rest);
      assert Render(indentNext, indent, whole)
             == Emit(indentNext, indent, line[0]) + Render(false, indent, line[1..] + rest);
      assert [line[0]] + line[1..] == line;
    } else {
      assert line + rest == rest;
    }
  }

  /** The byte-by-byte stream indents exactly as the line-by-line reference:
      indent before the first byte and before any byte after a newline,
      every input byte sent on once, in order. */
  lemma {:induction false} RenderIsIndentLines(indent: int, bs: seq<int>)
    ensures Render(true, indent, bs) == IndentLines(indent, bs)
    decreases |bs|
  {
    if Newline !in bs {
      RenderLine(true, indent, bs, []);
      assert bs + [] == bs;
    } else {
      var k := FirstNewline(bs);
      RenderIsIndentLines(indent, bs[k + 1..]);
      NewlineStep(indent, bs, k);
    }
  }

  /** Up to and including the first newline both sides agree, so they agree
      on the whole input when they agree on what follows it. */
  lemma NewlineStep(indent: int, bs: seq<int>, k: nat)
    requires Newline in bs && k == FirstNewline(bs)
    requires Render(true, indent, bs[k + 1..]) == IndentLines(indent, bs[k + 1..])
    ensures Render(true, indent, bs) == IndentLines(indent, bs)
  {
    var line, rest := bs[..k], bs[k + 1..];
    assert bs == line + ([Newline] + rest);
    RenderLine(true, indent, line, [Newline] + rest);
    assert ([Newline] + rest)[1..] == rest;
  }

  /** Rendering a longer input extends the rendering of its prefix by what the
      next write sends on. */
  lemma {:induction false} RenderSnoc(indentNext: bool, indent: int, bs: seq<int>, b: int)
    ensures Render(indentNext, indent, bs + [b])
            == Render(indentNext, indent, bs) + Emit(FlagAfter(indentNext, bs), indent, b)
    decreases |bs|
  {
    if bs != [] {
      assert (bs + [b])[1..] == bs[1..] + [b];
      RenderSnoc(bs[0] == Newline, indent, bs[1..], b);
    }
  }

  /** The flag after writing the bytes: set by a trailing newline, cleared by
      any other byte, unchanged when nothing is written. */
  function FlagAfter(indentNext: bool, bs: seq<int>): bool {
    if bs == [] then indentNext else bs[|bs| - 1] == Newline
  }

  class IndentOutputStream {
    /** Bytes received so far by the underlying PrintStream. */
    var out: seq<int>
    var indentNext: bool
    const indent: int

    constructor (indent: int)
      ensures out == [] && indentNext && this.indent == indent
    {
      out := [];
      this.indent := indent;
      indentNext := true;
    }

    method Write(b: int)
      modifies this
      ensures out == old(out) + Emit(old(indentNext), indent, b)
      ensures indentNext == (b == Newline)
    {
      if b == Newline {
        indentNext := true;
      } else if indentNext {
        var i := 0;
        while i < indent
          invariant 0 <= i || indent <= 0
          invariant out == old(out) + Spaces(if i <= indent then i else indent)
        {
          out := out + [Space];
          i := i + 1;
        }
        indentNext := false;
      }
      out := out + [b];
    }
  }

  /** Writing the bytes one at a time through a fresh stream indents every
      non-empty line. */
  method WriteAll(indent: int, bs: seq<int>) returns (written: seq<int>)
    ensures written == IndentLines(indent, bs)
  {
    var s := new IndentOutputStream(indent);
    var k := 0;
    while k < |bs|
      invariant 0 <= k <= |bs|
      invariant s.out == Render(true, indent, bs[..k]) && s.indent == indent
      invariant s.indentNext == FlagAfter(true, bs[..k])
    {
      RenderSnoc(true, indent, bs[..k], bs[k]);
      assert bs[..k + 1] == bs[..k] + [bs[k]];
      s.Write(bs[k]);
      k := k + 1;
    }
    assert bs[..k] == bs;
    RenderIsIndentLines(indent, bs);
    written := s.out;
  }
}
