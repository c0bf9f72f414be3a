/** The parser's cursor over the lexer's tokens
    (src/java/me/pavlina/alco/lex/TokenStream.java). The lexer is modelled as
    the sequence of tokens it produced. */
module TokenStream {
  import opened Wrappers
  import opened Token

  /** The token `next` returns at position `pos`: the token there, or the
      NO_MORE token past the end. */
  function TokenAt(lexer: seq<Token>, pos: nat): (t: Token)
    ensures pos < |lexer| ==> t == lexer[pos]
    ensures pos >= |lexer| ==> t.kind == NoMore && t.value == ""
  {
    if pos >= |lexer| then EndToken else lexer[pos]
  }

  /** The position after `next`: one further, except at the end. */
  function Advance(lexer: seq<Token>, pos: nat): nat {
    if pos >= |lexer| then pos else pos + 1
  }

  class TokenStream {
    var lexer: seq<Token>
    var pos: nat

    ghost predicate Valid()
      reads this
    {
      pos <= |lexer|
    }

    constructor (tokens: seq<Token>)
      ensures Valid() && lexer == tokens && pos == 0
    {
      lexer := tokens;
      pos := 0;
    }

    method Next() returns (t: Token)
      requires Valid()
      modifies this
      ensures Valid() && lexer == old(lexer)
      ensures t == TokenAt(lexer, old(pos)) && pos == Advance(lexer, old(pos))
    {
      if pos >= |lexer| {
        return EndToken;
      }
      t := lexer[pos];
      pos := pos + 1;
    }

    /** What `next` would return, without moving. */
    function Peek(): (t: Token)
      reads this
      ensures t == TokenAt(lexer, pos)
    {
      if pos >= |lexer| then EndToken else lexer[pos]
    }

    /** The token before the one most recently returned, or null. */
    function Last(): (t: Option<Token>)
      reads this
      requires Valid()
      ensures t.None? <==> pos < 2
      ensures t.Some? ==> t.value == lexer[pos - 2]
    {
      if pos < 2 then None else Some(lexer[pos - 2])
    }

    /** Steps back over the token just read and overwrites its slot, so the
        next `next` returns `token`. At the start of the stream there is no
        slot before the cursor: the list's `set` throws
        IndexOutOfBoundsException, reported here as `ok` false. */
    method Putback(token: Token) returns (ok: bool)
      requires Valid()
      modifies this
      ensures ok <==> old(pos) > 0
      ensures Valid()
      ensures ok ==> pos == old(pos) - 1 && lexer == old(lexer)[pos := token] && Peek() == token
      ensures !ok ==> pos == old(pos) && lexer == old(lexer)
    {
      if pos == 0 {
        return false;
      }
      pos := pos - 1;
      lexer := lexer[pos := token];
      ok := true;
    }
  }

  /** Reading a token and putting it back leaves the stream as it was. */
  method NextThenPutback(tokens: seq<Token>) returns (before: Token, after: Token, same: bool)
    ensures before == after == TokenAt(tokens, 0)
    ensures same
  {
    var s := new TokenStream(tokens);
    before := s.Peek();
    var t := s.Next();
    var ok := s.Putback(t);
    after := s.Peek();
    same := s.lexer == tokens && s.pos == 0;
  }
}
