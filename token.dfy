/** Lexer tokens (src/java/me/pavlina/alco/lex/Token.java): a kind and the
    token's text. Line, column and the error annotator are not modelled. */
module Token {

  datatype Kind = NoMore | String | Word | Int | Real | Oper | Extra

  datatype Token = Token(kind: Kind, value: string)

  /** The token the stream returns past its end. */
  const EndToken := Token(NoMore, "")
}
