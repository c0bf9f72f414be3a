/** The reserved words of the Alpha language
    (src/java/me/pavlina/alco/language/Keywords.java). */
module Keywords {

  /** Every keyword except the type names. */
  const KeywordList: seq<string> := [
    "class", "method", "extern",
    "let", "const", "static", "threadlocal", "nomangle", "null",
    "record", "switch", "case", "default", "if", "else", "for",
    "foreach", "do", "while", "return", "as"]

  /** The special type names. */
  const TypeList: seq<string> := [
    "i8", "i16", "i32", "i64", "ssize", "int",
    "u8", "u16", "u32", "u64", "size", "unsigned",
    "float", "double", "var", "void"]

  /** The linear search over one of the lists. */
  function Listed(list: seq<string>, word: string): (b: bool)
    ensures b <==> word in list
  {
    if list == [] then false else list[0] == word || Listed(list[1..], word)
  }

  /** isKeyword(word, includeTypes): the word is a keyword, or a type name
      when type names are included. */
  function IsKeywordWith(word: string, includeTypes: bool): (b: bool)
    ensures b <==> word in KeywordList || (includeTypes && word in TypeList)
  {
    Listed(KeywordList, word) || (includeTypes && Listed(TypeList, word))
  }

  /** isKeyword(word): type names are not included. */
  function IsKeyword(word: string): (b: bool)
    ensures b <==> word in KeywordList
  {
    IsKeywordWith(word, false)
  }

  /** A keyword under the narrow test is one under the wide test too. */
  lemma NarrowImpliesWide(word: string)
    ensures IsKeyword(word) ==> IsKeywordWith(word, true)
  {
  }

  /** A type name is a keyword only when type names are included. */
  lemma TypesOnlyWhenIncluded(word: string)
    requires word in TypeList
    ensures IsKeywordWith(word, true)
    ensures !IsKeyword(word)
  {
    var i :| 0 <= i < |TypeList| && TypeList[i] == word;
    forall j | 0 <= j < |KeywordList|
      ensures KeywordList[j] != TypeList[i]
    {
    }
  }
}
