/** The key = value configuration file reader
    (src/java/me/pavlina/alco/compiler/ConfigFile.java). The file is modelled
    as the lines readLine returns; opening and reading it are not modelled. */
module ConfigFile {
  import opened Wrappers
  import opened Text

  /** The part of a line before its first '#'. */
  function Decomment(line: string): (r: string)
    ensures '#' !in r
    ensures |r| <= |line| && r == line[..|r|]
    ensures '#' in line ==> line[|r|] == '#'
    ensures '#' !in line ==> r == line
  {
    var idx := IndexOf(line, '#');
    if idx != -1 then line[..idx] else line
  }

  /** Key and value of a decommented line: none without an '='; otherwise
      the trimmed text either side of the first '='. */
  function SplitEntry(code: string): (r: Option<(string, string)>)
    ensures r.None? <==> '=' !in code
    ensures r.Some? ==> var k := IndexOf(code, '=');
                        0 <= k < |code| && code[k] == '=' && '=' !in code[..k]
                        && r.value == (JavaTrim(code[..k]), JavaTrim(code[k + 1..]))
  {
    var idx := IndexOf(code, '=');
    if idx == -1 then None
    else Some((JavaTrim(code[..idx]), JavaTrim(code[idx + 1..])))
  }

  /** The entry one line contributes. */
  function ParseLine(line: string): Option<(string, string)> {
    SplitEntry(Decomment(line))
  }

  /** The map after one line's entry, if any, is put into it. */
  function Put(paths: map<string, string>, entry: Option<(string, string)>): map<string, string> {
    if entry.None? then paths else paths[entry.value.0 := entry.value.1]
  }

  /** The map after the entries are put in order. */
  function PutAll(paths: map<string, string>, entries: seq<Option<(string, string)>>): map<string, string>
    decreases |entries|
  {
    if entries == [] then paths else Put(PutAll(paths, entries[..|entries| - 1]), entries[|entries| - 1])
  }

  /** The entries of the lines, in order. */
  function Entries(lines: seq<string>): (es: seq<Option<(string, string)>>)
    ensures |es| == |lines|
  {
    if lines == [] then [] else Entries(lines[..|lines| - 1]) + [ParseLine(lines[|lines| - 1])]
  }

  lemma {:induction false} EntriesAt(lines: seq<string>, i: nat)
    requires i < |lines|
    ensures Entries(lines)[i] == ParseLine(lines[i])
  {
    if i < |lines| - 1 {
      EntriesAt(lines[..|lines| - 1], i);
    }
  }

  /** The map after reading the lines into `paths`. */
  function ReadAll(paths: map<string, string>, lines: seq<string>): map<string, string> {
    PutAll(paths, Entries(lines))
  }

  /** One pass of the _read loop: decomment the line, split it at the first
      '=', trim both sides and put the entry. */
  method ReadLine(paths: map<string, string>, line: string) returns (result: map<string, string>)
    ensures result == Put(paths, ParseLine(line))
  {
    var code := line;
    var idx := IndexOf(code, '#');
    if idx != -1 {
      code := code[..idx];
    }
    assert code == Decomment(line);
    ghost var entry := SplitEntry(code);
    result := paths;
    idx := IndexOf(code, '=');
    if idx != -1 {
      var key := JavaTrim(code[..idx]);
      var val := JavaTrim(code[idx + 1..]);
      result := result[key := val];
      assert entry == Some((key, val));
      PutSome(paths, key, val);
    } else {
      assert entry == None;
    }
  }

  /** The _read loop. */
  method Read(lines: seq<string>, paths: map<string, string>) returns (result: map<string, string>)
    ensures result == ReadAll(paths, lines)
  {
    result := paths;
    var i := 0;
    while i < |lines|
      invariant 0 <= i <= |lines|
      invariant result == ReadAll(paths, lines[..i])
    {
      ReadAllSnoc(paths, lines, i);
      result := ReadLine(result, lines[i]);
      i := i + 1;
    }
    assert lines[..i] == lines;
  }

  lemma ReadAllSnoc(paths: map<string, string>, lines: seq<string>, i: nat)
    requires i < |lines|
    ensures ReadAll(paths, lines[..i + 1]) == Put(ReadAll(paths, lines[..i]), ParseLine(lines[i]))
  {
    assert lines[..i + 1][..i] == lines[..i];
    var entries := Entries(lines[..i + 1]);
    assert entries[..i] == Entries(lines[..i]);
  }

  lemma PutSome(paths: map<string, string>, key: string, value: string)
    ensures Put(paths, Some((key, value))) == paths[key := value]
  {
  }

  predicate SetsKey(entry: Option<(string, string)>, key: string) {
    entry.Some? && entry.value.0 == key
  }

  /** A key that some entry sets ends up with the value of the last entry
      that sets it. */
  lemma {:induction false} LastEntryWins(paths: map<string, string>, entries: seq<Option<(string, string)>>, key: string, i: nat)
    requires i < |entries| && SetsKey(entries[i], key)
    requires forall j :: i < j < |entries| ==> !SetsKey(entries[j], key)
    ensures key in PutAll(paths, entries) && PutAll(paths, entries)[key] == entries[i].value.1
    decreases |entries|
  {
    var n := |entries|;
    if i < n - 1 {
      var prefix := entries[..n - 1];
      assert !SetsKey(entries[n - 1], key);
      LastEntryWins(paths, prefix, key, i);
    }
  }

  /** A key that no entry sets keeps the value it had before. */
  lemma {:induction false} UnsetKeyKept(paths: map<string, string>, entries: seq<Option<(string, string)>>, key: string)
    requires forall j :: 0 <= j < |entries| ==> !SetsKey(entries[j], key)
    ensures key in PutAll(paths, entries) <==> key in paths
    ensures key in paths ==> PutAll(paths, entries)[key] == paths[key]
    decreases |entries|
  {
    if entries != [] {
      assert !SetsKey(entries[|entries| - 1], key);
      UnsetKeyKept(paths, entries[..|entries| - 1], key);
    }
  }

  /** A later line overrides an earlier one: the value in the map comes from
      the last line that sets the key. */
  lemma LastLineWins(paths: map<string, string>, lines: seq<string>, key: string, i: nat)
    requires i < |lines| && SetsKey(ParseLine(lines[i]), key)
    requires forall j :: i < j < |lines| ==> !SetsKey(ParseLine(lines[j]), key)
    ensures key in ReadAll(paths, lines)
    ensures ReadAll(paths, lines)[key] == ParseLine(lines[i]).value.1
  {
    EntriesAt(lines, i);
    forall j | i < j < |lines|
      ensures !SetsKey(Entries(lines)[j], key)
    {
      EntriesAt(lines, j);
    }
    LastEntryWins(paths, Entries(lines), key, i);
  }

  /** A comment hides an '=' after it. */
  lemma CommentHidesEntry()
    ensures ParseLine("# a = b") == None
  {
    assert IndexOf("# a = b", '#') == 0;
  }

  /** Text before a comment still forms an entry; key and value lose their
      blanks. */
  lemma EntryBeforeComment()
    ensures ParseLine("a = b # c") == Some(("a", "b"))
  {
    assert Decomment("a = b # c") == "a = b " by {
      assert IndexOf("a = b # c", '#') == 6;
    }
    TrimmedEntry();
  }

  lemma TrimmedEntry()
    ensures SplitEntry("a = b ") == Some(("a", "b"))
  {
    var code := "a = b ";
    assert IndexOf(code, '=') == 2;
    assert code[..2] == "a ";
    assert code[3..] == " b ";
    TrimKey();
    TrimValue();
  }

  lemma TrimKey()
    ensures JavaTrim("a ") == "a"
  {
    assert JavaTrimStart("a ") == "a ";
    assert "a "[..1] == "a";
    assert JavaTrimEnd("a") == "a";
  }

  lemma TrimValue()
    ensures JavaTrim(" b ") == "b"
  {
    assert " b "[1..] == "b ";
    assert JavaTrimStart("b ") == "b ";
    assert "b "[..1] == "b";
    assert JavaTrimEnd("b") == "b";
  }
}
