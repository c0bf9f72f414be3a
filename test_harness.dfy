/** The test runner (test.py): each fixture under test/ starts with a header
    of "// TAG rest" lines that says how to compile it, which files to
    delete afterwards, what to run and what every command must print and
    return. The runner compares the results exactly and stops the whole
    suite at the first failure.

    Commands are run by an oracle that sees and may change the set of files
    on disk; json.loads is an oracle too. */
module TestHarness {
  import opened Wrappers
  import opened Text

  /** What a header asks for, with the defaults run_alpha_test starts from. */
  datatype TestSpec = TestSpec(
    name: string, args: seq<string>, delete: seq<string>, run: string,
    cout: string, cerr: string, cexit: int,
    pout: string, perr: string, pexit: int)

  const Defaults := TestSpec("", [], [], "", "", "", 0, "", "", 0)

  /** A finished process: its exit code and everything it wrote. */
  datatype Process = Process(exit: int, out: string, err: string)

  /** subprocess.Popen(argv).wait(): the process result and the files left
      on disk afterwards. */
  type Exec = (set<string>, seq<string>) -> (Process, set<string>)

  /** json.loads on a COMPILE argument list; None where it would raise. */
  type Json = string -> Option<seq<string>>

  /** How a fixture ends: it passes, fails (and the suite exits with
      status 1), or an exception escapes the runner. */
  datatype Verdict = Passed | Failed(report: string) | Crashed(error: string)

  // ---------------------------------------------------------------------
  // The header

  /** str.partition(" "): the text before the first space and the text
      after it, or the whole line and "" when there is no space. */
  function Partition(line: string): (r: (string, string))
    ensures ' ' in line ==> line == r.0 + " " + r.1 && ' ' !in r.0
    ensures ' ' !in line ==> r == (line, "")
  {
    var k := IndexOf(line, ' ');
    if k == -1 then (line, "")
    else
      assert line == line[..k] + " " + line[k + 1..];
      (line[..k], line[k + 1..])
  }

  /** Python's int() on a string: surrounding whitespace, an optional sign
      and one or more decimal digits; None where it raises ValueError. */
  function PyInt(s: string): Option<int> {
    ParseSigned(PyStrip(s))
  }

  /** int() on text already stripped. */
  function ParseSigned(t: string): Option<int> {
    var signed := t != [] && (t[0] == '-' || t[0] == '+');
    var digits := if signed then t[1..] else t;
    if digits == [] || !AllDigits(digits) then None
    else if signed && t[0] == '-' then Some(-(DigitsValue(digits) as int))
    else Some(DigitsValue(digits))
  }

  function IntError(s: string): string { "ValueError: invalid literal for int(): " + s }

  function JsonError(s: string): string { "ValueError: not a JSON list: " + s }

  /** The directive of a header line: what follows "// " once the line is
      stripped, or None for a line that ends the header. */
  function Directive(line: string): Option<string> {
    var t := PyStrip(line);
    if StartsWith(t, "// ") then Some(t[3..]) else None
  }

  /** The tags run_alpha_test knows. */
  datatype Tag = Name | Compile | Delete | Run | COut | CErr | CExit | POut | PErr | PExit | Unknown

  /** How each tag is spelled in a header line. */
  function Spelling(tag: Tag): string {
    match tag
    case Name => "NAME"
    case Compile => "COMPILE"
    case Delete => "DELETE"
    case Run => "RUN"
    case COut => "COUT"
    case CErr => "CERR"
    case CExit => "CEXIT"
    case POut => "POUT"
    case PErr => "PERR"
    case PExit => "PEXIT"
    case Unknown => ""
  }

  /** Every known tag, spelled out, reads as itself. */
  lemma KnownTag(tag: Tag)
    ensures tag != Unknown ==> TagOf(Spelling(tag)) == tag
    ensures tag == Unknown ==> TagOf(Spelling(tag)) == Unknown
    ensures ' ' !in Spelling(tag)
  {
  }

  function TagOf(tag: string): Tag {
    if tag == "NAME" then Name
    else if tag == "COMPILE" then Compile
    else if tag == "DELETE" then Delete
    else if tag == "RUN" then Run
    else if tag == "COUT" then COut
    else if tag == "CERR" then CErr
    else if tag == "CEXIT" then CExit
    else if tag == "POUT" then POut
    else if tag == "PERR" then PErr
    else if tag == "PEXIT" then PExit
    else Unknown
  }

  /** One directive applied to the spec read so far: NAME, COMPILE, RUN,
      CEXIT and PEXIT replace their value, DELETE adds a path, COUT, CERR,
      POUT and PERR add a line of expected output, and any other tag is
      ignored. */
  function Apply(spec: TestSpec, d: string, json: Json): Result<TestSpec, string> {
    var (tag, rest) := Partition(d);
    ApplyTag(spec, TagOf(tag), rest, json)
  }

  /** A directive by its tag. Only COMPILE, with arguments json.loads
      rejects, and CEXIT and PEXIT, with a number int() rejects, raise; an
      unknown tag changes nothing. */
  function ApplyTag(spec: TestSpec, tag: Tag, rest: string, json: Json): (r: Result<TestSpec, string>)
    ensures r.Err? <==> (tag == Compile && json(rest).None?) || (tag in {CExit, PExit} && PyInt(rest).None?)
    ensures tag == Unknown ==> r == Ok(spec)
  {
    match tag
    case Name => Ok(spec.(name := rest))
    case Compile =>
      (match json(rest)
       case Some(a) => Ok(spec.(args := a))
       case None => Err(JsonError(rest)))
    case Delete => Ok(spec.(delete := spec.delete + [rest]))
    case Run => Ok(spec.(run := rest))
    case COut => Ok(spec.(cout := spec.cout + rest + "\n"))
    case CErr => Ok(spec.(cerr := spec.cerr + rest + "\n"))
    case CExit =>
      (match PyInt(rest)
       case Some(v) => Ok(spec.(cexit := v))
       case None => Err(IntError(rest)))
    case POut => Ok(spec.(pout := spec.pout + rest + "\n"))
    case PErr => Ok(spec.(perr := spec.perr + rest + "\n"))
    case PExit =>
      (match PyInt(rest)
       case Some(v) => Ok(spec.(pexit := v))
       case None => Err(IntError(rest)))
    case Unknown => Ok(spec)
  }

  /** The number of header lines. */
  function HeaderLen(lines: seq<string>): (n: nat)
    ensures n <= |lines|
  {
    if lines == [] || Directive(lines[0]).None? then 0
    else 1 + HeaderLen(lines[1..])
  }

  /** Every line before the end of the header is a directive, and the line
      at it, if any, is not. */
  lemma {:induction false} HeaderLenDirectives(lines: seq<string>)
    ensures forall i :: 0 <= i < HeaderLen(lines) ==> Directive(lines[i]).Some?
    ensures HeaderLen(lines) < |lines| ==> Directive(lines[HeaderLen(lines)]).None?
  {
    if lines != [] && Directive(lines[0]).Some? {
      var rest := lines[1..];
      HeaderLenDirectives(rest);
      assert HeaderLen(lines) == 1 + HeaderLen(rest);
      forall i | 0 <= i < HeaderLen(lines)
        ensures Directive(lines[i]).Some?
      {
        if i > 0 {
          assert lines[i] == rest[i - 1];
        }
      }
      if HeaderLen(lines) < |lines| {
        assert lines[HeaderLen(lines)] == rest[HeaderLen(rest)];
      }
    }
  }

  /** The directives of the header, in order. */
  function Directives(lines: seq<string>): (ds: seq<string>)
    ensures |ds| == HeaderLen(lines)
  {
    HeaderLenDirectives(lines);
    seq(HeaderLen(lines), i requires 0 <= i < HeaderLen(lines) => Directive(lines[i]).value)
  }

  /** The directives applied in order to the defaults; the first one that
      raises ends the reading. */
  function ApplyAll(ds: seq<string>, json: Json): Result<TestSpec, string> {
    if ds == [] then Ok(Defaults)
    else
      var spec :- ApplyAll(ds[..|ds| - 1], json);
      Apply(spec, ds[|ds| - 1], json)
  }

  /** The header loop of run_alpha_test. */
  function ReadHeader(lines: seq<string>, json: Json): Result<TestSpec, string> {
    ApplyAll(Directives(lines), json)
  }

  /** The header loop as written: line by line, stopping at the first line
      that is not a directive. */
  method ParseHeader(lines: seq<string>, json: Json) returns (r: Result<TestSpec, string>)
    ensures r == ReadHeader(lines, json)
  {
    var spec := Defaults;
    var k := 0;
    ghost var n := HeaderLen(lines);
    ghost var ds := Directives(lines);
    HeaderLenDirectives(lines);
    while k < |lines|
      invariant k <= n
      invariant ApplyAll(ds[..k], json) == Ok(spec)
    {
      var line := PyStrip(lines[k]);
      if !StartsWith(line, "// ") {
        assert Directive(lines[k]).None?;
        break;
      }
      assert Directive(lines[k]) == Some(line[3..]);
      assert k < n;
      assert ds[k] == line[3..];
      TakeOneMore(ds, k);
      ApplyLast(ds[..k], ds[k], json);
      var next := Apply(spec, line[3..], json);
      if next.Err? {
        PrefixFails(ds, k + 1, json);
        return next;
      }
      spec := next.value;
      k := k + 1;
    }
    assert k == n;
    assert ds[..k] == ds;
    r := Ok(spec);
  }

  lemma TakeOneMore(ds: seq<string>, k: nat)
    requires k < |ds|
    ensures ds[..k + 1] == ds[..k] + [ds[k]]
  {
  }

  /** Once a prefix of the directives raises, the whole header raises the
      same error. */
  lemma {:induction false} PrefixFails(ds: seq<string>, k: nat, json: Json)
    requires k <= |ds| && ApplyAll(ds[..k], json).Err?
    ensures ApplyAll(ds, json) == ApplyAll(ds[..k], json)
    decreases |ds|
  {
    if k < |ds| {
      assert ds[..|ds| - 1][..k] == ds[..k];
      PrefixFails(ds[..|ds| - 1], k, json);
    } else {
      assert ds[..k] == ds;
    }
  }

  /** Nothing after the first line that is not a directive is read. */
  lemma {:induction false} HeaderStops(lines: seq<string>, tail: seq<string>, json: Json)
    requires HeaderLen(lines) < |lines|
    ensures ReadHeader(lines + tail, json) == ReadHeader(lines, json)
  {
    HeaderLenExtends(lines, tail);
    assert Directives(lines + tail) == Directives(lines) by {
      forall i | 0 <= i < HeaderLen(lines) ensures Directives(lines + tail)[i] == Directives(lines)[i] {
        assert (lines + tail)[i] == lines[i];
      }
    }
  }

  lemma {:induction false} HeaderLenExtends(lines: seq<string>, tail: seq<string>)
    requires HeaderLen(lines) < |lines|
    ensures HeaderLen(lines + tail) == HeaderLen(lines)
  {
    if Directive(lines[0]).Some? {
      var rest := lines[1..];
      assert HeaderLen(lines + tail) == 1 + HeaderLen(rest + tail) by {
        assert (lines + tail)[0] == lines[0];
        assert (lines + tail)[1..] == rest + tail;
      }
      assert HeaderLen(lines) == 1 + HeaderLen(rest);
      assert HeaderLen(rest + tail) == HeaderLen(rest) by {
        HeaderLenExtends(rest, tail);
      }
    } else {
      assert HeaderLen(lines + tail) == 0 by {
        assert (lines + tail)[0] == lines[0];
      }
    }
  }

  /** A fixture whose first line is not a directive runs with the defaults:
      exit codes 0, no expected output, nothing to run or delete. */
  lemma NoHeaderDefaults(lines: seq<string>, json: Json)
    requires lines == [] || Directive(lines[0]).None?
    ensures ReadHeader(lines, json) == Ok(Defaults)
    ensures Defaults.cexit == 0 && Defaults.pexit == 0 && Defaults.run == ""
    ensures Defaults.cout == "" && Defaults.cerr == "" && Defaults.pout == "" && Defaults.perr == ""
  {
    assert Directives(lines) == [];
  }

  /** A directive's tag is everything before the first space. */
  lemma TagSplit(tag: string, rest: string)
    requires ' ' !in tag
    ensures Partition(tag + " " + rest) == (tag, rest)
  {
    var line := tag + " " + rest;
    assert line[|tag|] == ' ';
    assert forall i :: 0 <= i < |tag| ==> line[i] == tag[i];
    IndexOfFromFirst(line, ' ', 0, |tag|);
    assert line[..|tag|] == tag;
    assert line[|tag| + 1..] == rest;
  }

  /** Reading one more directive applies it to the spec read so far. */
  lemma ApplyLast(ds: seq<string>, d: string, json: Json)
    requires ApplyAll(ds, json).Ok?
    ensures ApplyAll(ds + [d], json) == Apply(ApplyAll(ds, json).value, d, json)
  {
    assert (ds + [d])[..|ds|] == ds;
  }

  /** A directive "TAG rest" read after others acts by its tag on the rest. */
  lemma ReadNext(ds: seq<string>, tag: string, rest: string, json: Json)
    requires ApplyAll(ds, json).Ok? && ' ' !in tag
    ensures ApplyAll(ds + [tag + " " + rest], json) == ApplyTag(ApplyAll(ds, json).value, TagOf(tag), rest, json)
  {
    TagSplit(tag, rest);
    ApplyLast(ds, tag + " " + rest, json);
  }

  /** The output directives add a line each: "COUT a" then "COUT b" expect
      "a\nb\n" on the compiler's standard output, and likewise for CERR,
      POUT and PERR. */
  lemma OutputLinesAppend(ds: seq<string>, tag: Tag, rest: string, json: Json)
    requires ApplyAll(ds, json).Ok?
    requires tag == COut || tag == CErr || tag == POut || tag == PErr
    ensures var s := ApplyAll(ds, json).value;
            var r := ApplyAll(ds + [Spelling(tag) + " " + rest], json);
            r == Ok(if tag == COut then s.(cout := s.cout + rest + "\n")
                    else if tag == CErr then s.(cerr := s.cerr + rest + "\n")
                    else if tag == POut then s.(pout := s.pout + rest + "\n")
                    else s.(perr := s.perr + rest + "\n"))
  {
    var spec := ApplyAll(ds, json).value;
    assert ApplyAll(ds + [Spelling(tag) + " " + rest], json) == ApplyTag(spec, tag, rest, json) by {
      KnownTag(tag);
      assert ' ' !in Spelling(tag);
      ReadNext(ds, Spelling(tag), rest, json);
    }
  }

  /** Two output lines in a row, from the defaults. */
  lemma TwoOutputLines(a: string, b: string, json: Json)
    ensures ApplyAll(["COUT " + a, "COUT " + b], json) == Ok(Defaults.(cout := a + "\n" + b + "\n"))
  {
    var one := ["COUT " + a];
    assert "" + a == a;
    var first := Defaults.(cout := a + "\n");
    assert Spelling(COut) == "COUT";
    assert Spelling(COut) + " " + a == "COUT " + a;
    assert Spelling(COut) + " " + b == "COUT " + b;
    assert ApplyAll(one, json) == Ok(first) by {
      var none: seq<string> := [];
      assert none + [Spelling(COut) + " " + a] == one;
      OutputLinesAppend(none, COut, a, json);
    }
    assert ApplyAll(one + ["COUT " + b], json) == Ok(first.(cout := first.cout + b + "\n")) by {
      OutputLinesAppend(one, COut, b, json);
    }
    assert one + ["COUT " + b] == ["COUT " + a, "COUT " + b];
  }

  /** DELETE adds to the list of paths to delete. */
  lemma DeleteAdds(ds: seq<string>, path: string, json: Json)
    requires ApplyAll(ds, json).Ok?
    ensures var s := ApplyAll(ds, json).value;
            ApplyAll(ds + ["DELETE " + path], json) == Ok(s.(delete := s.delete + [path]))
  {
    KnownTag(Delete);
    assert "DELETE" + " " + path == "DELETE " + path;
    ReadNext(ds, "DELETE", path, json);
  }

  /** RUN replaces the program to run. */
  lemma RunReplaced(ds: seq<string>, run: string, json: Json)
    requires ApplyAll(ds, json).Ok?
    ensures ApplyAll(ds + ["RUN " + run], json) == Ok(ApplyAll(ds, json).value.(run := run))
  {
    assert Spelling(Run) + " " + run == "RUN " + run;
    ReadKnown(ds, Run, run, json);
  }

  /** A directive with a known tag, read after others, acts by that tag. */
  lemma ReadKnown(ds: seq<string>, tag: Tag, rest: string, json: Json)
    requires ApplyAll(ds, json).Ok? && tag != Unknown
    ensures ApplyAll(ds + [Spelling(tag) + " " + rest], json) == ApplyTag(ApplyAll(ds, json).value, tag, rest, json)
  {
    KnownTag(tag);
    ReadNext(ds, Spelling(tag), rest, json);
  }

  /** CEXIT and PEXIT followed by a number written with "%d" set the
      expected exit code to that number. */
  lemma ExitApplied(spec: TestSpec, tag: Tag, n: int, json: Json)
    requires tag == CExit || tag == PExit
    ensures ApplyTag(spec, tag, IntToString(n), json)
            == Ok(if tag == CExit then spec.(cexit := n) else spec.(pexit := n))
  {
    PyIntRoundTrip(n);
  }

  /** CEXIT and PEXIT followed by anything int() rejects raise. */
  lemma ExitRejected(spec: TestSpec, tag: Tag, t: string, json: Json)
    requires tag == CExit || tag == PExit
    requires PyInt(t).None?
    ensures ApplyTag(spec, tag, t, json) == Err(IntError(t))
  {
  }

  predicate SetsName(d: string) { TagOf(Partition(d).0) == Name }

  /** The last NAME directive gives the test its name, whatever follows. */
  lemma {:induction false} LastNameWins(ds: seq<string>, i: nat, json: Json)
    requires ApplyAll(ds, json).Ok?
    requires i < |ds| && SetsName(ds[i])
    requires forall j :: i < j < |ds| ==> !SetsName(ds[j])
    ensures ApplyAll(ds, json).value.name == Partition(ds[i]).1
    decreases |ds|
  {
    var init := ds[..|ds| - 1];
    var last := ds[|ds| - 1];
    if i < |ds| - 1 {
      forall j | i < j < |init| ensures !SetsName(init[j]) {
        assert init[j] == ds[j];
      }
      LastNameWins(init, i, json);
      ApplyKeepsName(ApplyAll(init, json).value, last, json);
    }
  }

  /** A directive other than NAME leaves the name alone. */
  lemma ApplyKeepsName(spec: TestSpec, d: string, json: Json)
    requires !SetsName(d) && Apply(spec, d, json).Ok?
    ensures Apply(spec, d, json).value.name == spec.name
  {
    var (tag, rest) := Partition(d);
    TagKeepsName(spec, TagOf(tag), rest, json);
  }

  lemma TagKeepsName(spec: TestSpec, tag: Tag, rest: string, json: Json)
    requires tag != Name && ApplyTag(spec, tag, rest, json).Ok?
    ensures ApplyTag(spec, tag, rest, json).value.name == spec.name
  {
  }

  /** A number printed with "%d" reads back with int(). */
  lemma PyIntRoundTrip(n: int)
    ensures PyInt(IntToString(n)) == Some(n)
  {
    var t := IntToString(n);
    SignedRoundTrip(n);
    NoStrip(t);
  }

  lemma SignedRoundTrip(n: int)
    ensures IntToString(n) != []
    ensures !IsPyWhitespace(IntToString(n)[0]) && !IsPyWhitespace(IntToString(n)[|IntToString(n)| - 1])
    ensures ParseSigned(IntToString(n)) == Some(n)
  {
    var m: nat := if n < 0 then -n else n;
    var d := NatToString(m);
    NatToStringDigits(m);
    assert IsDigit(d[0]) && IsDigit(d[|d| - 1]);
    var t := IntToString(n);
    if n < 0 {
      assert t == "-" + d;
      assert t[1..] == d;
    } else {
      assert t == d;
    }
  }

  /** Text that starts and ends with something other than whitespace is
      left alone by strip(). */
  lemma NoStrip(t: string)
    requires t != [] && !IsPyWhitespace(t[0]) && !IsPyWhitespace(t[|t| - 1])
    ensures PyStrip(t) == t
  {
    assert PyStripStart(t) == t;
  }

  // ---------------------------------------------------------------------
  // Judging one fixture

  const StdCommand: seq<string> := ["./alco", "-path=runtime-32:Doxyfile", "-path=runtime-64:Doxyfile", "test/helpers.o"]

  /** The compiler command line for a fixture. */
  function CompileCommand(filename: string, args: seq<string>): seq<string> {
    StdCommand + [filename] + args
  }

  function ExitReport(p: Process, wanted: int): string {
    "GOT EXIT CODE " + IntToString(p.exit) + " (WANTED " + IntToString(wanted) + ")\n" + p.out + p.err
  }

  function OutputReport(p: Process): string {
    "INCORRECT OUTPUT\n" + p.out + p.err
  }

  /** The comparison of a process with what the header expects: a report
      when the exit code differs, else when either stream differs, else
      None. */
  function Mismatch(p: Process, exit: int, out: string, err: string): (r: Option<string>)
    ensures r.None? <==> p.exit == exit && p.out == out && p.err == err
    ensures r.Some? && p.exit != exit ==> r.value == ExitReport(p, exit)
  {
    if p.exit != exit then Some(ExitReport(p, exit))
    else if p.out != out || p.err != err then Some(OutputReport(p))
    else None
  }

  /** The cleanup before a failure: each path is unlinked and a missing one
      is passed over. */
  function RemoveQuietly(files: set<string>, paths: seq<string>): set<string>
    decreases |paths|
  {
    if paths == [] then files else RemoveQuietly(files - {paths[0]}, paths[1..])
  }

  /** The cleanup after a pass: each path is unlinked and the first missing
      one raises. */
  function RemoveStrictly(files: set<string>, paths: seq<string>): (set<string>, Option<string>)
    decreases |paths|
  {
    if paths == [] then (files, None)
    else if paths[0] !in files then (files, Some("FileNotFoundError: " + paths[0]))
    else RemoveStrictly(files - {paths[0]}, paths[1..])
  }

  /** The end of a fixture that matched everything. */
  function Finish(files: set<string>, delete: seq<string>): (Verdict, set<string>) {
    var (left, err) := RemoveStrictly(files, delete);
    (if err.Some? then Crashed(err.value) else Passed, left)
  }

  /** run_alpha_test after the header: compile, compare, then run and
      compare when there is something to run, then delete. */
  function Judge(spec: TestSpec, filename: string, files: set<string>, exec: Exec): (Verdict, set<string>) {
    var (c, afterCompile) := exec(files, CompileCommand(filename, spec.args));
    match Mismatch(c, spec.cexit, spec.cout, spec.cerr)
    case Some(report) => (Failed(report), RemoveQuietly(afterCompile, spec.delete))
    case None =>
      if spec.run == "" then Finish(afterCompile, spec.delete)
      else
        var (p, afterRun) := exec(afterCompile, [spec.run]);
        match Mismatch(p, spec.pexit, spec.pout, spec.perr)
        case Some(report) => (Failed(report), RemoveQuietly(afterRun, spec.delete))
        case None => Finish(afterRun, spec.delete)
  }

  /** run_alpha_test on the lines of a fixture. A header that raises ends
      the test before anything runs, leaving the files as they were. */
  function RunTest(files: set<string>, filename: string, lines: seq<string>, json: Json, exec: Exec): (r: (Verdict, set<string>))
    ensures ReadHeader(lines, json).Err? ==> r == (Crashed(ReadHeader(lines, json).error), files)
  {
    match ReadHeader(lines, json)
    case Err(e) => (Crashed(e), files)
    case Ok(spec) => Judge(spec, filename, files, exec)
  }

  /** The quiet cleanup removes exactly the listed paths. */
  lemma {:induction false} RemoveQuietlyRemoves(files: set<string>, paths: seq<string>)
    ensures RemoveQuietly(files, paths) == files - set p | p in paths
    decreases |paths|
  {
    if paths != [] {
      RemoveQuietlyRemoves(files - {paths[0]}, paths[1..]);
      assert (set p | p in paths) == {paths[0]} + set p | p in paths[1..];
    }
  }

  predicate Distinct(paths: seq<string>) {
    forall i, j :: 0 <= i < j < |paths| ==> paths[i] != paths[j]
  }

  /** The strict cleanup succeeds exactly when every path is there and
      none is listed twice, and then removes exactly the listed paths; a
      path listed twice makes a passing fixture crash. */
  lemma {:induction false} RemoveStrictlyRule(files: set<string>, paths: seq<string>)
    ensures RemoveStrictly(files, paths).1.None? <==>
            Distinct(paths) && forall p :: p in paths ==> p in files
    ensures RemoveStrictly(files, paths).1.None? ==>
            RemoveStrictly(files, paths).0 == files - set p | p in paths
    decreases |paths|
  {
    if paths != [] {
      var rest := paths[1..];
      RemoveStrictlyRule(files - {paths[0]}, rest);
      assert (set p | p in paths) == {paths[0]} + set p | p in rest;
      assert forall i :: 0 < i < |paths| ==> paths[i] == rest[i - 1];
      assert forall p :: p in paths ==> p == paths[0] || p in rest;
      if paths[0] in files && Distinct(rest) && (forall p :: p in rest ==> p in files - {paths[0]}) {
        forall i, j | 0 <= i < j < |paths| ensures paths[i] != paths[j] {
          assert paths[j] == rest[j - 1];
          if i > 0 {
            assert paths[i] == rest[i - 1];
          }
        }
      }
      assert forall p :: p in rest ==> p in paths;
      if Distinct(paths) && (forall p :: p in paths ==> p in files) {
        assert Distinct(rest) by {
          forall i, j | 0 <= i < j < |rest| ensures rest[i] != rest[j] {
            assert rest[i] == paths[i + 1] && rest[j] == paths[j + 1];
          }
        }
        assert forall p :: p in rest ==> p != paths[0] by {
          forall p | p in rest ensures p != paths[0] {
            var j :| 0 <= j < |rest| && rest[j] == p;
            assert paths[j + 1] == p;
          }
        }
      }
    }
  }

  /** A mismatch fails the fixture after deleting every DELETE path; a
      fixture that runs to the end without a mismatch either passes with
      the paths deleted or crashes on one it cannot delete. */
  lemma JudgeCleansUp(spec: TestSpec, filename: string, files: set<string>, exec: Exec)
    ensures var (v, left) := Judge(spec, filename, files, exec);
            (v.Failed? || v.Passed?) ==> forall p :: p in spec.delete ==> p !in left
  {
    var (c, f1) := exec(files, CompileCommand(filename, spec.args));
    RemoveQuietlyRemoves(f1, spec.delete);
    RemoveStrictlyRule(f1, spec.delete);
    if spec.run != "" {
      var (p, f2) := exec(f1, [spec.run]);
      RemoveQuietlyRemoves(f2, spec.delete);
      RemoveStrictlyRule(f2, spec.delete);
    }
  }

  /** A fixture passes exactly when the compiler's exit code and both
      streams match, the program's do too when there is one to run, and
      every DELETE path can be deleted. */
  lemma PassRule(spec: TestSpec, filename: string, files: set<string>, exec: Exec)
    ensures var (c, f1) := exec(files, CompileCommand(filename, spec.args));
            var (p, f2) := exec(f1, [spec.run]);
            var after := if spec.run == "" then f1 else f2;
            Judge(spec, filename, files, exec).0.Passed? <==>
            c.exit == spec.cexit && c.out == spec.cout && c.err == spec.cerr &&
            (spec.run != "" ==> p.exit == spec.pexit && p.out == spec.pout && p.err == spec.perr) &&
            RemoveStrictly(after, spec.delete).1.None?
  {
  }

  /** Without a RUN directive nothing but the compiler is run: the verdict
      is the same whatever running another command would do. */
  lemma NoRunWithoutRun(spec: TestSpec, filename: string, files: set<string>, exec1: Exec, exec2: Exec)
    requires spec.run == ""
    requires exec1(files, CompileCommand(filename, spec.args)) == exec2(files, CompileCommand(filename, spec.args))
    ensures Judge(spec, filename, files, exec1) == Judge(spec, filename, files, exec2)
  {
  }

  // ---------------------------------------------------------------------
  // The order of fixtures

  /** Python's string order: by code point, a prefix first. */
  predicate Below(a: string, b: string) {
    a == [] || (b != [] && (a[0] < b[0] || (a[0] == b[0] && Below(a[1..], b[1..]))))
  }

  lemma {:induction false} BelowTotal(a: string, b: string)
    ensures Below(a, b) || Below(b, a)
  {
    if a != [] && b != [] && a[0] == b[0] {
      BelowTotal(a[1..], b[1..]);
    }
  }

  lemma {:induction false} BelowTrans(a: string, b: string, c: string)
    requires Below(a, b) && Below(b, c)
    ensures Below(a, c)
  {
    if a != [] && b != [] && c != [] && a[0] == b[0] && b[0] == c[0] {
      BelowTrans(a[1..], b[1..], c[1..]);
    }
  }

  predicate Sorted(s: seq<string>) {
    forall i, j :: 0 <= i < j < |s| ==> Below(s[i], s[j])
  }

  function Insert(x: string, s: seq<string>): seq<string> {
    if s == [] then [x]
    else if Below(x, s[0]) then [x] + s
    else [s[0]] + Insert(x, s[1..])
  }

  /** sorted(): the names in Python's string order. */
  function Sort(s: seq<string>): seq<string> {
    if s == [] then [] else Insert(s[0], Sort(s[1..]))
  }

  /** A name below the head of a sorted list and the list form a sorted
      list. */
  lemma SortedCons(y: string, r: seq<string>)
    requires Sorted(r) && forall k :: 0 <= k < |r| ==> Below(y, r[k])
    ensures Sorted([y] + r)
  {
    var l := [y] + r;
    forall i, j | 0 <= i < j < |l| ensures Below(l[i], l[j]) {
      assert l[j] == r[j - 1];
      if i > 0 {
        assert l[i] == r[i - 1];
      }
    }
  }

  lemma {:induction false} InsertElements(x: string, s: seq<string>)
    ensures multiset(Insert(x, s)) == multiset(s) + multiset{x}
  {
    if s != [] && !Below(x, s[0]) {
      InsertElements(x, s[1..]);
      assert s == [s[0]] + s[1..];
    }
  }

  lemma {:induction false} InsertSorted(x: string, s: seq<string>)
    requires Sorted(s)
    ensures Sorted(Insert(x, s))
  {
    if s == [] {
    } else if Below(x, s[0]) {
      forall k | 0 <= k < |s| ensures Below(x, s[k]) {
        if k > 0 {
          BelowTrans(x, s[0], s[k]);
        }
      }
      SortedCons(x, s);
    } else {
      var tail := s[1..];
      assert Sorted(tail) by {
        forall i, j | 0 <= i < j < |tail| ensures Below(tail[i], tail[j]) {
          assert tail[i] == s[i + 1] && tail[j] == s[j + 1];
        }
      }
      InsertSorted(x, tail);
      InsertElements(x, tail);
      BelowTotal(x, s[0]);
      var r := Insert(x, tail);
      forall k | 0 <= k < |r| ensures Below(s[0], r[k]) {
        assert r[k] in multiset(r);
        if r[k] != x {
          assert r[k] in multiset(tail);
          var j :| 0 <= j < |tail| && tail[j] == r[k];
          assert s[j + 1] == r[k];
        }
      }
      SortedCons(s[0], r);
    }
  }

  /** The sort gives every name once per listing, in order. */
  lemma {:induction false} SortSorted(s: seq<string>)
    ensures Sorted(Sort(s))
    ensures multiset(Sort(s)) == multiset(s)
  {
    if s != [] {
      SortSorted(s[1..]);
      InsertSorted(s[0], Sort(s[1..]));
      InsertElements(s[0], Sort(s[1..]));
      assert s == [s[0]] + s[1..];
    }
  }

  /** The fixtures of a listing, in listing order: the .al names under
      ./test/. */
  function TestPaths(names: seq<string>): seq<string> {
    if names == [] then []
    else (if EndsWith(names[0], ".al") then ["./test/" + names[0]] else []) + TestPaths(names[1..])
  }

  lemma TestPathsStep(names: seq<string>, k: nat)
    requires k < |names|
    ensures TestPaths(names[k..]) ==
      if EndsWith(names[k], ".al") then ["./test/" + names[k]] + TestPaths(names[k + 1..])
      else TestPaths(names[k + 1..])
  {
    assert names[k..][1..] == names[k + 1..];
    assert [] + TestPaths(names[k + 1..]) == TestPaths(names[k + 1..]);
  }

  /** The fixtures main runs, in order. */
  function Fixtures(listing: seq<string>): seq<string> {
    TestPaths(Sort(listing))
  }

  /** The fixtures are exactly the .al names of the listing. */
  lemma {:induction false} TestPathsExactly(names: seq<string>)
    ensures forall n :: "./test/" + n in TestPaths(names) <==> n in names && EndsWith(n, ".al")
  {
    if names != [] {
      TestPathsExactly(names[1..]);
      forall n ensures "./test/" + n in TestPaths(names) <==> n in names && EndsWith(n, ".al") {
        assert n in names <==> n == names[0] || n in names[1..];
        if EndsWith(names[0], ".al") && "./test/" + n == "./test/" + names[0] {
          assert n == ("./test/" + n)[7..] == ("./test/" + names[0])[7..] == names[0];
        }
      }
    }
  }

  /** A run of the suite: the fixtures in order, stopping at the first that
      does not pass. */
  function Suite(files: set<string>, fixtures: seq<string>, read: string -> seq<string>, json: Json, exec: Exec): (Verdict, set<string>)
    decreases |fixtures|
  {
    if fixtures == [] then (Passed, files)
    else
      var (v, left) := RunTest(files, fixtures[0], read(fixtures[0]), json, exec);
      if !v.Passed? then (v, left) else Suite(left, fixtures[1..], read, json, exec)
  }

  lemma SuiteStep(files: set<string>, f: string, rest: seq<string>, read: string -> seq<string>, json: Json, exec: Exec)
    ensures var r := RunTest(files, f, read(f), json, exec);
            Suite(files, [f] + rest, read, json, exec) ==
            (if !r.0.Passed? then r else Suite(r.1, rest, read, json, exec))
  {
    assert ([f] + rest)[1..] == rest;
  }

  /** The suite stops at the first failure: a fixture after one that does
      not pass is never run. */
  lemma {:induction false} SuiteStopsAtFirstFailure(files: set<string>, a: seq<string>, b: seq<string>,
                                                   read: string -> seq<string>, json: Json, exec: Exec)
    ensures var r := Suite(files, a, read, json, exec);
            Suite(files, a + b, read, json, exec) ==
            (if !r.0.Passed? then r else Suite(r.1, b, read, json, exec))
    decreases |a|
  {
    if a == [] {
      assert a + b == b;
    } else {
      assert (a + b)[0] == a[0];
      assert (a + b)[1..] == a[1..] + b;
      var (v, left) := RunTest(files, a[0], read(a[0]), json, exec);
      if v.Passed? {
        SuiteStopsAtFirstFailure(left, a[1..], b, read, json, exec);
      }
    }
  }

  // ---------------------------------------------------------------------
  // The runner on a disk that changes in place

  class Workspace {
    var files: set<string>

    constructor (initial: set<string>)
      ensures files == initial
    {
      files := initial;
    }

    /** Runs a command, which may create or delete files. */
    method Execute(exec: Exec, argv: seq<string>) returns (p: Process)
      modifies this
      ensures (p, files) == exec(old(files), argv)
    {
      var (q, after) := exec(files, argv);
      p := q;
      files := after;
    }

    /** The cleanup loop in front of each Fail. */
    method DeleteQuietly(paths: seq<string>)
      modifies this
      ensures files == RemoveQuietly(old(files), paths)
    {
      var k := 0;
      while k < |paths|
        invariant 0 <= k <= |paths|
        invariant RemoveQuietly(files, paths[k..]) == RemoveQuietly(old(files), paths)
      {
        assert paths[k..][1..] == paths[k + 1..];
        if paths[k] in files {
          files := files - {paths[k]};
        } else {
          assert files - {paths[k]} == files;
        }
        k := k + 1;
      }
    }

    /** The cleanup loop after a pass. */
    method DeleteAll(paths: seq<string>) returns (err: Option<string>)
      modifies this
      ensures (files, err) == RemoveStrictly(old(files), paths)
    {
      var k := 0;
      while k < |paths|
        invariant 0 <= k <= |paths|
        invariant RemoveStrictly(files, paths[k..]) == RemoveStrictly(old(files), paths)
      {
        assert paths[k..][1..] == paths[k + 1..];
        if paths[k] !in files {
          return Some("FileNotFoundError: " + paths[k]);
        }
        files := files - {paths[k]};
        k := k + 1;
      }
      err := None;
    }

    /** The pass/fail decision after the compiler has run; used for the
        program run too. */
    method Compare(p: Process, exit: int, out: string, err: string, delete: seq<string>) returns (v: Option<Verdict>)
      modifies this
      ensures Mismatch(p, exit, out, err).Some? ==>
        v == Some(Failed(Mismatch(p, exit, out, err).value)) && files == RemoveQuietly(old(files), delete)
      ensures Mismatch(p, exit, out, err).None? ==> v.None? && files == old(files)
    {
      v := None;
      if p.exit != exit {
        DeleteQuietly(delete);
        v := Some(Failed(ExitReport(p, exit)));
      } else if p.out != out || p.err != err {
        DeleteQuietly(delete);
        v := Some(Failed(OutputReport(p)));
      }
    }

    /** run_alpha_test. */
    method RunAlphaTest(filename: string, lines: seq<string>, json: Json, exec: Exec) returns (v: Verdict)
      modifies this
      ensures (v, files) == RunTest(old(files), filename, lines, json, exec)
    {
      var header := ParseHeader(lines, json);
      if header.Err? {
        return Crashed(header.error);
      }
      var spec := header.value;
      var c := Execute(exec, CompileCommand(filename, spec.args));
      var failed := Compare(c, spec.cexit, spec.cout, spec.cerr, spec.delete);
      if failed.Some? {
        return failed.value;
      }
      if spec.run != "" {
        var p := Execute(exec, [spec.run]);
        failed := Compare(p, spec.pexit, spec.pout, spec.perr, spec.delete);
        if failed.Some? {
          return failed.value;
        }
      }
      var err := DeleteAll(spec.delete);
      v := if err.Some? then Crashed(err.value) else Passed;
    }

    /** main: every .al fixture in sorted order until one does not pass. */
    method RunSuite(listing: seq<string>, read: string -> seq<string>, json: Json, exec: Exec) returns (v: Verdict)
      modifies this
      ensures (v, files) == Suite(old(files), Fixtures(listing), read, json, exec)
    {
      var names := Sort(listing);
      var k := 0;
      while k < |names|
        invariant 0 <= k <= |names|
        invariant Suite(files, TestPaths(names[k..]), read, json, exec) == Suite(old(files), Fixtures(listing), read, json, exec)
      {
        TestPathsStep(names, k);
        if EndsWith(names[k], ".al") {
          var path := "./test/" + names[k];
          ghost var before := files;
          SuiteStep(before, path, TestPaths(names[k + 1..]), read, json, exec);
          v := RunAlphaTest(path, read(path), json, exec);
          if !v.Passed? {
            return;
          }
        }
        k := k + 1;
      }
      v := Passed;
    }
  }
}
