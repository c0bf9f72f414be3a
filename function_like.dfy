/** Mangled names of functions and methods, and the equivalence used when
    resolving them (src/java/me/pavlina/alco/ast/FunctionLike.java). */
module FunctionLike {
  import opened Wrappers
  import opened Text
  import opened Types
  import Operators
  import MangleReader

  /** What getMangledName and equals read from a declaration: its name, the
      three flags, the name of its package, its return types and its
      argument types. */
  datatype Signature = Signature(
    name: string, operator: bool, nomangle: bool, global: bool, pkg: string,
    types: seq<Type>, argtypes: seq<Type>)

  // ---------------------------------------------------------------------
  // Mangling

  /** The encoded names of a list of types appended in order; it fails when
      one of them cannot be encoded, with the error of the first such. */
  function Encodings(ts: seq<Type>): (r: Result<string, string>)
    ensures r.Ok? <==> forall i :: 0 <= i < |ts| ==> EncodedName(ts[i]).Ok?
  {
    if ts == [] then Ok("")
    else
      var init :- Encodings(ts[..|ts| - 1]);
      var last :- EncodedName(ts[|ts| - 1]);
      Ok(init + last)
  }

  /** OPERATOR_TO_ID.get(name) as StringBuilder.append writes it: a missing
      entry is null and is written as "null". */
  function OperatorId(name: string): string {
    if name in Operators.OperatorToId then Operators.OperatorToId[name] else "null"
  }

  /** What precedes the type encodings: "$O" and the operator's id, "$G" and
      the counted name, or "$F", the counted package name and the counted
      name. */
  function Prefix(f: Signature): string {
    if f.operator then "$O" + OperatorId(f.name)
    else if f.global then "$G" + NatToString(|f.name|) + f.name
    else "$F" + NatToString(|f.pkg|) + f.pkg + NatToString(|f.name|) + f.name
  }

  /** getMangledName (with getMangledOperator): a nomangle declaration keeps
      its plain name; any other is its prefix, the return-type encodings, a
      '$' and the argument-type encodings. */
  function Mangled(f: Signature): (r: Result<string, string>)
    ensures f.nomangle ==> r == Ok(f.name)
    ensures !f.nomangle ==> (r.Ok? <==> Encodings(f.types).Ok? && Encodings(f.argtypes).Ok?)
  {
    if f.nomangle then Ok(f.name)
    else
      var ret :- Encodings(f.types);
      var args :- Encodings(f.argtypes);
      Ok(Prefix(f) + ret + "$" + args)
  }

  /** The list's encoding with getEncodedName exactly as written: a type
      that holds an array, or a size the table lacks, makes it throw. Where
      it succeeds it is the intended encoding. */
  function EncodingsAsWritten(ts: seq<Type>): (r: Result<string, string>)
    ensures r.Ok? <==> forall i :: 0 <= i < |ts| ==> Encodable(ts[i]) && ArrayFree(ts[i])
    ensures r.Ok? ==> r == Encodings(ts)
    ensures r.Err? ==> r.error == "invalid size"
  {
    if ts == [] then Ok("")
    else
      var init :- EncodingsAsWritten(ts[..|ts| - 1]);
      var last :- EncodedNameAsWritten(ts[|ts| - 1]);
      Ok(init + last)
  }

  /** getMangledName exactly as written. It throws wherever a return or
      argument type holds an array, and otherwise gives the Mangled name. */
  function MangledAsWritten(f: Signature): (r: Result<string, string>)
    ensures f.nomangle ==> r == Ok(f.name)
    ensures !f.nomangle ==> (r.Ok? <==> EncodingsAsWritten(f.types).Ok? && EncodingsAsWritten(f.argtypes).Ok?)
    ensures r.Ok? ==> r == Mangled(f)
  {
    if f.nomangle then Ok(f.name)
    else
      var ret :- EncodingsAsWritten(f.types);
      var args :- EncodingsAsWritten(f.argtypes);
      Ok(Prefix(f) + ret + "$" + args)
  }

  /** A global `f(int[])` has no mangled name as written; the intended one
      is "$G1f$qC". */
  lemma ArrayArgumentNotMangled()
    ensures MangledAsWritten(Signature("f", false, false, true, "", [], [ArrayOf(BaseType(64, "int", None))])).Err?
    ensures Mangled(Signature("f", false, false, true, "", [], [ArrayOf(BaseType(64, "int", None))])) == Ok("$G1f$qC")
  {
    var f := Signature("f", false, false, true, "", [], [ArrayOf(BaseType(64, "int", None))]);
    ArrayEncodingFails(64);
    assert f.argtypes[..0] == [] && Encodings([]) == Ok("");
    assert EncodedName(f.argtypes[0]) == Ok("qC");
    assert "" + "qC" == "qC";
    assert Encodings(f.argtypes) == Ok("qC");
    assert Encodings(f.types) == Ok("");
    assert NatToString(1) == "1";
    assert Prefix(f) == "$G1f";
    assert "$G1f" + "" + "$" + "qC" == "$G1f$qC";
  }

  /** The loop `for (Type i: ts) sb.append(i.getEncodedName())`, calling
      getEncodedName as written; an encoding that throws ends it. */
  method AppendEncodings(ts: seq<Type>) returns (r: Result<string, string>)
    ensures r == EncodingsAsWritten(ts)
  {
    var sb := "";
    var i := 0;
    while i < |ts|
      invariant 0 <= i <= |ts|
      invariant EncodingsAsWritten(ts[..i]) == Ok(sb)
    {
      assert ts[..i + 1][..i] == ts[..i];
      var e := EncodedNameAsWritten(ts[i]);
      if e.Err? {
        assert !(Encodable(ts[i]) && ArrayFree(ts[i]));
        return Err(e.error);
      }
      sb := sb + e.value;
      i := i + 1;
    }
    assert ts[..i] == ts;
    return Ok(sb);
  }

  /** getMangledName built up in a string, piece by piece. */
  method GetMangledName(f: Signature) returns (r: Result<string, string>)
    ensures r == MangledAsWritten(f)
  {
    if f.nomangle {
      return Ok(f.name);
    }
    var sb: string;
    if f.operator {
      sb := "$O" + OperatorId(f.name);
    } else if f.global {
      sb := "$G" + NatToString(|f.name|) + f.name;
    } else {
      sb := "$F" + NatToString(|f.pkg|) + f.pkg + NatToString(|f.name|) + f.name;
    }
    var ret := AppendEncodings(f.types);
    if ret.Err? {
      return Err(ret.error);
    }
    sb := sb + ret.value + "$";
    var args := AppendEncodings(f.argtypes);
    if args.Err? {
      return Err(args.error);
    }
    return Ok(sb + args.value);
  }

  lemma {:induction false} EncodingsErrPersists(ts: seq<Type>, j: nat)
    requires j <= |ts| && Encodings(ts[..j]).Err?
    ensures Encodings(ts) == Encodings(ts[..j])
    decreases |ts| - j
  {
    if j < |ts| {
      assert ts[..j + 1][..j] == ts[..j];
      EncodingsErrPersists(ts, j + 1);
    } else {
      assert ts[..j] == ts;
    }
  }

  /** The list encoding read from the front: the first encoding, then the
      rest. */
  lemma {:induction false} EncodingsCons(ts: seq<Type>)
    requires |ts| > 0 && Encodings(ts).Ok?
    ensures EncodedName(ts[0]).Ok? && Encodings(ts[1..]).Ok?
    ensures Encodings(ts).value == EncodedName(ts[0]).value + Encodings(ts[1..]).value
    decreases |ts|
  {
    var n := |ts|;
    assert EncodedName(ts[0]).Ok?;
    if n == 1 {
      assert ts[..0] == [] && ts[1..] == [];
    } else {
      EncodingsCons(ts[..n - 1]);
      EncodingsConsStep(ts);
    }
  }

  /** The step of EncodingsCons: splitting off the first type commutes with
      splitting off the last. */
  lemma EncodingsConsStep(ts: seq<Type>)
    requires |ts| > 1 && Encodings(ts).Ok?
    requires Encodings(ts[..|ts| - 1][1..]).Ok?
    requires Encodings(ts[..|ts| - 1]).value
             == EncodedName(ts[0]).value + Encodings(ts[..|ts| - 1][1..]).value
    ensures Encodings(ts[1..]).Ok?
    ensures Encodings(ts).value == EncodedName(ts[0]).value + Encodings(ts[1..]).value
  {
    var n := |ts|;
    var init, tail := ts[..n - 1], ts[1..];
    assert EncodedName(ts[0]).Ok? && EncodedName(ts[n - 1]).Ok?;
    assert tail[..n - 2] == init[1..] && tail[n - 2] == ts[n - 1];
    var first, middle, last :=
      EncodedName(ts[0]).value, Encodings(init[1..]).value, EncodedName(ts[n - 1]).value;
    assert Encodings(tail) == Ok(middle + last);
    assert Encodings(ts) == Ok((first + middle) + last);
    ConcatAssociates(first, middle, last);
  }

  lemma ConcatAssociates(a: string, b: string, c: string)
    ensures (a + b) + c == a + (b + c)
  {
  }

  predicate AllWellFormed(bits: nat, ts: seq<Type>) {
    forall i :: 0 <= i < |ts| ==> WellFormed(bits, ts[i])
  }

  /** Element-wise equivalence of two type lists. */
  predicate AllEquals(xs: seq<Type>, ys: seq<Type>) {
    |xs| == |ys| && forall i :: 0 <= i < |xs| ==> Equals(xs[i], ys[i])
  }

  /** Well-formed types always encode, and a non-empty list's encoding begins
      with the lead character of a type. */
  lemma EncodingsWellFormed(bits: nat, ts: seq<Type>)
    requires AllWellFormed(bits, ts)
    ensures Encodings(ts).Ok?
    ensures |ts| > 0 ==> |Encodings(ts).value| > 0 && IsTypeLead(Encodings(ts).value[0])
  {
    forall i | 0 <= i < |ts|
      ensures EncodedName(ts[i]).Ok?
    {
      WellFormedEncodes(bits, ts[i]);
    }
    if |ts| > 0 {
      EncodingsCons(ts);
      WellFormedEncodes(bits, ts[0]);
    }
  }

  /** Lists of equivalent well-formed types have the same encoding. */
  lemma {:induction false} EncodingsOfEquals(bits: nat, xs: seq<Type>, ys: seq<Type>)
    requires AllWellFormed(bits, xs) && AllWellFormed(bits, ys) && AllEquals(xs, ys)
    ensures Encodings(xs) == Encodings(ys)
    decreases |xs|
  {
    if xs != [] {
      var n := |xs|;
      EncodingsOfEquals(bits, xs[..n - 1], ys[..n - 1]);
      EqualsSameEncoding(bits, xs[n - 1], ys[n - 1]);
    }
  }

  // ---------------------------------------------------------------------
  // Reading a mangled name back

  /** How a mangled name begins. */
  datatype Head = OperatorHead(op: string) | GlobalHead(name: string) | PackageHead(pkg: string, name: string)

  datatype Demangled = Demangled(head: Head, types: seq<Type>, argtypes: seq<Type>)

  function HeadOf(f: Signature): Head {
    if f.operator then OperatorHead(f.name)
    else if f.global then GlobalHead(f.name)
    else PackageHead(f.pkg, f.name)
  }

  /** Types decoded one after another until a '$' or the end. */
  function DecodeList(bits: nat, s: string, pos: nat): (r: Option<(seq<Type>, nat)>)
    requires pos <= |s|
    ensures r.Some? ==> pos <= r.value.1 <= |s|
    ensures r.Some? ==> r.value.1 == |s| || s[r.value.1] == '$'
    decreases |s| - pos
  {
    if pos == |s| || s[pos] == '$' then Some(([], pos))
    else
      var d :- DecodeAt(bits, s, pos);
      var rest :- DecodeList(bits, s, d.1);
      Some(([d.0] + rest.0, rest.1))
  }

  /** A decimal count and that many characters, read with the mangle
      reader's nextInt and nextString. */
  function ReadCounted(s: string, p: nat): (r: Result<(string, nat), string>)
    requires p <= |s|
    ensures r.Ok? ==> p < r.value.1 <= |s|
  {
    var n :- MangleReader.ReadInt(s, p);
    var str :- MangleReader.ReadString(s, n.1, n.0);
    Ok(str)
  }

  /** The return types, a '$', and the argument types up to the end. */
  function DecodeSuffix(bits: nat, s: string, p: nat): Result<(seq<Type>, seq<Type>), string>
    requires p <= |s|
  {
    var ret :- DecodeList(bits, s, p).ToResult("malformed return types");
    if ret.1 == |s| then Err("missing '$'")
    else
      var args :- DecodeList(bits, s, ret.1 + 1).ToResult("malformed argument types");
      if args.1 != |s| then Err("trailing characters") else Ok((ret.0, args.0))
  }

  /** The inverse of mangling, built on MangleReader and fromEncodedName. Only
      a name starting with "$O", "$G" or "$F" reads back, and the letter
      decides the kind of declaration. */
  function Demangle(bits: nat, s: string): (r: Result<Demangled, string>)
    ensures r.Ok? ==> |s| >= 3 && s[0] == '$' && s[1] in "OGF"
    ensures r.Ok? ==> (r.value.head.OperatorHead? <==> s[1] == 'O') && (r.value.head.GlobalHead? <==> s[1] == 'G')
  {
    if |s| < 3 || s[0] != '$' then Err("not a mangled name")
    else if s[1] == 'O' then
      var id := [s[2]];
      if id !in Operators.IdToOperator then Err("unknown operator id")
      else
        var sfx :- DecodeSuffix(bits, s, 3);
        Ok(Demangled(OperatorHead(Operators.IdToOperator[id]), sfx.0, sfx.1))
    else if s[1] == 'G' then
      var name :- ReadCounted(s, 2);
      var sfx :- DecodeSuffix(bits, s, name.1);
      Ok(Demangled(GlobalHead(name.0), sfx.0, sfx.1))
    else if s[1] == 'F' then
      var pkg :- ReadCounted(s, 2);
      var name :- ReadCounted(s, pkg.1);
      var sfx :- DecodeSuffix(bits, s, name.1);
      Ok(Demangled(PackageHead(pkg.0, name.0), sfx.0, sfx.1))
    else Err("not a mangled name")
  }

  /** A name whose length prefix can be read back: non-empty, shorter than
      2^31 and not beginning with a digit. */
  predicate NameOk(n: string) {
    0 < |n| < TwoTo31 && !IsDigit(n[0])
  }

  /** What demangling needs of a declaration: well-formed types, an operator
      with an id, and readable names and package names. */
  predicate Demanglable(bits: nat, f: Signature) {
    AllWellFormed(bits, f.types) && AllWellFormed(bits, f.argtypes)
    && (f.operator ==> f.name in Operators.OperatorToId)
    && (!f.operator ==> NameOk(f.name))
    && (!f.operator && !f.global ==> NameOk(f.pkg))
  }

  lemma DecodeListEncoded(bits: nat, ts: seq<Type>, enc: string, s: string, pos: nat)
    requires AllWellFormed(bits, ts)
    requires Encodings(ts) == Ok(enc)
    requires pos + |enc| <= |s| && s[pos..pos + |enc|] == enc
    requires pos + |enc| == |s| || s[pos + |enc|] == '$'
    ensures DecodeList(bits, s, pos).Some?
    ensures DecodeList(bits, s, pos).value.1 == pos + |enc|
    ensures AllEquals(ts, DecodeList(bits, s, pos).value.0)
  {
    EncodingsNames(ts);
    DecodeNames(bits, ts, s, pos);
  }

  predicate AllEncode(ts: seq<Type>) {
    forall i :: 0 <= i < |ts| ==> EncodedName(ts[i]).Ok?
  }

  /** The encodings of a list, first to last. */
  function Names(ts: seq<Type>): string
    requires AllEncode(ts)
  {
    if ts == [] then "" else EncodedName(ts[0]).value + Names(ts[1..])
  }

  lemma {:induction false} EncodingsNames(ts: seq<Type>)
    requires AllEncode(ts)
    ensures Encodings(ts) == Ok(Names(ts))
    decreases |ts|
  {
    if ts != [] {
      assert Encodings(ts).Ok?;
      EncodingsCons(ts);
      EncodingsNames(ts[1..]);
    }
  }

  lemma {:induction false} DecodeNames(bits: nat, ts: seq<Type>, s: string, pos: nat)
    requires AllWellFormed(bits, ts) && AllEncode(ts)
    requires pos + |Names(ts)| <= |s| && s[pos..pos + |Names(ts)|] == Names(ts)
    requires pos + |Names(ts)| == |s| || s[pos + |Names(ts)|] == '$'
    ensures DecodeList(bits, s, pos).Some?
    ensures DecodeList(bits, s, pos).value.1 == pos + |Names(ts)|
    ensures AllEquals(ts, DecodeList(bits, s, pos).value.0)
    decreases |ts|
  {
    if ts == [] {
      assert DecodeList(bits, s, pos) == Some(([], pos));
    } else {
      var q := HeadDecodes(bits, ts, s, pos);
      DecodeNames(bits, ts[1..], s, q);
      DecodeListCons(bits, s, pos, q, ts);
    }
  }

  /** The first type of the list decodes from its encoding, up to where
      the rest begins. */
  lemma HeadDecodes(bits: nat, ts: seq<Type>, s: string, pos: nat) returns (q: nat)
    requires ts != [] && AllWellFormed(bits, ts) && AllEncode(ts)
    requires pos + |Names(ts)| <= |s| && s[pos..pos + |Names(ts)|] == Names(ts)
    ensures AllWellFormed(bits, ts[1..]) && AllEncode(ts[1..])
    ensures q + |Names(ts[1..])| == pos + |Names(ts)|
    ensures s[q..q + |Names(ts[1..])|] == Names(ts[1..])
    ensures pos < |s| && s[pos] != '$'
    ensures DecodeAt(bits, s, pos).Some? && DecodeAt(bits, s, pos).value.1 == q
    ensures Equals(ts[0], DecodeAt(bits, s, pos).value.0)
  {
    var e0 := EncodedName(ts[0]).value;
    var rs := Names(ts[1..]);
    assert Names(ts) == e0 + rs;
    SliceConcat(s, pos, e0, rs);
    WellFormedEncodes(bits, ts[0]);
    assert s[pos] == e0[0];
    DecodeEncoded(bits, ts[0], s, pos);
    TailLists(bits, ts);
    q := pos + |e0|;
  }

  lemma TailLists(bits: nat, ts: seq<Type>)
    requires ts != [] && AllWellFormed(bits, ts) && AllEncode(ts)
    ensures AllWellFormed(bits, ts[1..]) && AllEncode(ts[1..])
  {
    assert forall i :: 0 <= i < |ts| - 1 ==> ts[1..][i] == ts[i + 1];
  }

  /** One step of DecodeList: a type equivalent to the first, then the
      rest. */
  lemma DecodeListCons(bits: nat, s: string, pos: nat, q: nat, ts: seq<Type>)
    requires ts != []
    requires pos < |s| && s[pos] != '$'
    requires DecodeAt(bits, s, pos).Some? && DecodeAt(bits, s, pos).value.1 == q
    requires Equals(ts[0], DecodeAt(bits, s, pos).value.0)
    requires q <= |s| && DecodeList(bits, s, q).Some?
    requires AllEquals(ts[1..], DecodeList(bits, s, q).value.0)
    ensures DecodeList(bits, s, pos).Some?
    ensures DecodeList(bits, s, pos).value.1 == DecodeList(bits, s, q).value.1
    ensures AllEquals(ts, DecodeList(bits, s, pos).value.0)
  {
    var d := DecodeAt(bits, s, pos).value;
    var rest := DecodeList(bits, s, q).value;
    assert DecodeList(bits, s, pos) == Some(([d.0] + rest.0, rest.1));
    AllEqualsCons(ts[0], d.0, ts[1..], rest.0);
    assert [ts[0]] + ts[1..] == ts;
  }

  lemma AllEqualsCons(t: Type, d: Type, ts: seq<Type>, ds: seq<Type>)
    requires Equals(t, d) && AllEquals(ts, ds)
    ensures AllEquals([t] + ts, [d] + ds)
  {
    var xs := [t] + ts;
    var ys := [d] + ds;
    forall i | 0 <= i < |xs|
      ensures Equals(xs[i], ys[i])
    {
      if i > 0 {
        assert xs[i] == ts[i - 1] && ys[i] == ds[i - 1];
      }
    }
  }

  /** `s` ends, from `q` on, with a + "$" + b. */
  predicate TailAt(s: string, q: nat, a: string, b: string) {
    q + |a| + 1 + |b| == |s|
    && s[q..q + |a|] == a && s[q + |a|] == '$'
    && s[q + |a| + 1..q + |a| + 1 + |b|] == b
  }

  lemma DollarSplit(s: string, p: nat, a: string, b: string)
    requires p <= |s| && s[p..] == a + "$" + b
    ensures TailAt(s, p, a, b)
  {
    assert s[p..p + |a|] == s[p..][..|a|];
    assert s[p + |a|] == s[p..][|a|];
    assert s[p + |a| + 1..p + |a| + 1 + |b|] == s[p..][|a| + 1..];
  }

  lemma SuffixDecodes(bits: nat, ts: seq<Type>, us: seq<Type>, e1: string, e2: string, s: string, p: nat)
    requires AllWellFormed(bits, ts) && AllWellFormed(bits, us)
    requires Encodings(ts) == Ok(e1) && Encodings(us) == Ok(e2)
    requires TailAt(s, p, e1, e2)
    ensures DecodeSuffix(bits, s, p).Ok?
    ensures AllEquals(ts, DecodeSuffix(bits, s, p).value.0)
    ensures AllEquals(us, DecodeSuffix(bits, s, p).value.1)
  {
    var q := p + |e1| + 1;
    DecodeListEncoded(bits, ts, e1, s, p);
    DecodeListEncoded(bits, us, e2, s, q);
    var ret := DecodeList(bits, s, p).value;
    var args := DecodeList(bits, s, q).value;
    assert ret.1 + 1 == q && args.1 == |s|;
    DecodeSuffixOf(bits, s, p, q, ret, args);
    var r := DecodeSuffix(bits, s, p).value;
    assert r.0 == ret.0 && r.1 == args.0;
  }

  lemma DecodeSuffixOf(bits: nat, s: string, p: nat, q: nat, ret: (seq<Type>, nat), args: (seq<Type>, nat))
    requires p <= |s| && DecodeList(bits, s, p) == Some(ret)
    requires ret.1 < |s| && q == ret.1 + 1 && DecodeList(bits, s, q) == Some(args) && args.1 == |s|
    ensures DecodeSuffix(bits, s, p) == Ok((ret.0, args.0))
  {
  }

  /** A counted name reads back whole, with the position after it. */
  lemma ReadCountedAt(s: string, p: nat, name: string, rest: string) returns (q: nat)
    requires NameOk(name)
    requires p <= |s| && s[p..] == NatToString(|name|) + name + rest
    ensures q == p + |NatToString(|name|)| + |name|
    ensures ReadCounted(s, p) == Ok((name, q))
    ensures q <= |s| && s[q..] == rest
  {
    var d := NatToString(|name|);
    var e := p + |d|;
    NatToStringDigits(|name|);
    assert s[p..e] == d;
    forall k | p <= k < e
      ensures IsDigit(s[k])
    {
      assert s[k] == d[k - p];
    }
    assert s[e] == name[0];
    MangleReader.DigitRunFrom(s, p, e);
    assert s[e..e + |name|] == name;
    q := e + |name|;
    assert s[q..] == s[p..][|d| + |name|..];
  }

  /** `s` demangles to the head of `f` and to types equivalent to its own. */
  predicate DemanglesTo(bits: nat, s: string, f: Signature) {
    Demangle(bits, s).Ok?
    && Demangle(bits, s).value.head == HeadOf(f)
    && AllEquals(f.types, Demangle(bits, s).value.types)
    && AllEquals(f.argtypes, Demangle(bits, s).value.argtypes)
  }

  /** Reading a demanglable declaration's mangled name back gives its head
      and equivalent return and argument types. */
  lemma MangledRoundTrip(bits: nat, f: Signature)
    requires !f.nomangle && Demanglable(bits, f)
    ensures Mangled(f).Ok? && DemanglesTo(bits, Mangled(f).value, f)
  {
    EncodingsWellFormed(bits, f.types);
    EncodingsWellFormed(bits, f.argtypes);
    var e1 := Encodings(f.types).value;
    var e2 := Encodings(f.argtypes).value;
    var s := Mangled(f).value;
    assert s == Prefix(f) + (e1 + "$" + e2);
    if f.operator {
      OperatorCase(bits, f, e1, e2, s);
    } else if f.global {
      GlobalCase(bits, f, e1, e2, s);
    } else {
      PackageCase(bits, f, e1, e2, s);
    }
  }

  lemma OperatorCase(bits: nat, f: Signature, e1: string, e2: string, s: string)
    requires f.operator && Demanglable(bits, f)
    requires Encodings(f.types) == Ok(e1) && Encodings(f.argtypes) == Ok(e2)
    requires s == Prefix(f) + (e1 + "$" + e2)
    ensures DemanglesTo(bits, s, f)
  {
    var tail := e1 + "$" + e2;
    var id := Operators.OperatorToId[f.name];
    Operators.IdIsOneChar(f.name);
    assert s == "$O" + id + tail;
    assert s[3..] == tail;
    DollarSplit(s, 3, e1, e2);
    assert |s| >= 3 && s[0] == '$' && s[1] == 'O' && [s[2]] == id;
    OperatorRoundTrip(bits, f, e1, e2, s);
  }

  lemma GlobalCase(bits: nat, f: Signature, e1: string, e2: string, s: string)
    requires !f.operator && f.global && Demanglable(bits, f)
    requires Encodings(f.types) == Ok(e1) && Encodings(f.argtypes) == Ok(e2)
    requires s == Prefix(f) + (e1 + "$" + e2)
    ensures DemanglesTo(bits, s, f)
  {
    var q := GlobalHeadReads(f, e1 + "$" + e2, s);
    DollarSplit(s, q, e1, e2);
    GlobalRoundTrip(bits, f, e1, e2, s, q);
  }

  /** "$G" and the counted name read back, leaving the tail. */
  lemma GlobalHeadReads(f: Signature, tail: string, s: string) returns (q: nat)
    requires !f.operator && f.global && NameOk(f.name)
    requires s == Prefix(f) + tail
    ensures |s| >= 3 && s[0] == '$' && s[1] == 'G'
    ensures ReadCounted(s, 2) == Ok((f.name, q))
    ensures q <= |s| && s[q..] == tail
  {
    var dn := NatToString(|f.name|);
    assert s == "$G" + dn + f.name + tail;
    assert s[2..] == dn + f.name + tail;
    q := ReadCountedAt(s, 2, f.name, tail);
  }

  lemma PackageCase(bits: nat, f: Signature, e1: string, e2: string, s: string)
    requires !f.operator && !f.global && Demanglable(bits, f)
    requires Encodings(f.types) == Ok(e1) && Encodings(f.argtypes) == Ok(e2)
    requires s == Prefix(f) + (e1 + "$" + e2)
    ensures DemanglesTo(bits, s, f)
  {
    var p, q := PackageHeadReads(f, e1 + "$" + e2, s);
    DollarSplit(s, q, e1, e2);
    PackageRoundTrip(bits, f, e1, e2, s, p, q);
  }

  /** "$F", the counted package name and the counted name read back, leaving
      the tail. */
  lemma PackageHeadReads(f: Signature, tail: string, s: string) returns (p: nat, q: nat)
    requires !f.operator && !f.global && NameOk(f.name) && NameOk(f.pkg)
    requires s == Prefix(f) + tail
    ensures |s| >= 3 && s[0] == '$' && s[1] == 'F'
    ensures p <= |s| && ReadCounted(s, 2) == Ok((f.pkg, p))
    ensures ReadCounted(s, p) == Ok((f.name, q))
    ensures q <= |s| && s[q..] == tail
  {
    var rest := PackageLayout(f, tail, s);
    p := ReadCountedAt(s, 2, f.pkg, rest);
    q := ReadCountedAt(s, p, f.name, tail);
  }

  lemma PackageLayout(f: Signature, tail: string, s: string) returns (rest: string)
    requires !f.operator && !f.global
    requires s == Prefix(f) + tail
    ensures |s| >= 3 && s[0] == '$' && s[1] == 'F'
    ensures s[2..] == NatToString(|f.pkg|) + f.pkg + rest
    ensures rest == NatToString(|f.name|) + f.name + tail
  {
    rest := NatToString(|f.name|) + f.name + tail;
    assert s == "$F" + NatToString(|f.pkg|) + f.pkg + rest;
  }

  lemma OperatorRoundTrip(bits: nat, f: Signature, e1: string, e2: string, s: string)
    requires f.operator && Demanglable(bits, f)
    requires Encodings(f.types) == Ok(e1) && Encodings(f.argtypes) == Ok(e2)
    requires |s| >= 3 && s[0] == '$' && s[1] == 'O' && [s[2]] == Operators.OperatorToId[f.name]
    requires TailAt(s, 3, e1, e2)
    ensures DemanglesTo(bits, s, f)
  {
    Operators.TablesInverse(f.name);
    SuffixDecodes(bits, f.types, f.argtypes, e1, e2, s, 3);
  }

  lemma GlobalRoundTrip(bits: nat, f: Signature, e1: string, e2: string, s: string, q: nat)
    requires !f.operator && f.global && Demanglable(bits, f)
    requires Encodings(f.types) == Ok(e1) && Encodings(f.argtypes) == Ok(e2)
    requires |s| >= 3 && s[0] == '$' && s[1] == 'G' && ReadCounted(s, 2) == Ok((f.name, q))
    requires TailAt(s, q, e1, e2)
    ensures DemanglesTo(bits, s, f)
  {
    SuffixDecodes(bits, f.types, f.argtypes, e1, e2, s, q);
  }

  lemma PackageRoundTrip(bits: nat, f: Signature, e1: string, e2: string, s: string, p: nat, q: nat)
    requires !f.operator && !f.global && Demanglable(bits, f)
    requires Encodings(f.types) == Ok(e1) && Encodings(f.argtypes) == Ok(e2)
    requires |s| >= 3 && s[0] == '$' && s[1] == 'F' && ReadCounted(s, 2) == Ok((f.pkg, p))
    requires p <= |s| && ReadCounted(s, p) == Ok((f.name, q))
    requires TailAt(s, q, e1, e2)
    ensures DemanglesTo(bits, s, f)
  {
    SuffixDecodes(bits, f.types, f.argtypes, e1, e2, s, q);
  }

  // ---------------------------------------------------------------------
  // Equivalence for resolution

  /** FunctionLike.equals: the same name, the same nomangle flag and
      equivalent argument types; return types and the other flags are not
      compared. */
  predicate SameDeclaration(a: Signature, b: Signature) {
    a.name == b.name && a.nomangle == b.nomangle && AllEquals(a.argtypes, b.argtypes)
  }

  lemma AllEqualsSymmetric(xs: seq<Type>, ys: seq<Type>)
    requires AllEquals(xs, ys)
    ensures AllEquals(ys, xs)
  {
    forall i | 0 <= i < |xs|
      ensures Equals(ys[i], xs[i])
    {
      EqualsSymmetric(xs[i], ys[i]);
    }
  }

  lemma AllEqualsTransitive(xs: seq<Type>, ys: seq<Type>, zs: seq<Type>)
    requires AllEquals(xs, ys) && AllEquals(ys, zs)
    ensures AllEquals(xs, zs)
  {
    forall i | 0 <= i < |xs|
      ensures Equals(xs[i], zs[i])
    {
      EqualsTransitive(xs[i], ys[i], zs[i]);
    }
  }

  /** Equivalent declarations of the same kind, in the same package and with
      equivalent return types mangle to the same name. */
  lemma SameDeclarationSameName(bits: nat, f: Signature, g: Signature)
    requires SameDeclaration(f, g)
    requires f.operator == g.operator && f.global == g.global && f.pkg == g.pkg
    requires AllEquals(f.types, g.types)
    requires Demanglable(bits, f) && Demanglable(bits, g)
    ensures Mangled(f) == Mangled(g)
  {
    EncodingsOfEquals(bits, f.types, g.types);
    EncodingsOfEquals(bits, f.argtypes, g.argtypes);
  }

  /** Conversely, two mangled declarations with the same mangled name are
      equivalent, have the same head and equivalent return types: mangling
      separates everything that equals separates. */
  lemma SameNameSameDeclaration(bits: nat, f: Signature, g: Signature)
    requires !f.nomangle && !g.nomangle
    requires Demanglable(bits, f) && Demanglable(bits, g)
    requires Mangled(f) == Mangled(g)
    ensures SameDeclaration(f, g)
    ensures HeadOf(f) == HeadOf(g)
    ensures AllEquals(f.types, g.types)
  {
    MangledRoundTrip(bits, f);
    MangledRoundTrip(bits, g);
    assert DemanglesTo(bits, Mangled(f).value, f) && DemanglesTo(bits, Mangled(f).value, g);
    var d := Demangle(bits, Mangled(f).value).value;
    AllEqualsSymmetric(g.types, d.types);
    AllEqualsTransitive(f.types, d.types, g.types);
    AllEqualsSymmetric(g.argtypes, d.argtypes);
    AllEqualsTransitive(f.argtypes, d.argtypes, g.argtypes);
  }
}
