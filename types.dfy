/** Alpha types (src/java/me/pavlina/alco/language/Type.java): construction
    from a base name and modifiers, the encoded names used in the dynamic type
    system and in name mangling, decoding, equivalence, the pure implicit
    coercion and the printable form.

    A Java Type holds a name, a size, an encoding and a nullable list of
    subtypes; the datatype below has one constructor per shape the
    constructors and the decoder build. An object type whose argument list
    is null is `Bare`; one with a list (possibly empty) is `Object`. The
    pointer size is `bits / 8` of the target, which every operation takes as a
    parameter. */
module Types {
  import opened Wrappers
  import opened Text

  datatype Encoding = UInt | SInt | Float | ArrayEnc | PointerEnc | ObjectEnc | NullEnc

  /** The encodings a primitive type can have. */
  type ScalarEncoding = e: Encoding | e == UInt || e == SInt || e == Float witness UInt

  datatype Modifier = ArrayMod | PointerMod

  /** Type.OBJECT_SIZE: the size of arrays and objects. */
  const ObjectSize: int := 16

  datatype Type =
    | Primitive(name: string, encoding: ScalarEncoding, size: int)
    | ArrayOf(sub: Type)
    | PointerTo(size: int, sub: Type)
    | Bare(name: string)
    | Object(name: string, args: seq<Type>)
    | NullType

  function EncodingOf(t: Type): Encoding {
    match t
    case Primitive(_, e, _) => e
    case ArrayOf(_) => ArrayEnc
    case PointerTo(_, _) => PointerEnc
    case Bare(_) => ObjectEnc
    case Object(_, _) => ObjectEnc
    case NullType => NullEnc
  }

  function SizeOf(t: Type): int {
    match t
    case Primitive(_, _, s) => s
    case PointerTo(s, _) => s
    case NullType => 0
    case _ => ObjectSize
  }

  /** The argument list of an object type, a null list read as empty. */
  function ArgsOf(t: Type): seq<Type> {
    if t.Object? then t.args else []
  }

  /** PRIMITIVE_ENCODINGS. */
  function PrimitiveEncoding(name: string): Option<ScalarEncoding> {
    if name in {"i8", "i16", "i32", "i64", "int", "ssize"} then Some(SInt)
    else if name in {"u8", "u16", "u32", "u64", "unsigned", "size"} then Some(UInt)
    else if name in {"float", "double"} then Some(Float)
    else None
  }

  /** PRIMITIVE_SIZES, with the -1 entries of size and ssize replaced by the
      pointer size as baseType does. */
  function PrimitiveSize(bits: nat, name: string): int {
    if name in {"i8", "u8"} then 1
    else if name in {"i16", "u16"} then 2
    else if name in {"i32", "u32", "int", "unsigned", "float"} then 4
    else if name in {"i64", "u64", "double"} then 8
    else bits / 8
  }

  /** baseType: a primitive when the name is one, otherwise an object type. */
  function BaseType(bits: nat, name: string, args: Option<seq<Type>>): (t: Type)
    ensures PrimitiveEncoding(name).Some? ==> t == Primitive(name, PrimitiveEncoding(name).value, PrimitiveSize(bits, name))
    ensures PrimitiveEncoding(name).None? ==> EncodingOf(t) == ObjectEnc && SizeOf(t) == ObjectSize && t.name == name
    ensures PrimitiveEncoding(name).None? ==> (t.Bare? <==> args.None?)
  {
    match PrimitiveEncoding(name)
    case Some(e) => Primitive(name, e, PrimitiveSize(bits, name))
    case None => if args.None? then Bare(name) else Object(name, args.value)
  }

  /** The public constructor: the last modifier is the outermost layer. */
  function MakeType(bits: nat, name: string, args: Option<seq<Type>>, mods: seq<Modifier>): (t: Type)
    ensures mods != [] && mods[|mods| - 1] == ArrayMod ==> EncodingOf(t) == ArrayEnc && SizeOf(t) == ObjectSize
    ensures mods != [] && mods[|mods| - 1] == PointerMod ==> EncodingOf(t) == PointerEnc && SizeOf(t) == bits / 8
    decreases |mods|
  {
    if mods == [] then BaseType(bits, name, args)
    else if mods[|mods| - 1] == ArrayMod then ArrayOf(MakeType(bits, name, args, mods[..|mods| - 1]))
    else PointerTo(bits / 8, MakeType(bits, name, args, mods[..|mods| - 1]))
  }

  /** The modifier layers of a type, innermost first. */
  function Layers(t: Type): seq<Modifier> {
    match t
    case ArrayOf(s) => Layers(s) + [ArrayMod]
    case PointerTo(_, s) => Layers(s) + [PointerMod]
    case _ => []
  }

  /** The type under all modifier layers. */
  function Core(t: Type): Type {
    match t
    case ArrayOf(s) => Core(s)
    case PointerTo(_, s) => Core(s)
    case _ => t
  }

  /** Every pointer layer of a type built for `bits` has size bits/8. */
  predicate PointerLayersSized(bits: nat, t: Type) {
    match t
    case ArrayOf(s) => PointerLayersSized(bits, s)
    case PointerTo(n, s) => n == bits / 8 && PointerLayersSized(bits, s)
    case _ => true
  }

  /** The constructor nests exactly the given modifiers, in order, around the
      base type, and sizes every pointer for the target. */
  lemma {:induction false} MakeTypeLayers(bits: nat, name: string, args: Option<seq<Type>>, mods: seq<Modifier>)
    ensures Layers(MakeType(bits, name, args, mods)) == mods
    ensures Core(MakeType(bits, name, args, mods)) == BaseType(bits, name, args)
    ensures PointerLayersSized(bits, MakeType(bits, name, args, mods))
    decreases |mods|
  {
    if mods != [] {
      MakeTypeLayers(bits, name, args, mods[..|mods| - 1]);
      assert mods[..|mods| - 1] + [mods[|mods| - 1]] == mods;
    }
  }

  // ---------------------------------------------------------------------
  // Encoded names

  /** The column of the size table for sizes 1, 2, 4 and 8. */
  function SizeLog2(size: int): (r: Option<nat>)
    ensures r.Some? ==> r.value < 4
  {
    if size == 1 then Some(0)
    else if size == 2 then Some(1)
    else if size == 4 then Some(2)
    else if size == 8 then Some(3)
    else None
  }

  /** ENCODED_NAMES: the row of an encoding at a size column. */
  function EncodedLetter(e: Encoding, k: nat): string
    requires k < 4
  {
    match e
    case PointerEnc => ["", "", "p", "p"][k]
    case ArrayEnc => ["", "", "q", "q"][k]
    case Float => ["", "", "F", "f"][k]
    case SInt => ["A", "B", "C", "D"][k]
    case UInt => ["a", "b", "c", "d"][k]
    case _ => ""
  }

  /** getEncodedName exactly as written: every non-object type, arrays
      included, is looked up by its size, and an array's size is 16. */
  function EncodedNameAsWritten(t: Type): (r: Result<string, string>)
    ensures r.Ok? <==> Encodable(t) && ArrayFree(t)
    ensures r.Ok? ==> r == EncodedName(t)
    ensures r.Err? ==> r.error == "invalid size"
    decreases t, 1, 0
  {
    match t
    case Bare(n) => Ok("O" + n + "$Z")
    case Object(n, xs) =>
      var inner :- ArgsEncodedAsWritten(t, xs);
      Ok("O" + n + "$" + inner + "Z")
    case ArrayOf(_) =>
      // An array's size is ObjectSize, which the size switch does not list.
      assert SizeLog2(ObjectSize).None?;
      Err("invalid size")
    case PointerTo(n, s) =>
      var k :- SizeLog2(n).ToResult("invalid size");
      var sub :- EncodedNameAsWritten(s);
      Ok(EncodedLetter(PointerEnc, k) + sub)
    case Primitive(_, e, n) =>
      var k :- SizeLog2(n).ToResult("invalid size");
      Ok(EncodedLetter(e, k))
    case NullType => Err("invalid size")
  }

  function ArgsEncodedAsWritten(owner: Type, xs: seq<Type>): (r: Result<string, string>)
    requires forall x :: x in xs ==> x < owner
    ensures r.Ok? <==> forall i :: 0 <= i < |xs| ==> Encodable(xs[i]) && ArrayFree(xs[i])
    ensures r.Ok? ==> r == ArgsEncoded(owner, xs)
    ensures r.Err? ==> r.error == "invalid size"
    decreases owner, 0, |xs|
  {
    if xs == [] then Ok("")
    else
      assert xs[0] in xs;
      var head :- EncodedNameAsWritten(xs[0]);
      assert forall x :: x in xs[1..] ==> x in xs;
      var tail :- ArgsEncodedAsWritten(owner, xs[1..]);
      Ok(head + tail)
  }

  /** getEncodedName as the encoding table and its comment intend it: an
      array is 'q' followed by its element type, like a pointer is 'p'. */
  function EncodedName(t: Type): (r: Result<string, string>)
    ensures r.Ok? <==> Encodable(t)
    decreases t, 1, 0
  {
    match t
    case Bare(n) => Ok("O" + n + "$Z")
    case Object(n, xs) =>
      var inner :- ArgsEncoded(t, xs);
      Ok("O" + n + "$" + inner + "Z")
    case ArrayOf(s) =>
      var sub :- EncodedName(s);
      Ok("q" + sub)
    case PointerTo(n, s) =>
      var k :- SizeLog2(n).ToResult("invalid size");
      var sub :- EncodedName(s);
      Ok(EncodedLetter(PointerEnc, k) + sub)
    case Primitive(_, e, n) =>
      var k :- SizeLog2(n).ToResult("invalid size");
      Ok(EncodedLetter(e, k))
    case NullType => Err("invalid size")
  }

  function ArgsEncoded(owner: Type, xs: seq<Type>): (r: Result<string, string>)
    requires forall x :: x in xs ==> x < owner
    ensures r.Ok? <==> forall i :: 0 <= i < |xs| ==> Encodable(xs[i])
    decreases owner, 0, |xs|
  {
    if xs == [] then Ok("")
    else
      assert xs[0] in xs;
      var head :- EncodedName(xs[0]);
      assert forall x :: x in xs[1..] ==> x in xs;
      var tail :- ArgsEncoded(owner, xs[1..]);
      Ok(head + tail)
  }

  /** Every array, whatever its element type, fails to encode as written; the
      intended encoding of int[] is "qC". */
  lemma ArrayEncodingFails(bits: nat)
    ensures EncodedNameAsWritten(ArrayOf(BaseType(bits, "int", None))) == Err("invalid size")
    ensures EncodedName(ArrayOf(BaseType(bits, "int", None))) == Ok("qC")
  {
    assert BaseType(bits, "int", None) == Primitive("int", SInt, 4);
    assert SizeLog2(4) == Some(2);
    assert EncodedLetter(SInt, 2) == "C";
    assert EncodedName(Primitive("int", SInt, 4)) == Ok("C");
    assert "q" + "C" == "qC";
  }

  /** The two encoders agree on every type that holds no array. */
  lemma {:induction false} EncodersAgreeWithoutArrays(t: Type)
    requires ArrayFree(t)
    ensures EncodedNameAsWritten(t) == EncodedName(t)
    decreases t, 1, 0
  {
    match t
    case Object(n, xs) => ArgsEncodersAgree(t, xs);
    case PointerTo(_, s) => EncodersAgreeWithoutArrays(s);
    case _ =>
  }

  lemma {:induction false} ArgsEncodersAgree(owner: Type, xs: seq<Type>)
    requires forall x :: x in xs ==> x < owner && ArrayFree(x)
    ensures ArgsEncodedAsWritten(owner, xs) == ArgsEncoded(owner, xs)
    decreases owner, 0, |xs|
  {
    if xs != [] {
      assert xs[0] in xs;
      EncodersAgreeWithoutArrays(xs[0]);
      assert forall x :: x in xs[1..] ==> x in xs;
      ArgsEncodersAgree(owner, xs[1..]);
    }
  }

  /** The types getEncodedName can name: every primitive and pointer size in
      them is 1, 2, 4 or 8 bytes, and none of them is the null type. */
  predicate Encodable(t: Type)
    decreases t
  {
    match t
    case Primitive(_, _, n) => SizeLog2(n).Some?
    case ArrayOf(s) => Encodable(s)
    case PointerTo(n, s) => SizeLog2(n).Some? && Encodable(s)
    case Bare(_) => true
    case Object(_, xs) => forall i :: 0 <= i < |xs| ==> Encodable(xs[i])
    case NullType => false
  }

  predicate ArrayFree(t: Type)
    decreases t
  {
    match t
    case ArrayOf(_) => false
    case PointerTo(_, s) => ArrayFree(s)
    case Object(_, xs) => forall i :: 0 <= i < |xs| ==> ArrayFree(xs[i])
    case _ => true
  }

  /** The types that have an encoded name: primitives built by baseType for a
      32- or 64-bit target, pointers of the target's size, and objects whose
      name holds no '$'. The null type has no encoding. */
  predicate WellFormed(bits: nat, t: Type)
    decreases t
  {
    (bits == 32 || bits == 64) &&
    match t
    case Primitive(n, e, s) => PrimitiveEncoding(n) == Some(e) && s == PrimitiveSize(bits, n)
    case ArrayOf(s) => WellFormed(bits, s)
    case PointerTo(n, s) => n == bits / 8 && WellFormed(bits, s)
    case Bare(n) => '$' !in n
    case Object(n, xs) => '$' !in n && forall i :: 0 <= i < |xs| ==> WellFormed(bits, xs[i])
    case NullType => false
  }

  // ---------------------------------------------------------------------
  // Decoding

  /** The base-type name each primitive letter decodes to. */
  function LetterName(c: char): Option<string> {
    match c
    case 'A' => Some("i8")
    case 'B' => Some("i16")
    case 'C' => Some("int")
    case 'D' => Some("i64")
    case 'a' => Some("u8")
    case 'b' => Some("u16")
    case 'c' => Some("unsigned")
    case 'd' => Some("u64")
    case 'F' => Some("float")
    case 'f' => Some("double")
    case _ => None
  }

  /** The private fromEncodedName exactly as written. `pos` is the index of
      the last character consumed, yet the public entry starts it at 0, and
      every step increments it before reading: the first character is
      skipped, the object name keeps its 'O', and an argument's first
      character is skipped. Err stands for an exception, an Ok(None) for a
      null return, and the position returned is the new pos[0]. */
  function DecodeAtAsWritten(bits: nat, s: string, pos: nat): (r: Result<Option<(Type, nat)>, string>)
    ensures r.Ok? && r.value.Some? ==> pos < r.value.value.1 < |s|
    decreases |s| - pos, 0
  {
    if pos >= |s| then Ok(None)
    else
      var p := pos + 1;
      if p >= |s| then Err("string index out of range")
      else if LetterName(s[p]).Some? then Ok(Some((BaseType(bits, LetterName(s[p]).value, None), p)))
      else if s[p] == 'q' || s[p] == 'p' then
        var sub :- DecodeAtAsWritten(bits, s, p);
        if sub.None? then Ok(None)
        else if s[p] == 'q' then Ok(Some((ArrayOf(sub.value.0), sub.value.1)))
        else Ok(Some((PointerTo(bits / 8, sub.value.0), sub.value.1)))
      else if s[p] == 'O' then
        var dollar := IndexOfFrom(s, '$', p);
        if dollar == -1 then Ok(None)
        else
          var basename := s[p..dollar];
          var q := dollar + 1;
          if q >= |s| then Err("string index out of range")
          else if s[q] == 'Z' then Ok(Some((Bare(basename), q)))
          else ArgsDecodedAsWritten(bits, s, q, basename, [])
      else Ok(None)
  }

  /** The argument loop of the 'O' case as written. */
  function ArgsDecodedAsWritten(bits: nat, s: string, pos: nat, basename: string, acc: seq<Type>): (r: Result<Option<(Type, nat)>, string>)
    ensures r.Ok? && r.value.Some? ==> pos <= r.value.value.1 < |s|
    decreases |s| - pos, 1
  {
    if pos >= |s| then Ok(None)
    else if s[pos] == 'Z' then Ok(Some((Object(basename, acc), pos)))
    else
      var sub :- DecodeAtAsWritten(bits, s, pos);
      if sub.None? then Ok(None)
      else ArgsDecodedAsWritten(bits, s, sub.value.1, basename, acc + [sub.value.0])
  }

  /** The public fromEncodedName as written: null unless pos[0] ends on the
      last character. */
  function FromEncodedNameAsWritten(bits: nat, s: string): (r: Result<Option<Type>, string>)
    ensures |s| == 1 ==> r.Err?
    ensures r.Ok? && r.value.Some? ==> |s| >= 2
  {
    var r :- DecodeAtAsWritten(bits, s, 0);
    if r.None? || r.value.1 != |s| - 1 then Ok(None) else Ok(Some(r.value.0))
  }

  /** Decoding the encoding of `int` throws, while a string with one junk
      character in front decodes to `int`. */
  lemma DecodeAsWrittenSkipsFirst()
    ensures EncodedName(BaseType(64, "int", None)) == Ok("C")
    ensures FromEncodedNameAsWritten(64, "C").Err?
    ensures FromEncodedNameAsWritten(64, "xC") == Ok(Some(BaseType(64, "int", None)))
  {
  }

  /** The decoder as intended: `pos` is the next character to read and is
      returned one past the last character consumed. */
  function DecodeAt(bits: nat, s: string, pos: nat): (r: Option<(Type, nat)>)
    ensures r.Some? ==> pos < r.value.1 <= |s|
    decreases |s| - pos, 0
  {
    if pos >= |s| then None
    else
      var c := s[pos];
      var p := pos + 1;
      if LetterName(c).Some? then Some((BaseType(bits, LetterName(c).value, None), p))
      else if c == 'q' || c == 'p' then
        var sub :- DecodeAt(bits, s, p);
        if c == 'q' then Some((ArrayOf(sub.0), sub.1)) else Some((PointerTo(bits / 8, sub.0), sub.1))
      else if c == 'O' then
        var dollar := IndexOfFrom(s, '$', p);
        if dollar == -1 then None
        else
          var q := dollar + 1;
          if q < |s| && s[q] == 'Z' then Some((Bare(s[p..dollar]), q + 1))
          else DecodeArgs(bits, s, q, s[p..dollar], [])
      else None
  }

  /** The argument loop: decode arguments until a 'Z'. */
  function DecodeArgs(bits: nat, s: string, pos: nat, name: string, acc: seq<Type>): (r: Option<(Type, nat)>)
    ensures r.Some? ==> pos < r.value.1 <= |s|
    decreases |s| - pos, 1
  {
    if pos >= |s| then None
    else if s[pos] == 'Z' then Some((Object(name, acc), pos + 1))
    else
      var sub :- DecodeAt(bits, s, pos);
      DecodeArgs(bits, s, sub.1, name, acc + [sub.0])
  }

  /** fromEncodedName as intended: the whole string must be one type. */
  function FromEncodedName(bits: nat, s: string): (r: Option<Type>)
    ensures r.Some? ==> |s| > 0 && IsTypeLead(s[0])
  {
    match DecodeAt(bits, s, 0)
    case Some((t, p)) => if p == |s| then Some(t) else None
    case None => None
  }

  // ---------------------------------------------------------------------
  // Equivalence

  /** Type.equals exactly as written: comparing two object types throws when
      either argument list is null (Err), once the names agree. Wherever it
      returns, it returns what the documented equivalence does. */
  function EqualsAsWritten(a: Type, b: Type): (r: Result<bool, string>)
    ensures r.Ok? ==> r.value == Equals(a, b)
    decreases a, 1, 0
  {
    if EncodingOf(a) != EncodingOf(b) then Ok(false)
    else
      match a
      case Primitive(_, _, s) => Ok(s == SizeOf(b))
      case ArrayOf(x) => EqualsAsWritten(x, b.sub)
      case PointerTo(_, x) => EqualsAsWritten(x, b.sub)
      case Bare(n) => if n != b.name then Ok(false) else Err("null pointer")
      case Object(n, xs) =>
        if n != b.name then Ok(false)
        else if b.Bare? then Err("null pointer")
        else if |xs| != |b.args| then Ok(false)
        else ArgsEqualAsWritten(a, xs, b.args)
      case NullType => Ok(false)
  }

  /** The element loop: the first throw or mismatch decides. */
  function ArgsEqualAsWritten(owner: Type, xs: seq<Type>, ys: seq<Type>): (r: Result<bool, string>)
    requires forall x :: x in xs ==> x < owner
    requires |xs| == |ys|
    ensures r.Ok? ==> r.value == ArgsEqual(owner, xs, ys)
    decreases owner, 0, |xs|
  {
    if xs == [] then Ok(true)
    else
      assert xs[0] in xs;
      var head :- EqualsAsWritten(xs[0], ys[0]);
      if !head then Ok(false)
      else
        assert forall x :: x in xs[1..] ==> x in xs;
        ArgsEqualAsWritten(owner, xs[1..], ys[1..])
  }

  /** Any object type without arguments, compared to itself, throws. */
  lemma EqualsAsWrittenThrows()
    ensures EqualsAsWritten(Bare("string"), Bare("string")).Err?
    ensures Equals(Bare("string"), Bare("string"))
  {
  }

  /** Type.equals as documented: integers and floats by sign and size, arrays
      and pointers by element type, objects by name and arguments, with a
      null argument list read as empty. The null type equals nothing. */
  function Equals(a: Type, b: Type): bool
    decreases a, 1, 0
  {
    match a
    case Primitive(_, e, s) => b.Primitive? && b.encoding == e && b.size == s
    case ArrayOf(x) => b.ArrayOf? && Equals(x, b.sub)
    case PointerTo(_, x) => b.PointerTo? && Equals(x, b.sub)
    case Bare(n) => (b.Bare? || b.Object?) && b.name == n && ArgsOf(b) == []
    case Object(n, xs) => (b.Bare? || b.Object?) && b.name == n && ArgsEqual(a, xs, ArgsOf(b))
    case NullType => false
  }

  predicate ArgsEqual(owner: Type, xs: seq<Type>, ys: seq<Type>)
    requires forall x :: x in xs ==> x < owner
    decreases owner, 0, |xs|
  {
    |xs| == |ys| &&
    (xs == [] ||
      ((assert xs[0] in xs; Equals(xs[0], ys[0])) &&
        (assert forall x :: x in xs[1..] ==> x in xs; ArgsEqual(owner, xs[1..], ys[1..]))))
  }

  /** ArgsEqual is pointwise Equals, whatever the owner. */
  lemma {:induction false} ArgsEqualPointwise(owner: Type, xs: seq<Type>, ys: seq<Type>)
    requires forall x :: x in xs ==> x < owner
    ensures ArgsEqual(owner, xs, ys) <==> |xs| == |ys| && forall i :: 0 <= i < |xs| ==> Equals(xs[i], ys[i])
    decreases |xs|
  {
    if xs != [] && |xs| == |ys| {
      assert forall x :: x in xs[1..] ==> x in xs;
      ArgsEqualPointwise(owner, xs[1..], ys[1..]);
      assert forall i :: 1 <= i < |xs| ==> xs[1..][i - 1] == xs[i] && ys[1..][i - 1] == ys[i];
    }
  }

  lemma {:induction false} EqualsSymmetric(a: Type, b: Type)
    requires Equals(a, b)
    ensures Equals(b, a)
    decreases a
  {
    match a
    case ArrayOf(x) => EqualsSymmetric(x, b.sub);
    case PointerTo(_, x) => EqualsSymmetric(x, b.sub);
    case Object(n, xs) =>
      ArgsEqualPointwise(a, xs, ArgsOf(b));
      forall i | 0 <= i < |xs|
        ensures Equals(ArgsOf(b)[i], xs[i])
      {
        EqualsSymmetric(xs[i], ArgsOf(b)[i]);
      }
      if b.Object? {
        ArgsEqualPointwise(b, b.args, xs);
      }
    case _ =>
  }

  lemma {:induction false} EqualsTransitive(a: Type, b: Type, c: Type)
    requires Equals(a, b) && Equals(b, c)
    ensures Equals(a, c)
    decreases a
  {
    match a
    case ArrayOf(x) => EqualsTransitive(x, b.sub, c.sub);
    case PointerTo(_, x) => EqualsTransitive(x, b.sub, c.sub);
    case Bare(n) =>
      if b.Object? {
        ArgsEqualPointwise(b, b.args, ArgsOf(c));
      }
    case Object(n, xs) =>
      ArgsEqualPointwise(a, xs, ArgsOf(b));
      if b.Object? {
        ArgsEqualPointwise(b, b.args, ArgsOf(c));
      }
      forall i | 0 <= i < |xs|
        ensures Equals(xs[i], ArgsOf(c)[i])
      {
        EqualsTransitive(xs[i], ArgsOf(b)[i], ArgsOf(c)[i]);
      }
      ArgsEqualPointwise(a, xs, ArgsOf(c));
    case _ =>
  }

  /** The characters an encoded name can start with. */
  predicate IsTypeLead(c: char) {
    LetterName(c).Some? || c == 'q' || c == 'p' || c == 'O'
  }

  /** Every well-formed type has an encoded name, and it is non-empty and
      starts with a type letter. */
  lemma {:induction false} WellFormedEncodes(bits: nat, t: Type)
    requires WellFormed(bits, t)
    ensures EncodedName(t).Ok?
    ensures |EncodedName(t).value| > 0 && IsTypeLead(EncodedName(t).value[0])
    decreases t, 1, 0
  {
    match t
    case ArrayOf(s) => WellFormedEncodes(bits, s);
    case PointerTo(_, s) => WellFormedEncodes(bits, s);
    case Object(_, xs) => WellFormedArgsEncode(bits, t, xs);
    case Primitive(n, e, size) =>
      assert size in {1, 2, 4, 8};
      assert e == Float ==> size in {4, 8};
    case _ =>
  }

  lemma {:induction false} WellFormedArgsEncode(bits: nat, owner: Type, xs: seq<Type>)
    requires forall x :: x in xs ==> x < owner && WellFormed(bits, x)
    ensures ArgsEncoded(owner, xs).Ok?
    decreases owner, 0, |xs|
  {
    if xs != [] {
      assert xs[0] in xs;
      WellFormedEncodes(bits, xs[0]);
      assert forall x :: x in xs[1..] ==> x in xs;
      WellFormedArgsEncode(bits, owner, xs[1..]);
    }
  }

  /** Equivalent well-formed types have the same encoded name. */
  lemma {:induction false} EqualsSameEncoding(bits: nat, a: Type, b: Type)
    requires WellFormed(bits, a) && WellFormed(bits, b)
    requires Equals(a, b)
    ensures EncodedName(a) == EncodedName(b)
    decreases a
  {
    match a
    case ArrayOf(x) => EqualsSameEncoding(bits, x, b.sub);
    case PointerTo(_, x) => EqualsSameEncoding(bits, x, b.sub);
    case Object(n, xs) =>
      ArgsEqualPointwise(a, xs, ArgsOf(b));
      if b.Object? {
        forall i | 0 <= i < |xs|
          ensures EncodedName(xs[i]) == EncodedName(b.args[i])
        {
          EqualsSameEncoding(bits, xs[i], b.args[i]);
        }
        ArgsEncodedPointwise(a, b, xs, b.args);
      } else {
        assert "O" + n + "$" + "" + "Z" == "O" + n + "$Z";
      }
    case Bare(n) =>
      assert "O" + n + "$" + "" + "Z" == "O" + n + "$Z";
    case _ =>
  }

  /** Argument lists whose elements encode alike encode alike. */
  lemma {:induction false} ArgsEncodedPointwise(o1: Type, o2: Type, xs: seq<Type>, ys: seq<Type>)
    requires forall x :: x in xs ==> x < o1
    requires forall y :: y in ys ==> y < o2
    requires |xs| == |ys| && forall i :: 0 <= i < |xs| ==> EncodedName(xs[i]) == EncodedName(ys[i])
    ensures ArgsEncoded(o1, xs) == ArgsEncoded(o2, ys)
    decreases |xs|
  {
    if xs != [] {
      assert forall x :: x in xs[1..] ==> x in xs;
      assert forall y :: y in ys[1..] ==> y in ys;
      assert forall i :: 1 <= i < |xs| ==> xs[1..][i - 1] == xs[i] && ys[1..][i - 1] == ys[i];
      ArgsEncodedPointwise(o1, o2, xs[1..], ys[1..]);
    }
  }

  /** A primitive's letter decodes to a base type of the same encoding and
      size. */
  lemma LetterRoundTrip(bits: nat, t: Type)
    requires WellFormed(bits, t) && t.Primitive?
    ensures EncodedName(t).Ok? && |EncodedName(t).value| == 1
    ensures LetterName(EncodedName(t).value[0]).Some?
    ensures Equals(t, BaseType(bits, LetterName(EncodedName(t).value[0]).value, None))
  {
    WellFormedEncodes(bits, t);
  }

  /** Decoding the encoded name of a well-formed type, wherever it sits in a
      string, consumes exactly that name and yields an equivalent type. */
  lemma {:induction false} DecodeEncoded(bits: nat, t: Type, s: string, pos: nat)
    requires WellFormed(bits, t)
    requires EncodedName(t).Ok?
    requires pos + |EncodedName(t).value| <= |s|
    requires s[pos..pos + |EncodedName(t).value|] == EncodedName(t).value
    ensures DecodeAt(bits, s, pos).Some?
    ensures DecodeAt(bits, s, pos).value.1 == pos + |EncodedName(t).value|
    ensures Equals(t, DecodeAt(bits, s, pos).value.0)
    decreases t, 1, 0
  {
    match t
    case Primitive(_, _, _) =>
      LetterRoundTrip(bits, t);
      assert s[pos] == EncodedName(t).value[0];
    case ArrayOf(_) => DecodeEncodedLayer(bits, t, s, pos);
    case PointerTo(_, _) => DecodeEncodedLayer(bits, t, s, pos);
    case Bare(n) =>
      DecodeObjectName(s, pos, n, "Z");
    case Object(_, xs) => DecodeEncodedObject(bits, t, s, pos);
  }

  lemma {:induction false} DecodeEncodedLayer(bits: nat, t: Type, s: string, pos: nat)
    requires WellFormed(bits, t) && (t.ArrayOf? || t.PointerTo?)
    requires EncodedName(t).Ok?
    requires pos + |EncodedName(t).value| <= |s|
    requires s[pos..pos + |EncodedName(t).value|] == EncodedName(t).value
    ensures DecodeAt(bits, s, pos).Some?
    ensures DecodeAt(bits, s, pos).value.1 == pos + |EncodedName(t).value|
    ensures Equals(t, DecodeAt(bits, s, pos).value.0)
    decreases t, 0, 0
  {
    var ex := EncodedName(t.sub).value;
    var lead := if t.ArrayOf? then "q" else "p";
    assert EncodedName(t).value == lead + ex;
    SliceConcat(s, pos, lead, ex);
    assert s[pos] == lead[0];
    DecodeEncoded(bits, t.sub, s, pos + 1);
  }

  lemma {:induction false} DecodeEncodedObject(bits: nat, t: Type, s: string, pos: nat)
    requires WellFormed(bits, t) && t.Object?
    requires EncodedName(t).Ok?
    requires pos + |EncodedName(t).value| <= |s|
    requires s[pos..pos + |EncodedName(t).value|] == EncodedName(t).value
    ensures DecodeAt(bits, s, pos).Some?
    ensures DecodeAt(bits, s, pos).value.1 == pos + |EncodedName(t).value|
    ensures Equals(t, DecodeAt(bits, s, pos).value.0)
    decreases t, 0, |t.args| + 1
  {
    var n, xs := t.name, t.args;
    var q := pos + |n| + 2;
    ObjectLayout(bits, t, s, pos);
    if xs == [] {
      EmptyObjectDecodes(bits, t, s, pos);
    } else {
      WellFormedArgsEncode(bits, t, xs);
      ArgsEncodedLead(bits, t, xs);
      DecodeArgsEncoded(bits, t, xs, s, q, n, []);
      ObjectDecodes(bits, n, s, pos, q);
      ExtendsEquals(t, DecodeArgs(bits, s, q, n, []).value.0);
    }
  }

  /** Where the parts of an object's encoded name sit in `s`. */
  lemma ObjectLayout(bits: nat, t: Type, s: string, pos: nat)
    requires WellFormed(bits, t) && t.Object?
    requires EncodedName(t).Ok?
    requires pos + |EncodedName(t).value| <= |s|
    requires s[pos..pos + |EncodedName(t).value|] == EncodedName(t).value
    ensures ArgsEncoded(t, t.args).Ok? && '$' !in t.name
    ensures |EncodedName(t).value| == |t.name| + 3 + |ArgsEncoded(t, t.args).value|
    ensures s[pos] == 'O' && s[pos + 1..pos + 1 + |t.name|] == t.name
    ensures IndexOfFrom(s, '$', pos + 1) == pos + 1 + |t.name|
    ensures s[pos + |t.name| + 2..pos + |t.name| + 2 + |ArgsEncoded(t, t.args).value|] == ArgsEncoded(t, t.args).value
    ensures s[pos + |t.name| + 2 + |ArgsEncoded(t, t.args).value|] == 'Z'
  {
    var n := t.name;
    var inner := ArgsEncoded(t, t.args).value;
    assert EncodedName(t).value == "O" + n + "$" + (inner + "Z");
    DecodeObjectName(s, pos, n, inner + "Z");
    SliceConcat(s, pos + |n| + 2, inner, "Z");
  }

  /** The 'O' case with an empty argument list yields the bare object. */
  lemma EmptyObjectDecodes(bits: nat, t: Type, s: string, pos: nat)
    requires t.Object? && t.args == [] && '$' !in t.name
    requires IndexOfFrom(s, '$', pos + 1) == pos + 1 + |t.name|
    requires pos + |t.name| + 3 <= |s|
    requires s[pos] == 'O' && s[pos + 1..pos + 1 + |t.name|] == t.name && s[pos + |t.name| + 2] == 'Z'
    ensures DecodeAt(bits, s, pos) == Some((Bare(t.name), pos + |t.name| + 3))
    ensures Equals(t, Bare(t.name))
  {
  }

  /** The 'O' case with arguments hands over to the argument loop. */
  lemma ObjectDecodes(bits: nat, name: string, s: string, pos: nat, q: nat)
    requires q == pos + |name| + 2 && q < |s|
    requires IndexOfFrom(s, '$', pos + 1) == pos + 1 + |name|
    requires s[pos] == 'O' && s[pos + 1..pos + 1 + |name|] == name && IsTypeLead(s[q])
    ensures DecodeAt(bits, s, pos) == DecodeArgs(bits, s, q, name, [])
  {
  }

  /** An object equals the decoded object whose arguments are equivalent
      to its own. */
  lemma ExtendsEquals(t: Type, d: Type)
    requires t.Object? && ExtendsEquivalent(d, t.name, [], t.args)
    ensures Equals(t, d)
  {
    forall i | 0 <= i < |t.args|
      ensures Equals(t.args[i], d.args[i])
    {
      var e: seq<Type> := [];
      assert Equals(t.args[i], d.args[|e| + i]);
    }
    ArgsEqualPointwise(t, t.args, d.args);
  }

  /** The 'O' case finds the object name up to the first '$'. */
  lemma DecodeObjectName(s: string, pos: nat, n: string, rest: string)
    requires '$' !in n
    requires pos + |n| + 2 + |rest| <= |s|
    requires s[pos..pos + |n| + 2 + |rest|] == "O" + n + "$" + rest
    ensures s[pos] == 'O'
    ensures IndexOfFrom(s, '$', pos + 1) == pos + 1 + |n|
    ensures s[pos + 1..pos + 1 + |n|] == n
    ensures s[pos + |n| + 2..pos + |n| + 2 + |rest|] == rest
  {
    var w := "O" + n + "$" + rest;
    assert forall j :: pos + 1 <= j < pos + 1 + |n| ==> s[j] == w[j - pos] == n[j - pos - 1];
    assert s[pos + 1 + |n|] == w[1 + |n|] == '$';
    IndexOfFromFirst(s, '$', pos + 1, pos + 1 + |n|);
    assert s[pos + 1..pos + 1 + |n|] == w[1..1 + |n|];
    assert s[pos + |n| + 2..pos + |n| + 2 + |rest|] == w[|n| + 2..];
  }

  /** A non-empty argument list encodes to a string starting with a type
      letter, never with the closing 'Z'. */
  lemma ArgsEncodedLead(bits: nat, owner: Type, xs: seq<Type>)
    requires forall x :: x in xs ==> x < owner && WellFormed(bits, x)
    requires xs != [] && ArgsEncoded(owner, xs).Ok?
    ensures |ArgsEncoded(owner, xs).value| > 0 && IsTypeLead(ArgsEncoded(owner, xs).value[0])
  {
    assert xs[0] in xs;
    WellFormedEncodes(bits, xs[0]);
  }

  /** `r` is an object type named `name` whose arguments are `acc` followed
      by a list equivalent to `xs`. */
  predicate ExtendsEquivalent(r: Type, name: string, acc: seq<Type>, xs: seq<Type>) {
    r.Object? && r.name == name && |r.args| == |acc| + |xs| && r.args[..|acc|] == acc &&
    forall i :: 0 <= i < |xs| ==> Equals(xs[i], r.args[|acc| + i])
  }

  /** The argument loop decodes the concatenated encodings of a list, up to
      its 'Z', to an equivalent list. */
  lemma {:induction false} DecodeArgsEncoded(bits: nat, owner: Type, xs: seq<Type>, s: string, pos: nat, name: string, acc: seq<Type>)
    requires forall x :: x in xs ==> x < owner && WellFormed(bits, x)
    requires ArgsEncoded(owner, xs).Ok?
    requires pos + |ArgsEncoded(owner, xs).value| < |s|
    requires s[pos..pos + |ArgsEncoded(owner, xs).value|] == ArgsEncoded(owner, xs).value
    requires s[pos + |ArgsEncoded(owner, xs).value|] == 'Z'
    ensures DecodeArgs(bits, s, pos, name, acc).Some?
    ensures DecodeArgs(bits, s, pos, name, acc).value.1 == pos + |ArgsEncoded(owner, xs).value| + 1
    ensures ExtendsEquivalent(DecodeArgs(bits, s, pos, name, acc).value.0, name, acc, xs)
    decreases owner, 0, |xs|, 1
  {
    if xs == [] {
      assert ArgsEncoded(owner, xs).value == "";
      assert DecodeArgs(bits, s, pos, name, acc) == Some((Object(name, acc), pos + 1));
      assert acc[..|acc|] == acc;
      assert ExtendsEquivalent(Object(name, acc), name, acc, xs);
    } else {
      DecodeArgsEncodedCons(bits, owner, xs, s, pos, name, acc);
    }
  }

  lemma {:induction false} DecodeArgsEncodedCons(bits: nat, owner: Type, xs: seq<Type>, s: string, pos: nat, name: string, acc: seq<Type>)
    requires forall x :: x in xs ==> x < owner && WellFormed(bits, x)
    requires xs != [] && ArgsEncoded(owner, xs).Ok?
    requires pos + |ArgsEncoded(owner, xs).value| < |s|
    requires s[pos..pos + |ArgsEncoded(owner, xs).value|] == ArgsEncoded(owner, xs).value
    requires s[pos + |ArgsEncoded(owner, xs).value|] == 'Z'
    ensures DecodeArgs(bits, s, pos, name, acc).Some?
    ensures DecodeArgs(bits, s, pos, name, acc).value.1 == pos + |ArgsEncoded(owner, xs).value| + 1
    ensures ExtendsEquivalent(DecodeArgs(bits, s, pos, name, acc).value.0, name, acc, xs)
    decreases owner, 0, |xs|, 0
  {
    ArgsEncodedSplit(owner, xs);
    var head := EncodedName(xs[0]).value;
    var tail := ArgsEncoded(owner, xs[1..]).value;
    WellFormedEncodes(bits, xs[0]);
    SliceConcat(s, pos, head, tail);
    DecodeEncoded(bits, xs[0], s, pos);
    var d := DecodeAt(bits, s, pos).value.0;
    DecodeArgsUnfold(bits, s, pos, name, acc);
    assert forall x :: x in xs[1..] ==> x in xs;
    DecodeArgsEncoded(bits, owner, xs[1..], s, pos + |head|, name, acc + [d]);
    var r := DecodeArgs(bits, s, pos + |head|, name, acc + [d]);
    assert DecodeArgs(bits, s, pos, name, acc) == r;
    assert r.value.1 == pos + |head| + |tail| + 1;
    ArgsStep(r.value.0, name, acc, d, xs);
  }

  lemma ArgsEncodedSplit(owner: Type, xs: seq<Type>)
    requires forall x :: x in xs ==> x < owner
    requires xs != [] && ArgsEncoded(owner, xs).Ok?
    ensures xs[0] in xs && EncodedName(xs[0]).Ok?
    ensures forall x :: x in xs[1..] ==> x < owner
    ensures ArgsEncoded(owner, xs[1..]).Ok?
    ensures ArgsEncoded(owner, xs).value == EncodedName(xs[0]).value + ArgsEncoded(owner, xs[1..]).value
  {
    assert xs[0] in xs;
    assert forall x :: x in xs[1..] ==> x in xs;
  }

  /** One pass of the argument loop. */
  lemma DecodeArgsUnfold(bits: nat, s: string, pos: nat, name: string, acc: seq<Type>)
    requires pos < |s| && IsTypeLead(s[pos]) && DecodeAt(bits, s, pos).Some?
    ensures DecodeArgs(bits, s, pos, name, acc)
         == DecodeArgs(bits, s, DecodeAt(bits, s, pos).value.1, name, acc + [DecodeAt(bits, s, pos).value.0])
  {
  }

  lemma ArgsStep(r: Type, name: string, acc: seq<Type>, d: Type, xs: seq<Type>)
    requires xs != [] && Equals(xs[0], d)
    requires ExtendsEquivalent(r, name, acc + [d], xs[1..])
    ensures ExtendsEquivalent(r, name, acc, xs)
  {
    assert r.args[..|acc|] == (r.args[..|acc| + 1])[..|acc|];
    forall i | 0 <= i < |xs|
      ensures Equals(xs[i], r.args[|acc| + i])
    {
      if i > 0 {
        assert xs[i] == xs[1..][i - 1];
        assert |acc| + i == |acc + [d]| + (i - 1);
      } else {
        assert r.args[|acc|] == (r.args[..|acc| + 1])[|acc|];
      }
    }
  }

  /** fromEncodedName (as intended) inverts getEncodedName up to Equals, as
      the documentation of getEncodedName promises. */
  lemma FromEncodedNameRoundTrip(bits: nat, t: Type)
    requires WellFormed(bits, t)
    ensures EncodedName(t).Ok?
    ensures FromEncodedName(bits, EncodedName(t).value).Some?
    ensures Equals(t, FromEncodedName(bits, EncodedName(t).value).value)
  {
    WellFormedEncodes(bits, t);
    var e := EncodedName(t).value;
    assert e[0..|e|] == e;
    DecodeEncoded(bits, t, e, 0);
  }

  /** Two well-formed types are equivalent exactly when their encoded names
      are the same string. */
  lemma EncodedNameIffEquals(bits: nat, a: Type, b: Type)
    requires WellFormed(bits, a) && WellFormed(bits, b)
    ensures EncodedName(a).Ok? && EncodedName(b).Ok?
    ensures Equals(a, b) <==> EncodedName(a) == EncodedName(b)
  {
    FromEncodedNameRoundTrip(bits, a);
    FromEncodedNameRoundTrip(bits, b);
    if Equals(a, b) {
      EqualsSameEncoding(bits, a, b);
    }
    if EncodedName(a) == EncodedName(b) {
      var d := FromEncodedName(bits, EncodedName(a).value).value;
      EqualsSymmetric(b, d);
      EqualsTransitive(a, d, b);
    }
  }

  /** Equals is reflexive on well-formed types. */
  lemma EqualsReflexive(bits: nat, t: Type)
    requires WellFormed(bits, t)
    ensures Equals(t, t)
  {
    EncodedNameIffEquals(bits, t, t);
  }

  // ---------------------------------------------------------------------
  // The decoder as a cursor over the string

  /** The shared `int[] pos` of fromEncodedName as a reader object: `pos` is
      the next character to read. */
  class EncodedNameReader {
    const bits: nat
    const text: string
    var pos: nat

    constructor(bits: nat, text: string)
      ensures this.bits == bits && this.text == text && pos == 0
    {
      this.bits := bits;
      this.text := text;
      pos := 0;
    }

    /** One type from the cursor on; on success the cursor is just past it. */
    method ReadType() returns (t: Option<Type>)
      modifies this
      ensures t.Some? <==> DecodeAt(bits, text, old(pos)).Some?
      ensures t.Some? ==> DecodeAt(bits, text, old(pos)) == Some((t.value, pos))
      decreases |text| - pos, 0
    {
      if pos >= |text| {
        return None;
      }
      var c := text[pos];
      pos := pos + 1;
      if LetterName(c).Some? {
        return Some(BaseType(bits, LetterName(c).value, None));
      } else if c == 'q' || c == 'p' {
        var sub := ReadType();
        if sub.None? {
          return None;
        }
        if c == 'q' {
          return Some(ArrayOf(sub.value));
        } else {
          return Some(PointerTo(bits / 8, sub.value));
        }
      } else if c == 'O' {
        var dollar := IndexOfFrom(text, '$', pos);
        if dollar == -1 {
          return None;
        }
        var basename := text[pos..dollar];
        pos := dollar + 1;
        if pos < |text| && text[pos] == 'Z' {
          pos := pos + 1;
          return Some(Bare(basename));
        }
        t := ReadArgs(basename);
      } else {
        return None;
      }
    }

    /** The argument loop of an object type, up to and past its 'Z'. */
    method ReadArgs(basename: string) returns (t: Option<Type>)
      modifies this
      ensures t.Some? <==> DecodeArgs(bits, text, old(pos), basename, []).Some?
      ensures t.Some? ==> DecodeArgs(bits, text, old(pos), basename, []) == Some((t.value, pos))
      decreases |text| - pos, 1
    {
      ghost var goal := DecodeArgs(bits, text, pos, basename, []);
      var args: seq<Type> := [];
      while pos < |text| && text[pos] != 'Z'
        invariant DecodeArgs(bits, text, pos, basename, args) == goal
        decreases |text| - pos
      {
        ghost var before := pos;
        var sub := ReadType();
        if sub.None? {
          return None;
        }
        assert DecodeAt(bits, text, before) == Some((sub.value, pos));
        args := args + [sub.value];
      }
      if pos >= |text| {
        return None;
      }
      pos := pos + 1;
      return Some(Object(basename, args));
    }
  }

  /** The public fromEncodedName, run on a fresh reader. */
  method FromEncodedNameMethod(bits: nat, s: string) returns (t: Option<Type>)
    ensures t == FromEncodedName(bits, s)
  {
    var reader := new EncodedNameReader(bits, s);
    t := reader.ReadType();
    if t.Some? && reader.pos != |s| {
      t := None;
    }
  }

  // ---------------------------------------------------------------------
  // Implicit coercion of pure types

  predicate IsIntEncoding(e: Encoding) { e == SInt || e == UInt }

  /** The pure Type.coerce(Type, Type): the destination when the types are
      equivalent, for a widening of the same sign, and from the null type to
      an integer, object, array or pointer type; otherwise null (None). The
      array-to-pointer case throws (Err). */
  function Coerce(v: Type, d: Type): (r: Result<Option<Type>, string>)
    ensures r.Ok? && r.value.Some? ==> r.value.value == d
    ensures r.Err? <==> !Equals(v, d) && v.ArrayOf? && d.PointerTo? && Equals(v.sub, d.sub)
  {
    if Equals(v, d) then Ok(Some(d))
    else if EncodingOf(v) == SInt && EncodingOf(d) == SInt && SizeOf(v) <= SizeOf(d) then Ok(Some(d))
    else if EncodingOf(v) == UInt && EncodingOf(d) == UInt && SizeOf(v) <= SizeOf(d) then Ok(Some(d))
    else if v.ArrayOf? && d.PointerTo? && Equals(v.sub, d.sub) then Err("T[] to T* cast not implemented yet")
    else if v.NullType? && (IsIntEncoding(EncodingOf(d)) || EncodingOf(d) in {ObjectEnc, ArrayEnc, PointerEnc})
    then Ok(Some(d))
    else Ok(None)
  }

  /** Type.coerce(Type, Type) exactly as written: it starts with the written
      equals, which throws for object types without arguments, and the
      array-to-pointer test compares the element types with it too. Where it
      returns, it returns what Coerce does. */
  function CoerceAsWritten(v: Type, d: Type): (r: Result<Option<Type>, string>)
    ensures r.Ok? ==> r == Coerce(v, d)
    ensures EqualsAsWritten(v, d).Err? ==> r.Err?
  {
    var same :- EqualsAsWritten(v, d);
    if same then Ok(Some(d))
    else if EncodingOf(v) == SInt && EncodingOf(d) == SInt && SizeOf(v) <= SizeOf(d) then Ok(Some(d))
    else if EncodingOf(v) == UInt && EncodingOf(d) == UInt && SizeOf(v) <= SizeOf(d) then Ok(Some(d))
    else if v.ArrayOf? && d.PointerTo? then
      var sameSub :- EqualsAsWritten(v.sub, d.sub);
      if sameSub then Err("T[] to T* cast not implemented yet") else Ok(None)
    else if v.NullType? && (IsIntEncoding(EncodingOf(d)) || EncodingOf(d) in {ObjectEnc, ArrayEnc, PointerEnc})
    then Ok(Some(d))
    else Ok(None)
  }

  /** Coercing `string` to itself throws as written, where the intended
      coercion leaves it as it is. */
  lemma CoerceAsWrittenThrows()
    ensures CoerceAsWritten(Bare("string"), Bare("string")).Err?
    ensures Coerce(Bare("string"), Bare("string")) == Ok(Some(Bare("string")))
  {
  }

  /** Equivalent types share their encoding, and their size when they are
      primitives. */
  lemma EqualsKeepsEncoding(a: Type, b: Type)
    requires Equals(a, b)
    ensures EncodingOf(a) == EncodingOf(b)
    ensures a.Primitive? ==> SizeOf(a) == SizeOf(b)
  {
  }

  /** Every well-formed type coerces to itself. */
  lemma CoerceReflexive(bits: nat, t: Type)
    requires WellFormed(bits, t)
    ensures Coerce(t, t) == Ok(Some(t))
  {
    EqualsReflexive(bits, t);
  }

  /** An integer only coerces to an integer of the same sign that is at least
      as wide: coercion never narrows and never changes sign. */
  lemma CoerceNeverNarrows(v: Type, d: Type)
    requires IsIntEncoding(EncodingOf(v))
    requires Coerce(v, d) == Ok(Some(d))
    ensures EncodingOf(d) == EncodingOf(v) && SizeOf(v) <= SizeOf(d)
  {
    if Equals(v, d) {
      EqualsKeepsEncoding(v, d);
    }
  }

  /** Nothing coerces to the null type, and the null type coerces exactly to
      integer, object, array and pointer types. */
  lemma CoerceNull(v: Type, d: Type)
    ensures Coerce(v, NullType) == Ok(None)
    ensures Coerce(NullType, d).Ok?
    ensures Coerce(NullType, d).value.Some? <==> EncodingOf(d) in {SInt, UInt, ObjectEnc, ArrayEnc, PointerEnc}
  {
  }

  /** Two implicit coercions in a row amount to one. */
  lemma CoerceTransitive(a: Type, b: Type, c: Type)
    requires Coerce(a, b) == Ok(Some(b)) && Coerce(b, c) == Ok(Some(c))
    ensures Coerce(a, c) == Ok(Some(c))
  {
    if Equals(a, b) {
      EqualsKeepsEncoding(a, b);
    }
    if Equals(b, c) {
      EqualsKeepsEncoding(b, c);
    }
    if Equals(a, b) && Equals(b, c) {
      EqualsTransitive(a, b, c);
    }
  }

  // ---------------------------------------------------------------------
  // The printable form

  /** Type.toString: the base name, "[]" or "*" after the element type, and
      object arguments in angle brackets separated by ", ". */
  function ToString(t: Type): string
    decreases t, 1, 0
  {
    match t
    case Primitive(n, _, _) => n
    case ArrayOf(s) => ToString(s) + "[]"
    case PointerTo(_, s) => ToString(s) + "*"
    case NullType => "null"
    case Bare(n) => n
    case Object(n, xs) => n + "<" + ArgsString(t, xs) + ">"
  }

  function ArgsString(owner: Type, xs: seq<Type>): string
    requires forall x :: x in xs ==> x < owner
    decreases owner, 0, |xs|
  {
    if xs == [] then ""
    else
      assert xs[0] in xs;
      assert forall x :: x in xs[1..] ==> x in xs;
      if |xs| == 1 then ToString(xs[0]) else ToString(xs[0]) + ", " + ArgsString(owner, xs[1..])
  }

  /** The written form of a modifier list, in order. */
  function Suffixes(mods: seq<Modifier>): string {
    if mods == [] then ""
    else Suffixes(mods[..|mods| - 1]) + (if mods[|mods| - 1] == ArrayMod then "[]" else "*")
  }

  /** A type built from a name and modifiers prints as the name followed by
      the modifiers in the order they were given. */
  lemma {:induction false} ToStringOfMakeType(bits: nat, name: string, mods: seq<Modifier>)
    ensures ToString(MakeType(bits, name, None, mods)) == name + Suffixes(mods)
    decreases |mods|
  {
    if mods != [] {
      ToStringOfMakeType(bits, name, mods[..|mods| - 1]);
    }
  }

  /** The constructor's documented example, map<string, int>[]*[]. */
  lemma ToStringExample(bits: nat)
    ensures ToString(MakeType(bits, "map", Some([BaseType(bits, "string", None), BaseType(bits, "int", None)]),
                              [ArrayMod, PointerMod, ArrayMod]))
         == "map<string, int>[]*[]"
  {
    var m := Object("map", [Bare("string"), Primitive("int", SInt, 4)]);
    assert PrimitiveEncoding("map") == None;
    assert BaseType(bits, "string", None) == Bare("string");
    assert BaseType(bits, "int", None) == Primitive("int", SInt, 4);
    assert ArgsString(m, m.args) == "string, int";
    assert ToString(m) == "map<string, int>";
    var mods := [ArrayMod, PointerMod, ArrayMod];
    assert mods[..2] == [ArrayMod, PointerMod] && mods[..2][..1] == [ArrayMod] && mods[..2][..1][..0] == [];
    var args := Some([BaseType(bits, "string", None), BaseType(bits, "int", None)]);
    assert MakeType(bits, "map", args, []) == m;
    assert MakeType(bits, "map", args, mods) == ArrayOf(PointerTo(bits / 8, ArrayOf(m)));
    assert ToString(ArrayOf(m)) == "map<string, int>" + "[]";
    assert ToString(PointerTo(bits / 8, ArrayOf(m))) == "map<string, int>" + "[]" + "*";
    assert ToString(ArrayOf(PointerTo(bits / 8, ArrayOf(m)))) == "map<string, int>" + "[]" + "*" + "[]";
    assert "map<string, int>" + "[]" + "*" + "[]" == "map<string, int>[]*[]";
  }
}
