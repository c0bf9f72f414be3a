/** The allowed-cast decision table of explicit casts
    (src/java/me/pavlina/alco/codegen/Cast.java, checkTypes).

    Cast.java also names a boolean encoding and a const-insensitive equality
    that Type.java does not define; here a cast operand is either a Type or
    the boolean type, and the const-insensitive equality is Types.Equals with
    the boolean type equal only to itself. */
module Cast {
  import opened Wrappers
  import opened Types
  import opened IntLimits

  datatype CastType = Typed(t: Type) | BoolType

  /** The encoding of a cast operand, the boolean type having its own. */
  datatype CastEncoding = Enc(e: Encoding) | BoolEnc

  function EncOf(c: CastType): CastEncoding {
    if c.BoolType? then BoolEnc else Enc(EncodingOf(c.t))
  }

  function Size(c: CastType): int {
    if c.BoolType? then 1 else SizeOf(c.t)
  }

  function EqualsNoConst(a: CastType, b: CastType): bool {
    if a.BoolType? || b.BoolType? then a.BoolType? && b.BoolType? else Equals(a.t, b.t)
  }

  /** The outcome of checkTypes: accepted, a compile error with its message,
      one of the "NOT IMPLEMENTED YET" runtime exceptions, or the
      NullPointerException that Type.equals throws on element types. */
  datatype Verdict = Accepted | CompileError(message: string) | Unimplemented | NullPointer

  predicate IsInt(e: CastEncoding) { e == Enc(SInt) || e == Enc(UInt) }

  /** The range an integer literal must fall in for a destination. The size
      test falls through to the 8-bit range, as written. */
  function LiteralRange(signed: bool, size: int): (r: (int, int))
    ensures r.0 <= 0 < r.1
  {
    if signed then
      if size == 8 then (I64Min, I64Max)
      else if size == 4 then (I32Min, I32Max)
      else if size == 2 then (I16Min, I16Max)
      else (I8Min, I8Max)
    else
      if size == 8 then (0, U64Max)
      else if size == 4 then (0, U32Max)
      else if size == 2 then (0, U16Max)
      else (0, U8Max)
  }

  const OutsideRange := "integer literal outside range for type"
  const SignAndWidth := "cannot cast integer in both sign and width;\nsign and width casts are not commutative"
  const NarrowToPointer := "invalid cast: narrow integer to pointer"
  const SignedToPointer := "invalid cast: signed integer to pointer"
  const PointerToNarrow := "invalid cast: pointer to narrow integer"
  const PointerToSigned := "invalid cast: pointer to signed integer"
  const InvalidCast := "invalid cast"

  /** The table after the literal check: which pairs of operand types may be
      cast into each other, in the order the branches are tried. The element
      types of an array-to-pointer cast are compared with Type.equals as
      written. Equal operands always cast, and the runtime exceptions only
      come from an array source. */
  function CheckTable(bits: nat, src: CastType, dst: CastType): (r: Verdict)
    ensures EqualsNoConst(src, dst) ==> r == Accepted
    ensures r == Unimplemented ==> EncOf(src) == Enc(ArrayEnc) && EncOf(dst) in {Enc(PointerEnc), BoolEnc}
    ensures r == NullPointer ==> EncOf(src) == Enc(ArrayEnc) && EncOf(dst) == Enc(PointerEnc)
  {
    var s, d := EncOf(src), EncOf(dst);
    if EqualsNoConst(src, dst) then Accepted
    else if ((s == Enc(SInt) && d == Enc(UInt)) || (s == Enc(UInt) && d == Enc(SInt))) && Size(src) != Size(dst)
    then CompileError(SignAndWidth)
    else if IsInt(s) && IsInt(d) then Accepted
    else if (IsInt(s) && d == BoolEnc) || (IsInt(d) && s == BoolEnc) then Accepted
    else if (IsInt(s) && d == Enc(Float)) || (s == Enc(Float) && IsInt(d)) then Accepted
    else if s == Enc(Float) && d == Enc(Float) && Size(src) != Size(dst) then Accepted
    else if s == Enc(PointerEnc) && (d == Enc(PointerEnc) || d == BoolEnc) then Accepted
    else if s == Enc(PointerEnc) && d == Enc(UInt) && Size(dst) >= bits / 8 then Accepted
    else if s == Enc(UInt) && d == Enc(PointerEnc) && Size(src) >= bits / 8 then Accepted
    else if s == Enc(UInt) && d == Enc(PointerEnc) then CompileError(NarrowToPointer)
    else if s == Enc(SInt) && d == Enc(PointerEnc) then CompileError(SignedToPointer)
    else if s == Enc(PointerEnc) && d == Enc(UInt) then CompileError(PointerToNarrow)
    else if s == Enc(PointerEnc) && d == Enc(SInt) then CompileError(PointerToSigned)
    else if s == Enc(ArrayEnc) && d == Enc(PointerEnc) then
      match EqualsAsWritten(src.t.sub, dst.t.sub)
      case Err(_) => NullPointer
      case Ok(same) => if same then Unimplemented else CompileError(InvalidCast)
    else if s == Enc(ArrayEnc) && d == BoolEnc then Unimplemented
    else if s == Enc(NullEnc) && (IsInt(d) || d in {Enc(ObjectEnc), Enc(ArrayEnc), Enc(PointerEnc), BoolEnc}) then Accepted
    else CompileError(InvalidCast)
  }

  /** checkTypes exactly as written: the literal check tests the destination
      against SINT twice, so it never runs for an unsigned destination. */
  function CheckTypesAsWritten(bits: nat, src: CastType, dst: CastType, literal: Option<int>): (r: Verdict)
    ensures EncOf(dst) != Enc(SInt) ==> r == CheckTable(bits, src, dst)
    ensures r == CompileError(OutsideRange) ==> literal.Some? && IsInt(EncOf(src)) && EncOf(dst) == Enc(SInt)
  {
    if IsInt(EncOf(src)) && (EncOf(dst) == Enc(SInt) || EncOf(dst) == Enc(SInt)) && literal.Some? then
      var (lo, hi) := LiteralRange(EncOf(dst) == Enc(SInt), Size(dst));
      if lo > literal.value || hi < literal.value then CompileError(OutsideRange) else Accepted
    else CheckTable(bits, src, dst)
  }

  /** checkTypes as its unsigned range table shows it is meant: the literal
      check covers signed and unsigned destinations. Only an integer literal
      cast to an integer type can be out of range, and without a literal the
      table alone decides. */
  function CheckTypes(bits: nat, src: CastType, dst: CastType, literal: Option<int>): (r: Verdict)
    ensures r == CompileError(OutsideRange) ==> literal.Some? && IsInt(EncOf(src)) && IsInt(EncOf(dst))
    ensures literal.None? ==> r == CheckTable(bits, src, dst)
  {
    if IsInt(EncOf(src)) && IsInt(EncOf(dst)) && literal.Some? then
      var (lo, hi) := LiteralRange(EncOf(dst) == Enc(SInt), Size(dst));
      if lo > literal.value || hi < literal.value then CompileError(OutsideRange) else Accepted
    else CheckTable(bits, src, dst)
  }

  function Int(name: string): CastType {
    Typed(BaseType(64, name, None))
  }

  /** Casting the literal -1 to u32 passes as written; the intended check
      rejects it. */
  lemma UnsignedLiteralUnchecked()
    ensures CheckTypesAsWritten(64, Int("int"), Int("u32"), Some(-1)) == Accepted
    ensures CheckTypes(64, Int("int"), Int("u32"), Some(-1)) == CompileError(OutsideRange)
  {
    assert BaseType(64, "int", None) == Primitive("int", SInt, 4);
    assert BaseType(64, "u32", None) == Primitive("u32", UInt, 4);
  }

  /** An integer literal cast to an integer type is accepted exactly when it
      lies in the destination's range. */
  lemma LiteralInRange(bits: nat, src: CastType, dst: CastType, v: int)
    requires IsInt(EncOf(src)) && IsInt(EncOf(dst))
    ensures var (lo, hi) := LiteralRange(EncOf(dst) == Enc(SInt), Size(dst));
      (CheckTypes(bits, src, dst, Some(v)) == Accepted <==> lo <= v <= hi) &&
      (CheckTypes(bits, src, dst, Some(v)) != Accepted ==> CheckTypes(bits, src, dst, Some(v)) == CompileError(OutsideRange))
  {
  }

  /** Literal ranges of the primitive types are those of IntLimits. */
  lemma LiteralRanges()
    ensures LiteralRange(true, 1) == (-128, 127) && LiteralRange(false, 1) == (0, 255)
    ensures LiteralRange(true, 4) == (-0x8000_0000, 0x7fff_ffff) && LiteralRange(false, 4) == (0, 0xffff_ffff)
  {
  }

  /** Equal types always cast, unless an integer literal is out of range. */
  lemma IdenticalAccepted(bits: nat, src: CastType, dst: CastType, literal: Option<int>)
    requires EqualsNoConst(src, dst)
    requires literal.None? || !IsInt(EncOf(src))
    ensures CheckTypes(bits, src, dst, literal) == Accepted
  {
  }

  /** A sign change together with a width change is refused. */
  lemma SignAndWidthRefused(bits: nat, src: CastType, dst: CastType, literal: Option<int>)
    requires (EncOf(src) == Enc(SInt) && EncOf(dst) == Enc(UInt)) || (EncOf(src) == Enc(UInt) && EncOf(dst) == Enc(SInt))
    requires Size(src) != Size(dst) && literal.None?
    ensures CheckTypes(bits, src, dst, literal) == CompileError(SignAndWidth)
  {
    assert !Equals(src.t, dst.t);
  }

  /** Casts among integers, floats and booleans: everything but a combined
      sign and width change, and between floats and booleans, is accepted. */
  lemma ScalarCasts(bits: nat, src: CastType, dst: CastType)
    requires EncOf(src) in {Enc(SInt), Enc(UInt), Enc(Float), BoolEnc}
    requires EncOf(dst) in {Enc(SInt), Enc(UInt), Enc(Float), BoolEnc}
    ensures CheckTypes(bits, src, dst, None) == Accepted <==>
      (!(IsInt(EncOf(src)) && IsInt(EncOf(dst)) && EncOf(src) != EncOf(dst) && Size(src) != Size(dst)) &&
       !(EncOf(src) == Enc(Float) && EncOf(dst) == BoolEnc) &&
       !(EncOf(src) == BoolEnc && EncOf(dst) == Enc(Float)))
  {
    if EncOf(src) == Enc(Float) && EncOf(dst) == Enc(Float) && Size(src) == Size(dst) {
      assert Equals(src.t, dst.t);
    }
    if EncOf(src) == EncOf(dst) && IsInt(EncOf(src)) && Size(src) == Size(dst) {
      assert Equals(src.t, dst.t);
    }
  }

  /** Between pointers and unsigned integers a cast is allowed in either
      direction exactly when the integer is at least as wide as a pointer;
      signed integers never convert to or from pointers. */
  lemma PointerIntegerCasts(bits: nat, p: CastType, i: CastType)
    requires EncOf(p) == Enc(PointerEnc) && IsInt(EncOf(i))
    ensures EncOf(i) == Enc(UInt) ==>
      (CheckTypes(bits, p, i, None) == Accepted <==> Size(i) >= bits / 8) &&
      (CheckTypes(bits, i, p, None) == Accepted <==> Size(i) >= bits / 8) &&
      (Size(i) < bits / 8 ==>
        (CheckTypes(bits, p, i, None) == CompileError(PointerToNarrow) &&
         CheckTypes(bits, i, p, None) == CompileError(NarrowToPointer)))
    ensures EncOf(i) == Enc(SInt) ==>
      CheckTypes(bits, p, i, None) == CompileError(PointerToSigned) &&
      CheckTypes(bits, i, p, None) == CompileError(SignedToPointer)
  {
  }

  /** Object types cast only to equal object types; anything else involving
      an object type as the source is an invalid cast. */
  lemma ObjectCasts(bits: nat, src: CastType, dst: CastType, literal: Option<int>)
    requires EncOf(src) == Enc(ObjectEnc)
    ensures CheckTypes(bits, src, dst, literal) == (if EqualsNoConst(src, dst) then Accepted else CompileError(InvalidCast))
  {
  }

  /** Casting an array of an argument-less object type to a pointer to the
      same type throws from Type.equals before the "NOT IMPLEMENTED YET"
      branch is reached; with the documented equality it is that branch. */
  lemma ArrayOfBareToPointer(bits: nat)
    ensures CheckTable(bits, Typed(ArrayOf(Bare("string"))), Typed(PointerTo(8, Bare("string")))) == NullPointer
  {
    assert !Equals(ArrayOf(Bare("string")), PointerTo(8, Bare("string")));
  }

  /** Nothing casts to the null type. */
  lemma NothingCastsToNull(bits: nat, src: CastType, t: Type, literal: Option<int>)
    requires EncodingOf(t) == NullEnc
    ensures CheckTypes(bits, src, Typed(t), literal) == CompileError(InvalidCast)
  {
  }
}
