/** Variable and function name resolution
    (src/java/me/pavlina/alco/language/Resolver.java). A resolver holds the
    names declared in one scope; a child resolver made for a nested scope
    sees its parent's variables and functions and shares its
    disambiguation counts and global counter. */
module Resolver {
  import opened Wrappers
  import opened Text
  import opened Types
  import opened FunctionLike

  /** Where a token stands: zero-based line and column. */
  datatype Pos = Pos(line: nat, col: nat)

  /** Resolver.Variable: the declared name, the disambiguation count, the
      declared type and the prefix of the real name ("%" for locals, "@" for
      globally available locals). */
  datatype Variable = Variable(name: string, count: nat, ty: Type, prefix: string)

  /** A declared function: what equals and the mangling read, and whether it
      may share its name with others. */
  datatype Fn = Fn(sig: Signature, allowConflict: bool)

  /** A declared function as the resolver holds it: the declaration and the
      identities of its argument Type objects, one per argument type. Java
      compares these lists by identity (see SameDeclarationAsWritten). */
  datatype FnObj = FnObj(fn: Fn, ids: seq<nat>)

  /** The declarations of the held functions. */
  function Fns(gs: seq<FnObj>): (fs: seq<Fn>)
    ensures |fs| == |gs| && forall k :: 0 <= k < |gs| ==> fs[k] == gs[k].fn
  {
    if gs == [] then [] else [gs[0].fn] + Fns(gs[1..])
  }

  const CannotResolveName := "cannot resolve name"
  const DuplicateDeclaration := "duplicate function declaration"
  const DuplicateName := "duplicate function name"

  /** Variable.getName: the prefix and the name, followed by "." and the
      count when the count is not zero. */
  function RealName(v: Variable): string {
    if v.count == 0 then v.prefix + v.name
    else v.prefix + v.name + "." + NatToString(v.count)
  }

  /** Two variables of the same declared name and prefix have the same real
      name only when they have the same count. */
  lemma RealNameInjective(v: Variable, w: Variable)
    requires v.name == w.name && v.prefix == w.prefix
    requires RealName(v) == RealName(w)
    ensures v.count == w.count
  {
    var head := v.prefix + v.name;
    if v.count != 0 && w.count != 0 {
      NatToStringDigits(v.count);
      NatToStringDigits(w.count);
      assert RealName(v)[|head| + 1..] == NatToString(v.count);
      assert RealName(w)[|head| + 1..] == NatToString(w.count);
    }
  }

  /** The error for a name declared twice in one scope, with the earlier
      declaration's one-based line and column. */
  function AlreadyDeclared(name: string, at: Pos): string {
    "variable '" + name + "' already declared at " + NatToString(at.line + 1) + ":" + NatToString(at.col + 1)
  }

  /** The disambiguation count the next local of a name receives. */
  function CountOf(counts: map<string, nat>, name: string): nat {
    if name in counts then counts[name] else 0
  }

  /** The counts a resolver shares with every resolver made from it. */
  class Counts {
    var counts: map<string, nat>
    var global: nat

    constructor ()
      ensures counts == map[] && global == 0
    {
      counts := map[];
      global := 0;
    }
  }

  class Resolver {
    const shared: Counts
    var declared: map<string, Pos>
    var variables: map<string, Variable>
    var functions: seq<FnObj>
    var handleOOM: bool
    var handleOOB: bool

    /** Every local visible here has a count below its name's shared count,
        so the next local of that name gets a real name different from it. */
    predicate Valid()
      reads this, shared
    {
      forall n :: n in variables && variables[n].prefix == "%" ==>
        variables[n].name in shared.counts && variables[n].count < shared.counts[variables[n].name]
    }

    /** A brand new resolver, with no names at all. */
    constructor ()
      ensures fresh(shared) && shared.counts == map[] && shared.global == 0
      ensures declared == map[] && variables == map[] && functions == []
      ensures !handleOOM && !handleOOB
      ensures Valid()
    {
      shared := new Counts();
      declared := map[];
      variables := map[];
      functions := [];
      handleOOM := false;
      handleOOB := false;
    }

    /** A resolver for a nested scope: the other's variables and functions,
        nothing declared in it yet, and the other's counts shared. */
    constructor Nested(other: Resolver)
      ensures shared == other.shared
      ensures declared == map[] && variables == other.variables && functions == other.functions
      ensures handleOOM == other.handleOOM && handleOOB == other.handleOOB
      ensures other.Valid() ==> Valid()
    {
      shared := other.shared;
      declared := map[];
      variables := other.variables;
      functions := other.functions;
      handleOOM := other.handleOOM;
      handleOOB := other.handleOOB;
    }

    /** clear: forgets the shared disambiguation counts. */
    method Clear()
      modifies shared
      ensures shared.counts == map[] && shared.global == old(shared.global)
    {
      shared.counts := map[];
    }

    method SetHandleOOM(b: bool)
      modifies this
      ensures handleOOM == b && handleOOB == old(handleOOB)
      ensures declared == old(declared) && variables == old(variables) && functions == old(functions)
    {
      handleOOM := b;
    }

    method SetHandleOOB(b: bool)
      modifies this
      ensures handleOOB == b && handleOOM == old(handleOOM)
      ensures declared == old(declared) && variables == old(variables) && functions == old(functions)
    {
      handleOOB := b;
    }

    /** addVariable: an error naming the earlier declaration when the name
        was declared in this scope; otherwise a local whose count is the
        shared count of its name, which then goes up by one. */
    method AddVariable(name: string, ty: Type, at: Pos) returns (r: Result<Variable, string>)
      modifies this, shared
      ensures name in old(declared) ==>
        r == Err(AlreadyDeclared(name, old(declared)[name])) &&
        declared == old(declared) && variables == old(variables) && shared.counts == old(shared.counts)
      ensures name !in old(declared) ==>
        var c := CountOf(old(shared.counts), name);
        r == Ok(Variable(name, c, ty, "%")) &&
        declared == old(declared)[name := at] &&
        variables == old(variables)[name := r.value] &&
        shared.counts == old(shared.counts)[name := c + 1]
      ensures functions == old(functions) && shared.global == old(shared.global)
      ensures handleOOM == old(handleOOM) && handleOOB == old(handleOOB)
      ensures old(Valid()) ==> Valid()
      ensures old(Valid()) && r.Ok? ==>
        forall n :: n in old(variables) && old(variables)[n].prefix == "%" && old(variables)[n].name == name ==>
          RealName(old(variables)[n]) != RealName(r.value)
    {
      if name in declared {
        return Err(AlreadyDeclared(name, declared[name]));
      }
      declared := declared[name := at];
      var count := CountOf(shared.counts, name);
      var v := Variable(name, count, ty, "%");
      shared.counts := shared.counts[name := count + 1];
      variables := variables[name := v];
      r := Ok(v);
      forall n | n in old(variables) && old(variables)[n].prefix == "%" && old(variables)[n].name == name && old(Valid())
        ensures RealName(old(variables)[n]) != RealName(v)
      {
        if RealName(old(variables)[n]) == RealName(v) {
          RealNameInjective(old(variables)[n], v);
        }
      }
    }

    /** addGlobalLocal: takes the next number of the shared global counter,
        even when the name turns out to be declared already, and makes a
        global-prefixed variable named by that number. */
    method AddGlobalLocal(name: string, ty: Type, at: Pos) returns (r: Result<Variable, string>)
      modifies this, shared
      ensures shared.global == old(shared.global) + 1 && shared.counts == old(shared.counts)
      ensures name in old(declared) ==>
        r == Err(AlreadyDeclared(name, old(declared)[name])) &&
        declared == old(declared) && variables == old(variables)
      ensures name !in old(declared) ==>
        r == Ok(Variable(NatToString(old(shared.global)), 0, ty, "@")) &&
        declared == old(declared)[name := at] &&
        variables == old(variables)[name := r.value]
      ensures functions == old(functions)
      ensures handleOOM == old(handleOOM) && handleOOB == old(handleOOB)
      ensures old(Valid()) ==> Valid()
    {
      var num := shared.global;
      shared.global := shared.global + 1;
      if name in declared {
        return Err(AlreadyDeclared(name, declared[name]));
      }
      declared := declared[name := at];
      var v := Variable(NatToString(num), 0, ty, "@");
      variables := variables[name := v];
      r := Ok(v);
    }

    /** getVariable: the variable visible under the name. */
    function GetVariable(name: string): (r: Result<Variable, string>)
      reads this
      ensures r.Ok? <==> name in variables
      ensures r.Ok? ==> r.value == variables[name]
      ensures r.Err? ==> r.error == CannotResolveName
    {
      if name in variables then Ok(variables[name]) else Err(CannotResolveName)
    }

    /** addFunction: the first conflict with a function already visible is
        reported; without one the function is appended. Declarations are
        compared as written, argument lists by identity. */
    method AddFunction(f: FnObj) returns (r: Option<string>)
      modifies this
      ensures r == AddCheckAsWritten(old(functions), f)
      ensures functions == if r.None? then old(functions) + [f] else old(functions)
      ensures declared == old(declared) && variables == old(variables)
      ensures handleOOM == old(handleOOM) && handleOOB == old(handleOOB)
    {
      var i := 0;
      while i < |functions|
        invariant 0 <= i <= |functions|
        invariant AddCheckAsWritten(functions, f) == AddCheckAsWritten(functions[i..], f)
      {
        var g := functions[i];
        assert functions[i..][0] == g && functions[i..][1..] == functions[i + 1..];
        if SameDeclarationAsWritten(g, f) {
          return Some(DuplicateDeclaration);
        }
        if NameClash(g.fn, f.fn) {
          return Some(DuplicateName);
        }
        i := i + 1;
      }
      functions := functions + [f];
      r := None;
    }

    /** getFunction: the one best match for a call of `name` with arguments
        of types `args`, held in the Type objects `argIds`; `coerce(k, t)`
        says whether argument k can be implicitly converted to t. The
        exact-match test compares the argument lists by identity, as
        written. */
    method GetFunction(name: string, args: seq<Type>, argIds: seq<nat>, coerce: (nat, Type) -> bool) returns (r: Result<Fn, string>)
      ensures r == ResolveAsWritten(functions, name, args, argIds, coerce)
    {
      var matches: seq<Fn> := [];
      var candidates: seq<Fn> := [];
      var level := 7;
      var i := 0;
      while i < |functions|
        invariant 0 <= i <= |functions|
        invariant ScanFromAsWritten(functions, i, Scan(matches, candidates, level), name, args, argIds, coerce) ==
                  ScanFromAsWritten(functions, 0, Initial, name, args, argIds, coerce)
      {
        var g := functions[i];
        var f := g.fn;
        ghost var before := Scan(matches, candidates, level);
        ghost var step := StepWith(before, f, name, args, coerce, g.ids == argIds);
        assert ScanFromAsWritten(functions, i, before, name, args, argIds, coerce) ==
          if step.Stop? then step.s else ScanFromAsWritten(functions, i + 1, step.s, name, args, argIds, coerce);
        i := i + 1;
        if f.sig.name != name {
          assert step == Next(Scan(matches, candidates, level));
          continue;
        }
        candidates := candidates + [f];
        if f.sig.nomangle {
          candidates := [f];
          if |args| != |f.sig.argtypes| {
            matches := [];
            assert step == Stop(Scan(matches, candidates, level));
            break;
          }
          var ok := CoercesAll(args, f.sig.argtypes, coerce);
          if !ok {
            matches := [];
          }
          if level > 0 {
            level := 0;
            matches := [];
          }
          matches := matches + [f];
          assert step == Next(Scan(matches, candidates, level));
          continue;
        }
        if level < 1 {
          assert step == Next(Scan(matches, candidates, level));
          continue;
        }
        if g.ids == argIds {
          if level > 1 {
            level := 1;
            matches := [];
          }
          matches := matches + [f];
          assert step == Next(Scan(matches, candidates, level));
          continue;
        }
        if level < 2 {
          assert step == Next(Scan(matches, candidates, level));
          continue;
        }
        var promoted := CoercesAll(args, f.sig.argtypes, coerce);
        if promoted {
          if level > 2 {
            level := 2;
            matches := [];
          }
          matches := matches + [f];
        }
        assert step == Next(Scan(matches, candidates, level));
      }
      r := Finish(matches, name, args);
    }
  }

  /** Whether every argument converts to the declared type at its position,
      the counts being equal. */
  predicate Coercible(args: seq<Type>, targets: seq<Type>, coerce: (nat, Type) -> bool) {
    |args| == |targets| && forall k :: 0 <= k < |args| ==> coerce(k, targets[k])
  }

  method CoercesAll(args: seq<Type>, targets: seq<Type>, coerce: (nat, Type) -> bool) returns (ok: bool)
    ensures ok == Coercible(args, targets, coerce)
  {
    ok := |args| == |targets|;
    var k := 0;
    while k < |args| && ok
      invariant 0 <= k <= |args|
      invariant ok == (|args| == |targets| && forall j :: 0 <= j < k ==> coerce(j, targets[j]))
    {
      if !coerce(k, targets[k]) {
        ok := false;
      }
      k := k + 1;
    }
  }

  // ---------------------------------------------------------------------
  // Declaring functions

  /** The name rule: a mangled function may not share its name with an
      earlier unmangled one unless one of the two allows the conflict; an
      unmangled function may not share its name with any earlier one unless
      it allows the conflict itself. */
  predicate NameClash(earlier: Fn, f: Fn) {
    if !f.sig.nomangle then
      earlier.sig.nomangle && earlier.sig.name == f.sig.name && !earlier.allowConflict && !f.allowConflict
    else
      earlier.sig.name == f.sig.name && !f.allowConflict
  }

  /** A function may follow another in the list when it is not the same
      declaration and the name rule allows it. */
  predicate Compatible(earlier: Fn, f: Fn) {
    !SameDeclaration(earlier.sig, f.sig) && !NameClash(earlier, f)
  }

  /** The error addFunction reports for `f`: that of the first function
      already declared that it conflicts with. */
  function AddCheck(fs: seq<Fn>, f: Fn): (r: Option<string>)
    ensures r.Some? ==> r.value == DuplicateDeclaration || r.value == DuplicateName
    ensures r == Some(DuplicateDeclaration) ==> exists i :: 0 <= i < |fs| && SameDeclaration(fs[i].sig, f.sig)
  {
    if fs == [] then None
    else if SameDeclaration(fs[0].sig, f.sig) then Some(DuplicateDeclaration)
    else if NameClash(fs[0], f) then Some(DuplicateName)
    else AddCheck(fs[1..], f)
  }

  /** FunctionLike.equals as written: the name, the mangle status and the
      argument lists, which List.equals compares element by element with
      Object.equals. Type overloads equals(Type) but does not override
      equals(Object), so that is identity. */
  predicate SameDeclarationAsWritten(a: FnObj, b: FnObj) {
    a.fn.sig.name == b.fn.sig.name && a.fn.sig.nomangle == b.fn.sig.nomangle && a.ids == b.ids
  }

  /** The error addFunction reports as written: AddCheck with declarations
      compared by SameDeclarationAsWritten. */
  function AddCheckAsWritten(gs: seq<FnObj>, f: FnObj): (r: Option<string>)
    ensures r.Some? ==> r.value == DuplicateDeclaration || r.value == DuplicateName
    ensures r == Some(DuplicateDeclaration) ==> exists i :: 0 <= i < |gs| && SameDeclarationAsWritten(gs[i], f)
  {
    if gs == [] then None
    else if SameDeclarationAsWritten(gs[0], f) then Some(DuplicateDeclaration)
    else if NameClash(gs[0].fn, f.fn) then Some(DuplicateName)
    else AddCheckAsWritten(gs[1..], f)
  }

  /** For each held function, identity of the argument lists decides as the
      documented equality does. */
  predicate IdentityAgrees(gs: seq<FnObj>, f: FnObj) {
    forall i :: 0 <= i < |gs| ==> (gs[i].ids == f.ids <==> AllEquals(gs[i].fn.sig.argtypes, f.fn.sig.argtypes))
  }

  /** Where identity and the documented equality agree, addFunction as
      written reports what AddCheck does; DuplicateAcceptedAsWritten shows
      an input where they part. */
  lemma {:induction false} AddCheckAsWrittenAgrees(gs: seq<FnObj>, f: FnObj)
    requires IdentityAgrees(gs, f)
    ensures AddCheckAsWritten(gs, f) == AddCheck(Fns(gs), f.fn)
  {
    if gs != [] {
      assert Fns(gs)[1..] == Fns(gs[1..]);
      AddCheckAsWrittenAgrees(gs[1..], f);
    }
  }

  /** addFunction accepts exactly the functions compatible with every
      function already declared. */
  lemma {:induction false} AddCheckAccepts(fs: seq<Fn>, f: Fn)
    ensures AddCheck(fs, f).None? <==> forall i :: 0 <= i < |fs| ==> Compatible(fs[i], f)
  {
    if fs != [] {
      AddCheckAccepts(fs[1..], f);
      assert forall i :: 1 <= i < |fs| ==> fs[i] == fs[1..][i - 1];
    }
  }

  /** Every function in the list is compatible with every one before it. */
  predicate Consistent(fs: seq<Fn>) {
    forall i, j :: 0 <= i < j < |fs| ==> Compatible(fs[i], fs[j])
  }

  /** A list built by addFunction alone stays consistent. */
  lemma AddKeepsConsistent(fs: seq<Fn>, f: Fn)
    requires Consistent(fs) && AddCheck(fs, f).None?
    ensures Consistent(fs + [f])
  {
    AddCheckAccepts(fs, f);
  }

  /** In a consistent list where no function allows conflicts, an unmangled
      function is the only function of its name. */
  lemma NomangleAlone(fs: seq<Fn>, k: nat)
    requires Consistent(fs) && k < |fs| && fs[k].sig.nomangle
    requires forall i :: 0 <= i < |fs| ==> !fs[i].allowConflict
    ensures forall j :: 0 <= j < |fs| && j != k ==> fs[j].sig.name != fs[k].sig.name
  {
    forall j | 0 <= j < |fs| && j != k
      ensures fs[j].sig.name != fs[k].sig.name
    {
      if j < k { assert Compatible(fs[j], fs[k]); } else { assert Compatible(fs[k], fs[j]); }
    }
  }

  // ---------------------------------------------------------------------
  // Resolving calls

  /** The loop state of getFunction: the best matches so far, the candidates
      for the error note, and the best match level so far (7 for none; 0
      unmangled, 1 exact, 2 with promotion). */
  datatype Scan = Scan(matches: seq<Fn>, candidates: seq<Fn>, level: int)

  const Initial := Scan([], [], 7)

  /** One turn of getFunction's loop; Stop is its `break`. */
  datatype Step = Next(s: Scan) | Stop(s: Scan)

  /** One turn, given the outcome of the level-1 test: whether the
      function's argument list equals the call's. */
  function StepWith(s: Scan, f: Fn, name: string, args: seq<Type>, coerce: (nat, Type) -> bool, exact: bool): Step {
    if f.sig.name != name then Next(s)
    else
      var cands := s.candidates + [f];
      if f.sig.nomangle then
        if |args| != |f.sig.argtypes| then Stop(Scan([], [f], s.level))
        else
          var kept := if Coercible(args, f.sig.argtypes, coerce) then s.matches else [];
          if s.level > 0 then Next(Scan([f], [f], 0)) else Next(Scan(kept + [f], [f], s.level))
      else if s.level < 1 then Next(s.(candidates := cands))
      else if exact then
        if s.level > 1 then Next(Scan([f], cands, 1)) else Next(Scan(s.matches + [f], cands, s.level))
      else if s.level < 2 then Next(s.(candidates := cands))
      else if Coercible(args, f.sig.argtypes, coerce) then
        if s.level > 2 then Next(Scan([f], cands, 2)) else Next(Scan(s.matches + [f], cands, s.level))
      else Next(s.(candidates := cands))
  }

  /** One turn with the documented equality as the level-1 test. */
  function StepOf(s: Scan, f: Fn, name: string, args: seq<Type>, coerce: (nat, Type) -> bool): Step {
    StepWith(s, f, name, args, coerce, AllEquals(f.sig.argtypes, args))
  }

  /** The loop from position i to the end or to the first `break`. */
  function ScanFrom(fs: seq<Fn>, i: nat, s: Scan, name: string, args: seq<Type>, coerce: (nat, Type) -> bool): Scan
    requires i <= |fs|
    decreases |fs| - i
  {
    if i == |fs| then s
    else match StepOf(s, fs[i], name, args, coerce)
      case Stop(s1) => s1
      case Next(s1) => ScanFrom(fs, i + 1, s1, name, args, coerce)
  }

  /** The types of the arguments, as the error message lists them. */
  function ArgList(args: seq<Type>): string {
    if args == [] then ""
    else if |args| == 1 then ToString(args[0])
    else ToString(args[0]) + ", " + ArgList(args[1..])
  }

  function CannotResolveCall(name: string, args: seq<Type>): string {
    "cannot resolve call: " + name + " (" + ArgList(args) + ")"
  }

  function AmbiguousCall(name: string, args: seq<Type>): string {
    "ambiguous call: " + name + " (" + ArgList(args) + ")"
  }

  /** No match is an unresolved call, more than one an ambiguous call. */
  function Finish(matches: seq<Fn>, name: string, args: seq<Type>): Result<Fn, string> {
    if |matches| == 0 then Err(CannotResolveCall(name, args))
    else if |matches| > 1 then Err(AmbiguousCall(name, args))
    else Ok(matches[0])
  }

  /** getFunction: the scan's matches decide; a call fails only as
      unresolved or ambiguous. */
  function Resolve(fs: seq<Fn>, name: string, args: seq<Type>, coerce: (nat, Type) -> bool): (r: Result<Fn, string>)
    ensures r.Err? ==> r.error == CannotResolveCall(name, args) || r.error == AmbiguousCall(name, args)
  {
    Finish(ScanFrom(fs, 0, Initial, name, args, coerce).matches, name, args)
  }

  /** The loop as written: the level-1 test compares the held argument
      objects with the call's by identity. */
  function ScanFromAsWritten(gs: seq<FnObj>, i: nat, s: Scan, name: string, args: seq<Type>, argIds: seq<nat>,
                             coerce: (nat, Type) -> bool): Scan
    requires i <= |gs|
    decreases |gs| - i
  {
    if i == |gs| then s
    else match StepWith(s, gs[i].fn, name, args, coerce, gs[i].ids == argIds)
      case Stop(s1) => s1
      case Next(s1) => ScanFromAsWritten(gs, i + 1, s1, name, args, argIds, coerce)
  }

  /** getFunction as written; a call still fails only as unresolved or
      ambiguous. */
  function ResolveAsWritten(gs: seq<FnObj>, name: string, args: seq<Type>, argIds: seq<nat>,
                            coerce: (nat, Type) -> bool): (r: Result<Fn, string>)
    ensures r.Err? ==> r.error == CannotResolveCall(name, args) || r.error == AmbiguousCall(name, args)
  {
    Finish(ScanFromAsWritten(gs, 0, Initial, name, args, argIds, coerce).matches, name, args)
  }

  /** For each held function, identity with the call's argument objects
      decides as the documented equality with the call's types does. */
  predicate CallIdentityAgrees(gs: seq<FnObj>, args: seq<Type>, argIds: seq<nat>) {
    forall i :: 0 <= i < |gs| ==> (gs[i].ids == argIds <==> AllEquals(gs[i].fn.sig.argtypes, args))
  }

  lemma {:induction false} ScanAsWrittenAgrees(gs: seq<FnObj>, i: nat, s: Scan, name: string, args: seq<Type>,
                                               argIds: seq<nat>, coerce: (nat, Type) -> bool)
    requires i <= |gs| && CallIdentityAgrees(gs, args, argIds)
    ensures ScanFromAsWritten(gs, i, s, name, args, argIds, coerce) == ScanFrom(Fns(gs), i, s, name, args, coerce)
    decreases |gs| - i
  {
    if i < |gs| {
      var step := StepWith(s, gs[i].fn, name, args, coerce, gs[i].ids == argIds);
      assert step == StepOf(s, Fns(gs)[i], name, args, coerce);
      if step.Next? {
        ScanAsWrittenAgrees(gs, i + 1, step.s, name, args, argIds, coerce);
      }
    }
  }

  /** Where identity and the documented equality agree, getFunction as
      written resolves every call as Resolve does; AmbiguousAsWritten shows
      a call where they part. */
  lemma ResolveAsWrittenAgrees(gs: seq<FnObj>, name: string, args: seq<Type>, argIds: seq<nat>,
                               coerce: (nat, Type) -> bool)
    requires CallIdentityAgrees(gs, args, argIds)
    ensures ResolveAsWritten(gs, name, args, argIds, coerce) == Resolve(Fns(gs), name, args, coerce)
  {
    ScanAsWrittenAgrees(gs, 0, Initial, name, args, argIds, coerce);
  }

  // ---------------------------------------------------------------------
  // What getFunction resolves to

  predicate IsExact(f: Fn, name: string, args: seq<Type>) {
    f.sig.name == name && AllEquals(f.sig.argtypes, args)
  }

  predicate IsPromoted(f: Fn, name: string, args: seq<Type>, coerce: (nat, Type) -> bool) {
    f.sig.name == name && !AllEquals(f.sig.argtypes, args) && Coercible(args, f.sig.argtypes, coerce)
  }

  /** The functions of a name whose argument types equal the call's. */
  function Exact(fs: seq<Fn>, name: string, args: seq<Type>): seq<Fn> {
    if fs == [] then []
    else Exact(fs[..|fs| - 1], name, args) + (if IsExact(fs[|fs| - 1], name, args) then [fs[|fs| - 1]] else [])
  }

  /** The functions of a name that the call's arguments convert to, without
      being an exact match. */
  function Promoted(fs: seq<Fn>, name: string, args: seq<Type>, coerce: (nat, Type) -> bool): seq<Fn> {
    if fs == [] then []
    else
      var last := fs[|fs| - 1];
      Promoted(fs[..|fs| - 1], name, args, coerce) + (if IsPromoted(last, name, args, coerce) then [last] else [])
  }

  function Named(fs: seq<Fn>, name: string): seq<Fn> {
    if fs == [] then []
    else Named(fs[..|fs| - 1], name) + (if fs[|fs| - 1].sig.name == name then [fs[|fs| - 1]] else [])
  }

  /** No unmangled function carries the name. */
  predicate AllMangled(fs: seq<Fn>, name: string) {
    forall i :: 0 <= i < |fs| && fs[i].sig.name == name ==> !fs[i].sig.nomangle
  }

  /** The loop state after a list of mangled functions: the exact matches
      at level 1 if there are any, else the promoted ones at level 2. */
  function Reached(fs: seq<Fn>, name: string, args: seq<Type>, coerce: (nat, Type) -> bool): Scan {
    var exact := Exact(fs, name, args);
    var promoted := Promoted(fs, name, args, coerce);
    if exact != [] then Scan(exact, Named(fs, name), 1)
    else if promoted != [] then Scan(promoted, Named(fs, name), 2)
    else Scan([], Named(fs, name), 7)
  }

  lemma StepReached(fs: seq<Fn>, f: Fn, name: string, args: seq<Type>, coerce: (nat, Type) -> bool)
    requires f.sig.name == name ==> !f.sig.nomangle
    ensures StepOf(Reached(fs, name, args, coerce), f, name, args, coerce) == Next(Reached(fs + [f], name, args, coerce))
  {
    assert (fs + [f])[..|fs|] == fs;
  }

  lemma {:induction false} ScanReached(fs: seq<Fn>, i: nat, name: string, args: seq<Type>, coerce: (nat, Type) -> bool)
    requires i <= |fs| && AllMangled(fs, name)
    ensures ScanFrom(fs, i, Reached(fs[..i], name, args, coerce), name, args, coerce) == Reached(fs, name, args, coerce)
    decreases |fs| - i
  {
    if i < |fs| {
      StepReached(fs[..i], fs[i], name, args, coerce);
      assert fs[..i] + [fs[i]] == fs[..i + 1];
      ScanReached(fs, i + 1, name, args, coerce);
    } else {
      assert fs[..i] == fs;
    }
  }

  /** Without unmangled functions of the name, a call resolves to the one
      function whose argument types equal the call's; when there is none,
      to the one function the arguments convert to; more than one at the
      deciding level is ambiguous and none at all is unresolved. */
  lemma ResolveMangled(fs: seq<Fn>, name: string, args: seq<Type>, coerce: (nat, Type) -> bool)
    requires AllMangled(fs, name)
    ensures var exact := Exact(fs, name, args);
            Resolve(fs, name, args, coerce) ==
              Finish(if exact != [] then exact else Promoted(fs, name, args, coerce), name, args)
  {
    assert fs[..0] == [];
    ScanReached(fs, 0, name, args, coerce);
  }

  /** An exact match beats any number of matches by promotion. */
  lemma ExactMatchWins(fs: seq<Fn>, name: string, args: seq<Type>, coerce: (nat, Type) -> bool)
    requires AllMangled(fs, name) && |Exact(fs, name, args)| == 1
    ensures Resolve(fs, name, args, coerce) == Ok(Exact(fs, name, args)[0])
  {
    ResolveMangled(fs, name, args, coerce);
  }

  /** The state after the functions before an unmangled one: the level is
      still above 0. */
  lemma {:induction false} ScanToNomangle(fs: seq<Fn>, i: nat, k: nat, s: Scan, name: string, args: seq<Type>, coerce: (nat, Type) -> bool)
      returns (t: Scan)
    requires i <= k < |fs| && s.level >= 1
    requires forall j :: i <= j < k && fs[j].sig.name == name ==> !fs[j].sig.nomangle
    ensures t.level >= 1
    ensures ScanFrom(fs, i, s, name, args, coerce) == ScanFrom(fs, k, t, name, args, coerce)
    decreases k - i
  {
    if i == k {
      t := s;
    } else {
      var step := StepOf(s, fs[i], name, args, coerce);
      assert step.Next? && step.s.level >= 1;
      t := ScanToNomangle(fs, i + 1, k, step.s, name, args, coerce);
    }
  }

  /** At level 0 the mangled functions that follow are passed over. */
  lemma {:induction false} ScanAfterNomangle(fs: seq<Fn>, i: nat, s: Scan, name: string, args: seq<Type>, coerce: (nat, Type) -> bool)
    requires i <= |fs| && s.level == 0
    requires forall j :: i <= j < |fs| && fs[j].sig.name == name ==> !fs[j].sig.nomangle
    ensures ScanFrom(fs, i, s, name, args, coerce).matches == s.matches
    decreases |fs| - i
  {
    if i < |fs| {
      var step := StepOf(s, fs[i], name, args, coerce);
      assert step.Next? && step.s.level == 0 && step.s.matches == s.matches;
      ScanAfterNomangle(fs, i + 1, step.s, name, args, coerce);
    }
  }

  /** The only unmangled function of a name takes every call of that name
      with as many arguments as it declares, whether or not the arguments
      convert and whatever mangled overloads exist; with another number of
      arguments the call does not resolve at all. */
  lemma NomangleShadows(fs: seq<Fn>, k: nat, name: string, args: seq<Type>, coerce: (nat, Type) -> bool)
    requires k < |fs| && fs[k].sig.name == name && fs[k].sig.nomangle
    requires forall j :: 0 <= j < |fs| && j != k && fs[j].sig.name == name ==> !fs[j].sig.nomangle
    ensures |args| == |fs[k].sig.argtypes| ==> Resolve(fs, name, args, coerce) == Ok(fs[k])
    ensures |args| != |fs[k].sig.argtypes| ==> Resolve(fs, name, args, coerce) == Err(CannotResolveCall(name, args))
  {
    var t := ScanToNomangle(fs, 0, k, Initial, name, args, coerce);
    var step := StepOf(t, fs[k], name, args, coerce);
    if |args| == |fs[k].sig.argtypes| {
      assert step == Next(Scan([fs[k]], [fs[k]], 0));
      ScanAfterNomangle(fs, k + 1, step.s, name, args, coerce);
    } else {
      assert step.Stop? && step.s.matches == [];
    }
  }

  /** Whatever getFunction returns is a visible function of the called name. */
  lemma {:induction false} ScanMatchesNamed(fs: seq<Fn>, i: nat, s: Scan, name: string, args: seq<Type>, coerce: (nat, Type) -> bool)
    requires i <= |fs|
    requires forall m :: m in s.matches ==> m in fs && m.sig.name == name
    ensures forall m :: m in ScanFrom(fs, i, s, name, args, coerce).matches ==> m in fs && m.sig.name == name
    decreases |fs| - i
  {
    if i < |fs| {
      var step := StepOf(s, fs[i], name, args, coerce);
      assert forall m :: m in step.s.matches ==> m in s.matches || m == fs[i];
      if step.Next? {
        ScanMatchesNamed(fs, i + 1, step.s, name, args, coerce);
      }
    }
  }

  lemma ResolvedIsDeclared(fs: seq<Fn>, name: string, args: seq<Type>, coerce: (nat, Type) -> bool)
    requires Resolve(fs, name, args, coerce).Ok?
    ensures Resolve(fs, name, args, coerce).value in fs
    ensures Resolve(fs, name, args, coerce).value.sig.name == name
  {
    ScanMatchesNamed(fs, 0, Initial, name, args, coerce);
    assert Resolve(fs, name, args, coerce).value in ScanFrom(fs, 0, Initial, name, args, coerce).matches;
  }

  // ---------------------------------------------------------------------
  // Identity against the documented equality

  const IntType := Primitive("int", SInt, 4)
  const I64Type := Primitive("i64", SInt, 8)

  /** A mangled function f with one argument of the type. */
  function Overload(t: Type): Fn {
    Fn(Signature("f", false, false, false, "", [], [t]), false)
  }

  /** f(int) and f(i64) declared, each with its own Type object, and f
      called with an int argument held in a third: as written level 1 never
      matches, both declarations match with promotion, and the call is
      ambiguous. */
  lemma AmbiguousAsWritten(coerce: (nat, Type) -> bool)
    requires coerce(0, IntType) && coerce(0, I64Type)
    ensures ResolveAsWritten([FnObj(Overload(IntType), [1]), FnObj(Overload(I64Type), [2])], "f", [IntType], [3], coerce)
            == Err(AmbiguousCall("f", [IntType]))
  {
    var gs := [FnObj(Overload(IntType), [1]), FnObj(Overload(I64Type), [2])];
    var s1 := Scan([gs[0].fn], [gs[0].fn], 2);
    var s2 := Scan([gs[0].fn, gs[1].fn], [gs[0].fn, gs[1].fn], 2);
    assert Coercible([IntType], gs[0].fn.sig.argtypes, coerce) && Coercible([IntType], gs[1].fn.sig.argtypes, coerce);
    assert StepWith(Initial, gs[0].fn, "f", [IntType], coerce, false) == Next(s1);
    assert StepWith(s1, gs[1].fn, "f", [IntType], coerce, false) == Next(s2);
    assert ScanFromAsWritten(gs, 1, s1, "f", [IntType], [3], coerce) == ScanFromAsWritten(gs, 2, s2, "f", [IntType], [3], coerce) == s2;
  }

  /** The same call under the documented equality: f(int) is the one exact
      match and is chosen. */
  lemma ExactOverloadChosen(coerce: (nat, Type) -> bool)
    ensures Resolve([Overload(IntType), Overload(I64Type)], "f", [IntType], coerce) == Ok(Overload(IntType))
  {
    var fs := [Overload(IntType), Overload(I64Type)];
    assert Exact(fs[..1], "f", [IntType]) == [Overload(IntType)] by {
      assert fs[..1][..0] == [];
    }
    assert fs[..|fs| - 1] == fs[..1];
    assert !Equals(fs[1].sig.argtypes[0], [IntType][0]);
    assert !IsExact(fs[1], "f", [IntType]);
    assert Exact(fs, "f", [IntType]) == [Overload(IntType)];
    ExactMatchWins(fs, "f", [IntType], coerce);
  }

  /** Two mangled declarations of f(int), each parsed into its own Type
      object: as written the second is accepted, because its argument list
      is not the first one's; under the documented equality it is a
      duplicate declaration. */
  lemma DuplicateAcceptedAsWritten()
    ensures AddCheckAsWritten([FnObj(Overload(IntType), [1])], FnObj(Overload(IntType), [2])) == None
    ensures AddCheck([Overload(IntType)], Overload(IntType)) == Some(DuplicateDeclaration)
  {
  }
}
