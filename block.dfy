/** An LLVM basic block: a list of instructions that ends with at most one
    terminator, and the numbering of the block and its instructions
    (src/java/me/pavlina/alco/llvm/Block.java). */
module Block {
  import opened Wrappers
  import Text

  /** What the block needs to know of an instruction: whether it is a
      Terminator, whether it needs an SSA id, and the id it carries. */
  datatype Instruction = Instruction(terminator: bool, needsId: bool, id: Option<string>)

  /** An LLVM local name: "%" followed by the decimal number. */
  function Label(n: int): string {
    "%" + Text.IntToString(n)
  }

  predicate Terminated(instructions: seq<Instruction>) {
    |instructions| > 0 && instructions[|instructions| - 1].terminator
  }

  /** How many of the instructions take a number. */
  function NeedingId(instructions: seq<Instruction>): nat {
    if instructions == [] then 0
    else NeedingId(instructions[..|instructions| - 1])
         + (if instructions[|instructions| - 1].needsId then 1 else 0)
  }

  /** The instructions after numbering from `start`: each one that needs an id
      gets the next number, the others are untouched. */
  function Numbered(instructions: seq<Instruction>, start: int): (r: seq<Instruction>)
    ensures |r| == |instructions|
  {
    if instructions == [] then []
    else
      var prefix := instructions[..|instructions| - 1];
      var last := instructions[|instructions| - 1];
      Numbered(prefix, start)
      + [if last.needsId then last.(id := Some(Label(start + NeedingId(prefix)))) else last]
  }

  /** The k-th instruction that needs an id is numbered start + k; every other
      field and every other instruction is left as it was. */
  lemma {:induction false} NumberedAt(instructions: seq<Instruction>, start: int, i: nat)
    requires i < |instructions|
    ensures Numbered(instructions, start)[i]
            == if instructions[i].needsId
               then instructions[i].(id := Some(Label(start + NeedingId(instructions[..i]))))
               else instructions[i]
    decreases |instructions|
  {
    var n := |instructions|;
    if i < n - 1 {
      var prefix := instructions[..n - 1];
      assert prefix[..i] == instructions[..i];
      NumberedAt(prefix, start, i);
    } else {
      assert instructions[..i] == instructions[..n - 1];
    }
  }

  lemma {:induction false} NeedingIdBound(instructions: seq<Instruction>)
    ensures NeedingId(instructions) <= |instructions|
    ensures NeedingId(instructions) == |instructions| <==> forall i :: 0 <= i < |instructions| ==> instructions[i].needsId
  {
    if instructions != [] {
      var prefix := instructions[..|instructions| - 1];
      NeedingIdBound(prefix);
      if forall i :: 0 <= i < |prefix| ==> prefix[i].needsId {
      } else {
        var j :| 0 <= j < |prefix| && !prefix[j].needsId;
        assert !instructions[j].needsId;
      }
    }
  }

  /** Two instructions that both need ids never receive the same one. */
  lemma NumberedDistinct(instructions: seq<Instruction>, start: int, i: nat, j: nat)
    requires i < j < |instructions|
    requires instructions[i].needsId && instructions[j].needsId
    ensures NeedingId(instructions[..i]) < NeedingId(instructions[..j])
  {
    NeedingIdGrows(instructions[..j], i);
    assert instructions[..j][..i] == instructions[..i];
    assert instructions[..j][..i + 1] == instructions[..i + 1];
  }

  lemma {:induction false} NeedingIdGrows(instructions: seq<Instruction>, i: nat)
    requires i < |instructions| && instructions[i].needsId
    ensures NeedingId(instructions[..i]) < NeedingId(instructions)
    decreases |instructions|
  {
    var n := |instructions|;
    var prefix := instructions[..n - 1];
    if i < n - 1 {
      assert prefix[..i] == instructions[..i];
      NeedingIdGrows(prefix, i);
    } else {
      assert instructions[..i] == prefix;
    }
  }

  /** Numbering one more instruction of a list. */
  lemma NumberStep(original: seq<Instruction>, first: int, k: nat)
    requires k < |original|
    ensures var ins := original[k];
            Numbered(original[..k + 1], first)
            == Numbered(original[..k], first)
               + [if ins.needsId then ins.(id := Some(Label(first + NeedingId(original[..k])))) else ins]
    ensures NeedingId(original[..k + 1]) == NeedingId(original[..k]) + (if original[k].needsId then 1 else 0)
  {
    assert original[..k + 1][..k] == original[..k];
  }

  class Block {
    var instructions: seq<Instruction>
    var id: Option<string>

    constructor ()
      ensures instructions == [] && id == None
    {
      instructions := [];
      id := None;
    }

    function IsTerminated(): (b: bool)
      reads this
      ensures b <==> Terminated(instructions)
    {
      |instructions| != 0 && instructions[|instructions| - 1].terminator
    }

    /** Appends the instruction unless the block is already terminated. */
    method Add(i: Instruction) returns (added: bool)
      modifies this
      ensures added <==> !Terminated(old(instructions))
      ensures instructions == if added then old(instructions) + [i] else old(instructions)
      ensures id == old(id)
    {
      if IsTerminated() {
        return false;
      }
      instructions := instructions + [i];
      added := true;
    }

    /** Numbers an unlabeled block with `start`, then the instructions that
        need ids with the numbers after it; returns the first unused number. */
    method Number(start: int) returns (next: int)
      modifies this
      ensures id == if old(id).None? then Some(Label(start)) else old(id)
      ensures var first := if old(id).None? then start + 1 else start;
              instructions == Numbered(old(instructions), first)
              && next == first + NeedingId(old(instructions))
    {
      var n := start;
      if id.None? {
        id := Some(Label(n));
        n := n + 1;
      }
      ghost var first := n;
      ghost var original := instructions;
      var k := 0;
      while k < |instructions|
        invariant 0 <= k <= |instructions| == |original|
        invariant instructions[..k] == Numbered(original[..k], first)
        invariant instructions[k..] == original[k..]
        invariant n == first + NeedingId(original[..k])
        invariant id == if old(id).None? then Some(Label(start)) else old(id)
      {
        var ins := instructions[k];
        assert ins == original[k] by {
          assert instructions[k..][0] == original[k..][0];
        }
        NumberStep(original, first, k);
        ghost var before := instructions;
        if ins.needsId {
          instructions := instructions[k := ins.(id := Some(Label(n)))];
          n := n + 1;
        }
        assert instructions[..k + 1] == before[..k] + [instructions[k]];
        assert instructions[k + 1..] == before[k + 1..];
        k := k + 1;
      }
      assert original[..k] == original;
      assert instructions[..k] == instructions;
      next := n;
    }
  }
}
