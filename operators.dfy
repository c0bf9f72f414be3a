/** The overloadable operators and the one-character ids that stand for them
    in mangled names (src/java/me/pavlina/alco/language/Operators.java). */
module Operators {

  const OperatorList: seq<string> := [
    "~", "*", "/", "%", "%%", "+", "-", "<<",
    ">>", "&", "^", "|", "<", "<=", ">", ">=",
    "==", "!=", "-=", "*=", "/=", "%=", "%%=", "+=",
    "<<=", ">>=", "&=", "^=", "|="]

  const IdList: seq<string> := [
    "A", "C", "D", "E", "F", "G", "H", "I",
    "J", "K", "L", "M", "N", "O", "P", "Q",
    "R", "S", "h", "c", "d", "e", "f", "g",
    "i", "j", "k", "l", "m"]

  predicate Distinct(list: seq<string>) {
    forall i, j :: 0 <= i < j < |list| ==> list[i] != list[j]
  }

  /** The map that putting keys[i] -> values[i] for i = 0, 1, ... builds. */
  function Zip(keys: seq<string>, values: seq<string>): (m: map<string, string>)
    requires |keys| == |values|
    ensures m.Keys == set k | k in keys
  {
    if keys == [] then map[]
    else Zip(keys[..|keys| - 1], values[..|values| - 1])[keys[|keys| - 1] := values[|values| - 1]]
  }

  /** With distinct keys, every key maps to the value at its own index. */
  lemma {:induction false} ZipAt(keys: seq<string>, values: seq<string>, i: nat)
    requires |keys| == |values| && Distinct(keys) && i < |keys|
    ensures keys[i] in Zip(keys, values) && Zip(keys, values)[keys[i]] == values[i]
    decreases |keys|
  {
    var n := |keys|;
    if i < n - 1 {
      var front := keys[..n - 1];
      assert front[i] == keys[i] && keys[i] != keys[n - 1];
      assert Distinct(front) by {
        forall a, b | 0 <= a < b < |front| ensures front[a] != front[b] {
          assert front[a] == keys[a] && front[b] == keys[b];
        }
      }
      ZipAt(front, values[..n - 1], i);
    }
  }

  /** Every value of a zipped map is one of the values. */
  lemma {:induction false} ZipValues(keys: seq<string>, values: seq<string>, k: string)
    requires |keys| == |values| && k in Zip(keys, values)
    ensures Zip(keys, values)[k] in values
    decreases |keys|
  {
    var n := |keys|;
    if k != keys[n - 1] {
      ZipValues(keys[..n - 1], values[..n - 1], k);
    }
  }

  /** The static initialiser's loop. */
  method Initialise() returns (operatorToId: map<string, string>, idToOperator: map<string, string>)
    ensures operatorToId == Zip(OperatorList, IdList)
    ensures idToOperator == Zip(IdList, OperatorList)
  {
    operatorToId := map[];
    idToOperator := map[];
    var i := 0;
    while i < |OperatorList|
      invariant 0 <= i <= |OperatorList|
      invariant operatorToId == Zip(OperatorList[..i], IdList[..i])
      invariant idToOperator == Zip(IdList[..i], OperatorList[..i])
    {
      assert OperatorList[..i + 1][..i] == OperatorList[..i];
      assert IdList[..i + 1][..i] == IdList[..i];
      operatorToId := operatorToId[OperatorList[i] := IdList[i]];
      idToOperator := idToOperator[IdList[i] := OperatorList[i]];
      i := i + 1;
    }
    assert OperatorList[..i] == OperatorList && IdList[..i] == IdList;
  }

  /** OPERATOR_TO_ID and ID_TO_OPERATOR. Dafny maps are values, so the
      unmodifiable views need no wrapper. */
  const OperatorToId: map<string, string> := Zip(OperatorList, IdList)
  const IdToOperator: map<string, string> := Zip(IdList, OperatorList)

  lemma ListsDistinct()
    ensures Distinct(OperatorList) && Distinct(IdList)
  {
    OperatorsDistinct();
    IdsDistinct();
  }

  /** A number that tells apart any two strings of at most three ASCII
      characters, which every entry of both tables is. */
  function Code(s: string): int {
    |s| * 2097152 + (if |s| > 0 then s[0] as int else 0) * 16384
      + (if |s| > 1 then s[1] as int else 0) * 128 + (if |s| > 2 then s[2] as int else 0)
  }

  /** Entries with different codes are different strings. */
  lemma DistinctByCodes(list: seq<string>, m1: nat, m2: nat)
    requires forall i, j :: 0 <= i < m1 && i < j < |list| ==> Code(list[i]) != Code(list[j])
    requires forall i, j :: m1 <= i < m2 && i < j < |list| ==> Code(list[i]) != Code(list[j])
    requires forall i, j :: m2 <= i < |list| && i < j < |list| ==> Code(list[i]) != Code(list[j])
    ensures Distinct(list)
  {
    forall i, j | 0 <= i < j < |list| ensures list[i] != list[j] {
      assert Code(list[i]) != Code(list[j]);
    }
  }

  lemma OperatorsDistinct()
    ensures Distinct(OperatorList)
  {
    OperatorCodesA();
    OperatorCodesB();
    OperatorCodesC();
    DistinctByCodes(OperatorList, 10, 20);
  }

  lemma OperatorCodesA()
    ensures forall i, j :: 0 <= i < 10 && i < j < |OperatorList| ==> Code(OperatorList[i]) != Code(OperatorList[j])
  {
  }

  lemma OperatorCodesB()
    ensures forall i, j :: 10 <= i < 20 && i < j < |OperatorList| ==> Code(OperatorList[i]) != Code(OperatorList[j])
  {
  }

  lemma OperatorCodesC()
    ensures forall i, j :: 20 <= i < 29 && i < j < |OperatorList| ==> Code(OperatorList[i]) != Code(OperatorList[j])
  {
  }

  lemma IdsDistinct()
    ensures Distinct(IdList)
  {
    IdCodesA();
    IdCodesB();
    IdCodesC();
    DistinctByCodes(IdList, 10, 20);
  }

  lemma IdCodesA()
    ensures forall i, j :: 0 <= i < 10 && i < j < |IdList| ==> Code(IdList[i]) != Code(IdList[j])
  {
  }

  lemma IdCodesB()
    ensures forall i, j :: 10 <= i < 20 && i < j < |IdList| ==> Code(IdList[i]) != Code(IdList[j])
  {
  }

  lemma IdCodesC()
    ensures forall i, j :: 20 <= i < 29 && i < j < |IdList| ==> Code(IdList[i]) != Code(IdList[j])
  {
  }

  /** The two tables pair the lists index by index and are each other's
      inverse. */
  lemma {:induction false} TablesPairIndexWise(i: nat)
    requires i < |OperatorList|
    ensures |OperatorList| == |IdList| == 29
    ensures OperatorToId[OperatorList[i]] == IdList[i]
    ensures IdToOperator[IdList[i]] == OperatorList[i]
  {
    ListsDistinct();
    ZipAt(OperatorList, IdList, i);
    ZipAt(IdList, OperatorList, i);
  }

  /** Every mangled operator id is one character long. */
  lemma IdIsOneChar(op: string)
    requires op in OperatorToId
    ensures |OperatorToId[op]| == 1
  {
    ZipValues(OperatorList, IdList, op);
  }

  lemma TablesInverse(op: string)
    requires op in OperatorToId
    ensures OperatorToId[op] in IdToOperator && IdToOperator[OperatorToId[op]] == op
  {
    var i :| 0 <= i < |OperatorList| && OperatorList[i] == op;
    TablesPairIndexWise(i);
  }

  lemma TablesInverseBack(id: string)
    requires id in IdToOperator
    ensures IdToOperator[id] in OperatorToId && OperatorToId[IdToOperator[id]] == id
  {
    var i :| 0 <= i < |IdList| && IdList[i] == id;
    TablesPairIndexWise(i);
  }

  /** isOverloadable: the operator has a mangled id. */
  function IsOverloadable(op: string): (b: bool)
    ensures b <==> op in OperatorList
  {
    op in OperatorToId
  }
}
