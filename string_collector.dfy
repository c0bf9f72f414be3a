/** An append-only character buffer that can be cleared and reused
    (src/java/me/pavlina/alco/lex/StringCollector.java). */
module StringCollector {

  /** 2 to the power k. */
  function Pow2(k: nat): (r: nat)
    ensures r >= 1
  {
    if k == 0 then 1 else 2 * Pow2(k - 1)
  }

  lemma DoubleStep(size: nat, k: nat)
    ensures 2 * (size * Pow2(k)) == size * Pow2(k + 1)
  {
  }

  /** The doubling loop of ensureSpace: the first size * 2^k that is at least
      `need`. */
  method DoubledSize(size: nat, need: nat) returns (target: nat)
    requires size > 0 || need <= size
    ensures target >= need && target >= size
    ensures exists k: nat :: target == size * Pow2(k)
    ensures target > size ==> target < 2 * need
    ensures need <= size ==> target == size
  {
    target := size;
    ghost var k: nat := 0;
    while need > target
      invariant target >= size && target == size * Pow2(k)
      invariant target > size ==> target < 2 * need
      invariant need <= size ==> target == size
      decreases need - target
    {
      DoubleStep(size, k);
      target := target * 2;
      k := k + 1;
    }
  }

  /** A fresh buffer of `size` characters that starts with a copy of `a`. */
  method Grown(a: array<char>, size: nat) returns (b: array<char>)
    requires size >= a.Length
    ensures fresh(b) && b.Length == size && b[..a.Length] == a[..]
  {
    b := new char[size];
    forall i | 0 <= i < a.Length {
      b[i] := a[i];
    }
  }

  class StringCollector {
    var collector: array<char>
    var len: nat
    /** Everything appended since construction or the last clear. */
    ghost var contents: string

    ghost predicate Valid()
      reads this, collector
    {
      len <= collector.Length && contents == collector[..len]
    }

    /** The default capacity is 16. */
    constructor Default()
      ensures Valid() && fresh(collector) && collector.Length == 16 && contents == ""
    {
      collector := new char[16];
      len := 0;
      contents := "";
    }

    constructor (capacity: nat)
      ensures Valid() && fresh(collector) && collector.Length == capacity && contents == ""
    {
      collector := new char[capacity];
      len := 0;
      contents := "";
    }

    /** Grows the buffer by doubling until `n` more characters fit; the
        capacity never shrinks and the collected characters are kept. An empty
        buffer cannot double, so it is only asked for room it already has. */
    method EnsureSpace(n: nat)
      requires Valid()
      requires collector.Length > 0 || len + n <= collector.Length
      modifies this
      ensures Valid() && len == old(len) && contents == old(contents)
      ensures collector.Length >= len + n
      ensures exists k: nat :: collector.Length == old(collector.Length) * Pow2(k)
      ensures old(collector.Length) < len + n ==> fresh(collector) && collector.Length < 2 * (len + n)
      ensures old(collector.Length) >= len + n ==> collector == old(collector)
    {
      var targetSz := DoubledSize(collector.Length, n + len);
      if targetSz > collector.Length {
        var bigger := Grown(collector, targetSz);
        assert bigger[..len] == bigger[..collector.Length][..len];
        collector := bigger;
      } else {
        assert collector.Length == old(collector.Length) * Pow2(0);
      }
    }

    method AppendChar(c: char)
      requires Valid() && collector.Length > 0
      modifies this, collector
      ensures Valid() && contents == old(contents) + [c]
      ensures collector == old(collector) || fresh(collector)
      ensures collector.Length >= old(collector.Length)
    {
      EnsureSpace(1);
      collector[len] := c;
      len := len + 1;
      contents := contents + [c];
    }

    method Append(s: string)
      requires Valid() && (collector.Length > 0 || s == "")
      modifies this, collector
      ensures Valid() && contents == old(contents) + s
      ensures collector == old(collector) || fresh(collector)
      ensures collector.Length >= old(collector.Length)
    {
      EnsureSpace(|s|);
      forall i | 0 <= i < |s| {
        collector[len + i] := s[i];
      }
      assert collector[..len + |s|] == collector[..len] + s;
      len := len + |s|;
      contents := contents + s;
    }

    /** The collected string. */
    function ToString(): (r: string)
      reads this, collector
      requires Valid()
      ensures r == contents
    {
      collector[..len]
    }

    /** Forgets the contents but keeps the allocated buffer. */
    method Clear()
      requires Valid()
      modifies this
      ensures Valid() && contents == "" && collector == old(collector)
    {
      len := 0;
      contents := "";
    }
  }

  /** Appending "ab" and then 'c' to a fresh one-character collector yields
      "abc" after the buffer has doubled twice. */
  method AppendsConcatenate() returns (r: string)
    ensures r == "abc"
  {
    var sc := new StringCollector(1);
    sc.Append("ab");
    sc.AppendChar('c');
    r := sc.ToString();
    sc.Clear();
  }
}
