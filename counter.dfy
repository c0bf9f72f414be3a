/** The per-prefix temporary counter of the LLVM back end
    (src/java/me/pavlina/alco/llvm/Counter.java). */
module Counter {
  import opened Wrappers

  /** The next temporary that a prefix would receive: the stored count, or 1
      for a prefix that has never been used (or was reset). */
  function NextOf(counts: map<string, int>, prefix: string): int {
    if prefix in counts then counts[prefix] else 1
  }

  /** getTemporary as a function of the counts: the temporary handed out and
      the counts afterwards. */
  function Issue(counts: map<string, int>, prefix: string): (r: (int, map<string, int>))
    ensures r.0 == NextOf(counts, prefix)
    ensures NextOf(r.1, prefix) == r.0 + 1
    ensures forall q :: q != prefix ==> NextOf(r.1, q) == NextOf(counts, q)
  {
    var count := if prefix in counts then counts[prefix] + 1 else 2;
    (count - 1, counts[prefix := count])
  }

  /** The temporaries handed out by `n` successive getTemporary calls. */
  function IssueMany(counts: map<string, int>, prefix: string, n: nat): seq<int>
    decreases n
  {
    if n == 0 then []
    else
      var (t, after) := Issue(counts, prefix);
      [t] + IssueMany(after, prefix, n - 1)
  }

  /** Successive calls on one prefix return consecutive numbers, starting at
      the prefix's next value (1 for a fresh counter). */
  lemma {:induction false} IssueManyConsecutive(counts: map<string, int>, prefix: string, n: nat)
    ensures |IssueMany(counts, prefix, n)| == n
    ensures forall k :: 0 <= k < n ==> IssueMany(counts, prefix, n)[k] == NextOf(counts, prefix) + k
    decreases n
  {
    if n > 0 {
      var (t, after) := Issue(counts, prefix);
      IssueManyConsecutive(after, prefix, n - 1);
    }
  }

  lemma FreshCounterStartsAtOne(prefix: string, n: nat)
    ensures |IssueMany(map[], prefix, n)| == n
    ensures forall k :: 0 <= k < n ==> IssueMany(map[], prefix, n)[k] == k + 1
  {
    IssueManyConsecutive(map[], prefix, n);
  }

  /** Issuing on one prefix never disturbs what another prefix will get. */
  lemma {:induction false} IssueManyIndependent(counts: map<string, int>, p: string, q: string, n: nat)
    requires p != q
    ensures NextOf(AfterMany(counts, p, n), q) == NextOf(counts, q)
    decreases n
  {
    if n > 0 {
      IssueManyIndependent(Issue(counts, p).1, p, q, n - 1);
    }
  }

  /** The counts after `n` getTemporary calls on one prefix. */
  function AfterMany(counts: map<string, int>, prefix: string, n: nat): map<string, int>
    decreases n
  {
    if n == 0 then counts else AfterMany(Issue(counts, prefix).1, prefix, n - 1)
  }

  /** resetCount then setCount with the returned token gives every prefix the
      same next temporary as before. */
  lemma ResetThenSetRestores(counts: map<string, int>, prefix: string)
    ensures var token := NextOf(counts, prefix);
            forall q :: NextOf((counts - {prefix})[prefix := token], q) == NextOf(counts, q)
  {
  }

  class Counter {
    var counts: map<string, int>

    constructor ()
      ensures counts == map[]
    {
      counts := map[];
    }

    /** A new temporary for the prefix: the prefix's next value, which then
        moves on by one. */
    method GetTemporary(prefix: string) returns (t: int)
      modifies this
      ensures (t, counts) == Issue(old(counts), prefix)
    {
      var count: int;
      if prefix !in counts {
        count := 2;
      } else {
        count := counts[prefix] + 1;
      }
      counts := counts[prefix := count];
      t := count - 1;
    }

    /** Forgets the prefix's count and returns it as a token (1 when absent),
        so the next temporary for that prefix is 1 again. */
    method ResetCount(prefix: string) returns (token: int)
      modifies this
      ensures token == NextOf(old(counts), prefix)
      ensures counts == old(counts) - {prefix}
      ensures NextOf(counts, prefix) == 1
    {
      if prefix in counts {
        token := counts[prefix];
      } else {
        token := 1;
      }
      counts := counts - {prefix};
    }

    /** Stores a token from ResetCount; a null token is a NullPointerException
        and changes nothing. */
    method SetCount(prefix: string, count: Option<int>) returns (r: Result<(), string>)
      modifies this
      ensures r.Err? <==> count.None?
      ensures counts == if count.None? then old(counts) else old(counts)[prefix := count.value]
    {
      if count.None? {
        return Err("NullPointerException");
      }
      counts := counts[prefix := count.value];
      r := Ok(());
    }
  }
}
