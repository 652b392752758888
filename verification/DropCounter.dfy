/** `trackFilterDrops`: the exported drop counter follows the per-CPU totals. */
module DropCounter {
  import opened Bits

  /** Sum of the per-CPU counters, in 64 bits. */
  function Total(vals: seq<u64>, n: nat): u64
    requires n <= |vals|
  {
    if n == 0 then 0 else (Total(vals, n - 1) + vals[n - 1]) % TWO64
  }

  /** The sum without wrap-around. */
  function Sum(vals: seq<u64>, n: nat): nat
    requires n <= |vals|
  {
    if n == 0 then 0 else Sum(vals, n - 1) + vals[n - 1]
  }

  lemma AddInWord(a: nat, x: u64)
    ensures (a % TWO64 + x) % TWO64 == (a + x) % TWO64
  {
  }

  /** `Total` is the sum in 64 bits. */
  lemma {:induction false} TotalIsSum(vals: seq<u64>, n: nat)
    requires n <= |vals|
    ensures Total(vals, n) == Sum(vals, n) % TWO64
  {
    if n > 0 {
      TotalIsSum(vals, n - 1);
      AddInWord(Sum(vals, n - 1), vals[n - 1]);
    }
  }

  /** Two groups of counters sum up to the sum of theirs, and one counter to itself. */
  lemma {:induction false} SumOfBoth(a: seq<u64>, b: seq<u64>, n: nat)
    requires n <= |b|
    ensures Sum(a + b, |a| + n) == Sum(a, |a|) + Sum(b, n)
    ensures |b| == 1 ==> Sum(b, 1) == b[0]
  {
    if n == 0 {
      SumPrefix(a + b, a, |a|);
    } else {
      SumOfBoth(a, b, n - 1);
    }
    assert |b| == 1 ==> Sum(b, 1) == Sum(b, 0) + b[0];
  }

  lemma {:induction false} SumPrefix(a: seq<u64>, b: seq<u64>, n: nat)
    requires n <= |a| && n <= |b| && forall i | 0 <= i < n :: a[i] == b[i]
    ensures Sum(a, n) == Sum(b, n)
  {
    if n > 0 { SumPrefix(a, b, n - 1); }
  }

  /** The largest total of the first `n` polls. */
  function Peak(polls: seq<seq<u64>>, n: nat): u64
    requires n <= |polls|
  {
    if n == 0 then 0
    else
      var t := Total(polls[n - 1], |polls[n - 1]|);
      if t > Peak(polls, n - 1) then t else Peak(polls, n - 1)
  }

  class DropCounter {
    var last: u64
    var exported: nat
    ghost var polls: seq<seq<u64>>

    /** The counter exports the running maximum of the totals. */
    ghost predicate Valid()
      reads this
    {
      exported == last == Peak(polls, |polls|)
    }

    constructor ()
      ensures Valid() && polls == []
    {
      last, exported, polls := 0, 0, [];
    }

    /** One tick: add what the total grew by, if it grew. */
    method Poll(vals: seq<u64>)
      requires Valid()
      modifies this
      ensures Valid() && polls == old(polls) + [vals]
    {
      var total: u64 := 0;
      for i := 0 to |vals|
        invariant total == Total(vals, i)
      {
        total := (total + vals[i]) % TWO64;
      }
      if total > last {
        exported := exported + (total - last);
        last := total;
      }
      polls := polls + [vals];
      SamePeak(old(polls), vals, |old(polls)|);
    }
  }

  lemma {:induction false} SamePeak(polls: seq<seq<u64>>, vals: seq<u64>, n: nat)
    requires n <= |polls|
    ensures Peak(polls + [vals], n) == Peak(polls, n)
  {
    if n > 0 { SamePeak(polls, vals, n - 1); }
  }

  /** The peak is reached and never exceeded: the counter equals the last total
      iff no earlier total was larger. */
  lemma {:induction false} PeakExact(polls: seq<seq<u64>>, n: nat)
    requires n <= |polls|
    ensures forall i | 0 <= i < n :: Total(polls[i], |polls[i]|) <= Peak(polls, n)
    ensures n > 0 ==>
              (Peak(polls, n) == Total(polls[n - 1], |polls[n - 1]|) <==>
               forall i | 0 <= i < n :: Total(polls[i], |polls[i]|) <= Total(polls[n - 1], |polls[n - 1]|))
  {
    if n > 0 {
      PeakExact(polls, n - 1);
      PeakReached(polls, n - 1);
    }
  }

  lemma {:induction false} PeakReached(polls: seq<seq<u64>>, n: nat)
    requires n <= |polls|
    ensures Peak(polls, n) == 0 || exists i :: 0 <= i < n && Total(polls[i], |polls[i]|) == Peak(polls, n)
  {
    if n > 0 { PeakReached(polls, n - 1); }
  }
}
