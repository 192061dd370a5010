/** How a buffer is cut into packets: the greedy grouping, and why no grouping is smaller. */
module Grouping {
  import opened SampleBuffer

  const MAX_QUANTITY := 255

  /** The samples `lo` to `hi - 1` of a buffer. */
  datatype Group = Group(lo: nat, hi: nat)

  /** One process, and few enough samples for one packet. */
  ghost predicate Fits(ss: seq<Sample>, g: Group) {
    && g.lo < g.hi <= |ss| && g.hi - g.lo <= MAX_QUANTITY
    && forall i :: g.lo <= i < g.hi ==> ss[i].pid == ss[g.lo].pid
  }

  /** The longest group that starts at `lo` and reaches at least up to `hi`. */
  function LongestFrom(ss: seq<Sample>, lo: nat, hi: nat): (end: nat)
    requires lo < hi <= |ss|
    ensures hi <= end <= |ss|
    ensures Fits(ss, Group(lo, hi)) ==> Fits(ss, Group(lo, end))
    ensures end == |ss| || end - lo >= MAX_QUANTITY || ss[end].pid != ss[lo].pid
    decreases |ss| - hi
  {
    if hi < |ss| && hi - lo < MAX_QUANTITY && ss[hi].pid == ss[lo].pid then LongestFrom(ss, lo, hi + 1) else hi
  }

  function Greedy(ss: seq<Sample>, lo: nat): seq<Group>
    requires lo <= |ss|
    decreases |ss| - lo
  {
    if lo == |ss| then [] else
      var end := LongestFrom(ss, lo, lo + 1);
      [Group(lo, end)] + Greedy(ss, end)
  }

  /** Groups that cover the buffer from `lo` on without gap or overlap. */
  ghost predicate IsSplit(ss: seq<Sample>, lo: nat, gs: seq<Group>)
    decreases |gs|
  {
    if gs == [] then lo == |ss|
    else gs[0].lo == lo && Fits(ss, gs[0]) && IsSplit(ss, gs[0].hi, gs[1..])
  }

  lemma {:induction false} GreedyIsSplit(ss: seq<Sample>, lo: nat)
    requires lo <= |ss|
    ensures IsSplit(ss, lo, Greedy(ss, lo))
    decreases |ss| - lo
  {
    if lo < |ss| {
      var end := LongestFrom(ss, lo, lo + 1);
      GreedyIsSplit(ss, end);
      assert Greedy(ss, lo)[1..] == Greedy(ss, end);
    }
  }

  /** Neighbouring groups could not have been one: the first is full or the process changes. */
  lemma {:induction false} GreedyIsMaximal(ss: seq<Sample>, lo: nat, k: nat)
    requires lo <= |ss| && k + 1 < |Greedy(ss, lo)|
    ensures var gs := Greedy(ss, lo);
      && gs[k].lo < gs[k].hi == gs[k + 1].lo < |ss|
      && (gs[k].hi - gs[k].lo == 255 || ss[gs[k].lo].pid != ss[gs[k + 1].lo].pid)
    decreases k
  {
    var end := LongestFrom(ss, lo, lo + 1);
    assert Greedy(ss, lo)[1..] == Greedy(ss, end);
    if k > 0 {
      GreedyIsMaximal(ss, end, k - 1);
    }
  }

  /** Starting later never needs more groups. */
  lemma {:induction false} LaterNeedsNoMore(ss: seq<Sample>, lo: nat, later: nat)
    requires lo <= later <= |ss|
    ensures |Greedy(ss, later)| <= |Greedy(ss, lo)|
    decreases |ss| - lo
  {
    if lo < later {
      var end := LongestFrom(ss, lo, lo + 1);
      if end <= later {
        LaterNeedsNoMore(ss, end, later);
      } else {
        var laterEnd := LongestFrom(ss, later, later + 1);
        assert ss[later].pid == ss[lo].pid;
        assert end <= laterEnd;
        LaterNeedsNoMore(ss, end, laterEnd);
      }
    }
  }

  /** No way to cut the buffer into packets uses fewer of them. */
  lemma {:induction false} GreedyIsOptimal(ss: seq<Sample>, lo: nat, gs: seq<Group>)
    requires lo <= |ss| && IsSplit(ss, lo, gs)
    ensures |Greedy(ss, lo)| <= |gs|
    decreases |gs|
  {
    if gs != [] {
      var end := LongestFrom(ss, lo, lo + 1);
      var hi := gs[0].hi;
      GreedyIsOptimal(ss, hi, gs[1..]);
      if hi < end {
        LaterNeedsNoMore(ss, hi, end);
      } else if end < hi {
        assert ss[end].pid == ss[lo].pid;
      }
    }
  }

  lemma {:induction false} SplitGroupFits(ss: seq<Sample>, lo: nat, gs: seq<Group>, k: nat)
    requires IsSplit(ss, lo, gs) && k < |gs|
    ensures Fits(ss, gs[k]) && lo <= gs[k].lo && (k > 0 ==> gs[k].lo == gs[k - 1].hi)
    ensures k == |gs| - 1 ==> gs[k].hi == |ss|
    decreases k
  {
    if k > 0 {
      SplitGroupFits(ss, gs[0].hi, gs[1..], k - 1);
    }
  }

  lemma {:induction false} SplitIsOrdered(ss: seq<Sample>, lo: nat, gs: seq<Group>, j: nat, k: nat)
    requires IsSplit(ss, lo, gs) && j < k < |gs|
    ensures gs[j].hi <= gs[k].lo
    decreases k
  {
    SplitGroupFits(ss, lo, gs, k);
    if j < k - 1 {
      SplitIsOrdered(ss, lo, gs, j, k - 1);
      SplitGroupFits(ss, lo, gs, k - 1);
    }
  }
}
