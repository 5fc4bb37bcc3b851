/** The list of byte ranges of an HTTP request. */
module Requests {
  import opened Arithmetic
  import opened Intervals

  class HttpRequest {
    var ranges: seq<Range>

    constructor ()
      ensures ranges == []
    {
      ranges := [];
    }

    /** Adds [first, last], merging in place what it meets; ignored when it is empty. */
    method SetRange(first: nat, last: nat)
      modifies this
      ensures ranges == (if last < first then old(ranges) else Insert(old(ranges), first, last))
      ensures old(Canonical(ranges)) ==> Canonical(ranges)
    {
      if last < first {
        return;
      }
      ghost var was := ranges;
      var begin: nat, end: nat, i: nat := first, last, 0;
      while i < |ranges|
        invariant i <= |ranges| && begin <= end
        invariant ranges[..i] + Insert(ranges[i..], begin, end) == Insert(was, first, last)
        decreases |ranges| - i
      {
        var r := ranges[i];
        ghost var left, right := ranges[..i], ranges[i + 1..];
        assert ranges[i..] == [r] + right && [r] + right != [] && ([r] + right)[1..] == right;
        if begin <= r.first {
          if end < r.first {
            ranges := ranges[..i] + [Range(begin, end)] + ranges[i..];
            i := i + 1;
            assert ranges == left + ([Range(begin, end)] + ([r] + right));
            break;
          } else {
            end := Max(r.last, end);
            ranges := ranges[..i] + ranges[i + 1..];
            assert ranges[..i] == left && ranges[i..] == right;
          }
        } else if begin > r.last {
          i := i + 1;
          assert ranges[..i] == left + [r] && ranges[i..] == right;
        } else if end <= r.last {
          assert ranges == left + ([r] + right);
          break;
        } else {
          begin := Min(r.first, begin);
          ranges := ranges[..i] + ranges[i + 1..];
          assert ranges[..i] == left && ranges[i..] == right;
        }
      }
      if i == |ranges| {
        assert ranges[..i] == ranges && ranges[i..] == [];
        ranges := ranges + [Range(begin, end)];
      }
      if Canonical(was) {
        InsertCanonical(was, first, last);
      }
    }
  }

  /** The list a request holds after the calls given, by the contract of SetRange. */
  ghost predicate IsRequestRun(lists: seq<seq<Range>>, calls: seq<Range>) {
    && |lists| == |calls| + 1 && lists[0] == []
    && forall k :: 0 <= k < |calls| ==>
         lists[k + 1] ==
         if calls[k].last < calls[k].first then lists[k] else Insert(lists[k], calls[k].first, calls[k].last)
  }

  lemma {:induction false} RunIsInsertAll(lists: seq<seq<Range>>, calls: seq<Range>, k: nat)
    requires IsRequestRun(lists, calls) && k <= |calls|
    ensures lists[k] == InsertAll(calls[..k])
  {
    if k > 0 {
      RunIsInsertAll(lists, calls, k - 1);
      assert calls[..k][..k - 1] == calls[..k - 1];
    }
  }

  /** Every run keeps the list canonical, and at each moment an integer lies in the list exactly
      when it lies in one of the ranges given so far. */
  lemma EveryRunExactUnion(lists: seq<seq<Range>>, calls: seq<Range>, k: nat, p: nat)
    requires IsRequestRun(lists, calls) && k <= |calls|
    ensures Canonical(lists[k])
    ensures (exists i :: 0 <= i < |lists[k]| && lists[k][i].first <= p <= lists[k][i].last)
            <==> (exists i :: 0 <= i < k && calls[i].first <= p <= calls[i].last)
  {
    RunIsInsertAll(lists, calls, k);
    InsertAllExact(calls[..k], 2 * p);
    IntegersCovered(lists[k], p);
    IntegersCovered(calls[..k], p);
  }

  lemma IntegersCovered(rs: seq<Range>, p: nat)
    ensures Covers(rs, 2 * p) <==> exists i :: 0 <= i < |rs| && rs[i].first <= p <= rs[i].last
  {
    if i :| 0 <= i < |rs| && rs[i].first <= p <= rs[i].last {
      assert InRange(rs[i], 2 * p);
    }
  }

  /** Runs whose calls give the same ranges, in any order and any number of times, end alike. */
  lemma CallOrderIrrelevant(lists: seq<seq<Range>>, calls: seq<Range>, lists': seq<seq<Range>>, calls': seq<Range>)
    requires IsRequestRun(lists, calls) && IsRequestRun(lists', calls')
    requires forall r :: r in calls <==> r in calls'
    ensures lists[|calls|] == lists'[|calls'|]
  {
    RunIsInsertAll(lists, calls, |calls|);
    RunIsInsertAll(lists', calls', |calls'|);
    assert calls[..|calls|] == calls && calls'[..|calls'|] == calls';
    InsertAllOrderIrrelevant(calls, calls');
  }
}
