/** Finite unions of closed ranges, kept as sorted lists of ranges that do not touch.

    Ranges are compared on half-integer positions: position h lies in [first, last] when
    2 * first <= h <= 2 * last.  The even positions are the integers of the closed range, the
    odd ones the integers p with first <= p < last of the half-open one.  Two ranges share a
    position exactly when they would be merged, so the positions covered determine the list. */
module Intervals {
  import opened Arithmetic

  datatype Range = Range(first: nat, last: nat)

  predicate InRange(r: Range, h: nat) {
    2 * r.first <= h <= 2 * r.last
  }

  ghost predicate Covers(rs: seq<Range>, h: nat) {
    exists i :: 0 <= i < |rs| && InRange(rs[i], h)
  }

  /** Sorted, each range non-empty, and with a gap between neighbours. */
  ghost predicate Canonical(rs: seq<Range>) {
    && (forall i :: 0 <= i < |rs| ==> rs[i].first <= rs[i].last)
    && (forall i, j :: 0 <= i < j < |rs| ==> rs[i].last < rs[j].first)
  }

  lemma CoversCons(r: Range, rs: seq<Range>, h: nat)
    ensures Covers([r] + rs, h) <==> InRange(r, h) || Covers(rs, h)
  {
    if InRange(r, h) {
      assert InRange(([r] + rs)[0], h);
    }
    if i :| 0 <= i < |rs| && InRange(rs[i], h) {
      assert InRange(([r] + rs)[i + 1], h);
    }
  }

  lemma CoversSnoc(rs: seq<Range>, r: Range, h: nat)
    ensures Covers(rs + [r], h) <==> Covers(rs, h) || InRange(r, h)
  {
    if InRange(r, h) {
      assert InRange((rs + [r])[|rs|], h);
    }
    if i :| 0 <= i < |rs| && InRange(rs[i], h) {
      assert InRange((rs + [r])[i], h);
    }
  }

  lemma CoversHead(rs: seq<Range>, h: nat)
    requires rs != []
    ensures Covers(rs, h) <==> InRange(rs[0], h) || Covers(rs[1..], h)
  {
    assert rs == [rs[0]] + rs[1..];
    CoversCons(rs[0], rs[1..], h);
  }

  /** Coverage looks at the elements only. */
  lemma CoversElements(a: seq<Range>, b: seq<Range>, h: nat)
    requires forall r :: r in a ==> r in b
    ensures Covers(a, h) ==> Covers(b, h)
  {
    if Covers(a, h) {
      var i :| 0 <= i < |a| && InRange(a[i], h);
      assert a[i] in b;
    }
  }

  // ---------------------------------------------------------------- uniqueness

  /** The tail of a canonical list covers what the list covers beyond its first range. */
  lemma TailCoverage(rs: seq<Range>, h: nat)
    requires Canonical(rs) && rs != []
    ensures Covers(rs[1..], h) <==> Covers(rs, h) && h > 2 * rs[0].last
  {
    CoversHead(rs, h);
    if Covers(rs[1..], h) {
      var i :| 0 <= i < |rs[1..]| && InRange(rs[1..][i], h);
      assert rs[i + 1].first > rs[0].last;
    }
  }

  lemma FirstIsLeast(rs: seq<Range>, h: nat)
    requires Canonical(rs) && Covers(rs, h)
    ensures rs != [] && 2 * rs[0].first <= h
  {
    var i :| 0 <= i < |rs| && InRange(rs[i], h);
    if i > 0 {
      assert rs[0].last < rs[i].first;
    }
  }

  lemma SameHead(a: seq<Range>, b: seq<Range>)
    requires Canonical(a) && Canonical(b) && a != [] && b != []
    requires forall h: nat :: Covers(a, h) <==> Covers(b, h)
    ensures a[0].first <= b[0].first
    ensures a[0].first == b[0].first ==> a[0].last <= b[0].last
  {
    assert InRange(b[0], 2 * b[0].first);
    assert Covers(b, 2 * b[0].first);
    FirstIsLeast(a, 2 * b[0].first);
    if a[0].first == b[0].first && b[0].last < a[0].last {
      var h := 2 * b[0].last + 1;
      assert InRange(a[0], h);
      assert Covers(a, h) && !InRange(b[0], h);
      TailCoverage(b, h);
    }
  }

  lemma EmptyIff(rs: seq<Range>)
    requires Canonical(rs)
    ensures rs == [] <==> forall h: nat :: !Covers(rs, h)
  {
    if rs != [] {
      assert InRange(rs[0], 2 * rs[0].first);
      assert Covers(rs, 2 * rs[0].first);
    }
  }

  /** Two canonical lists that cover the same positions are the same list. */
  lemma {:induction false} CanonicalUnique(a: seq<Range>, b: seq<Range>)
    requires Canonical(a) && Canonical(b)
    requires forall h: nat :: Covers(a, h) <==> Covers(b, h)
    ensures a == b
  {
    EmptyIff(a);
    EmptyIff(b);
    if a == [] || b == [] {
      assert a == [] <==> b == [];
    } else {
      SameHead(a, b);
      SameHead(b, a);
      forall h: nat
        ensures Covers(a[1..], h) <==> Covers(b[1..], h)
      {
        TailCoverage(a, h);
        TailCoverage(b, h);
      }
      CanonicalUnique(a[1..], b[1..]);
      assert a == [a[0]] + a[1..] && b == [b[0]] + b[1..];
    }
  }

  // ---------------------------------------------------------------- insertion

  /** The list after inserting [first, last] and merging what it meets. */
  function Insert(rs: seq<Range>, first: nat, last: nat): seq<Range>
    decreases |rs|
  {
    if rs == [] then [Range(first, last)]
    else if first <= rs[0].first then
      if last < rs[0].first then [Range(first, last)] + rs
      else Insert(rs[1..], first, Max(rs[0].last, last))
    else if first > rs[0].last then [rs[0]] + Insert(rs[1..], first, last)
    else if last <= rs[0].last then rs
    else Insert(rs[1..], rs[0].first, last)
  }

  lemma {:induction false} InsertStaysAbove(rs: seq<Range>, first: nat, last: nat, bound: nat)
    requires bound < first && forall i :: 0 <= i < |rs| ==> bound < rs[i].first
    ensures forall i :: 0 <= i < |Insert(rs, first, last)| ==> bound < Insert(rs, first, last)[i].first
    decreases |rs|
  {
    if rs != [] {
      if first <= rs[0].first {
        if last >= rs[0].first { InsertStaysAbove(rs[1..], first, Max(rs[0].last, last), bound); }
      } else if first > rs[0].last {
        InsertStaysAbove(rs[1..], first, last, bound);
      } else if last > rs[0].last {
        InsertStaysAbove(rs[1..], rs[0].first, last, bound);
      }
    }
  }

  lemma {:induction false} InsertCanonical(rs: seq<Range>, first: nat, last: nat)
    requires Canonical(rs) && first <= last
    ensures Canonical(Insert(rs, first, last))
    decreases |rs|
  {
    if rs != [] {
      if first <= rs[0].first {
        if last >= rs[0].first { InsertCanonical(rs[1..], first, Max(rs[0].last, last)); }
      } else if first > rs[0].last {
        InsertCanonical(rs[1..], first, last);
        InsertStaysAbove(rs[1..], first, last, rs[0].last);
      } else if last > rs[0].last {
        InsertCanonical(rs[1..], rs[0].first, last);
      }
    }
  }

  lemma {:induction false} InsertCoverage(rs: seq<Range>, first: nat, last: nat, h: nat)
    requires Canonical(rs) && first <= last
    ensures Covers(Insert(rs, first, last), h) <==> Covers(rs, h) || InRange(Range(first, last), h)
    decreases |rs|
  {
    if rs == [] {
      CoversCons(Range(first, last), [], h);
    } else {
      CoversHead(rs, h);
      if first <= rs[0].first {
        if last >= rs[0].first {
          InsertCoverage(rs[1..], first, Max(rs[0].last, last), h);
        } else {
          CoversCons(Range(first, last), rs, h);
        }
      } else if first > rs[0].last {
        InsertCoverage(rs[1..], first, last, h);
        CoversCons(rs[0], Insert(rs[1..], first, last), h);
      } else if last > rs[0].last {
        InsertCoverage(rs[1..], rs[0].first, last, h);
      }
    }
  }

  // ---------------------------------------------------------------- sequences of insertions

  /** The list after inserting all ranges given, the invalid ones ignored. */
  function InsertAll(calls: seq<Range>): seq<Range> {
    if calls == [] then []
    else
      var rs, r := InsertAll(calls[..|calls| - 1]), calls[|calls| - 1];
      if r.last < r.first then rs else Insert(rs, r.first, r.last)
  }

  /** The union is exact: a position is covered exactly when some given range covers it. */
  lemma {:induction false} InsertAllExact(calls: seq<Range>, h: nat)
    ensures Canonical(InsertAll(calls))
    ensures Covers(InsertAll(calls), h) <==> Covers(calls, h)
  {
    if calls != [] {
      var prefix, r := calls[..|calls| - 1], calls[|calls| - 1];
      InsertAllExact(prefix, h);
      assert calls == prefix + [r];
      CoversSnoc(prefix, r, h);
      if r.first <= r.last {
        InsertCanonical(InsertAll(prefix), r.first, r.last);
        InsertCoverage(InsertAll(prefix), r.first, r.last, h);
      }
    }
  }

  /** A canonical list with the coverage of the calls is the list the calls build. */
  lemma CanonicalIsInsertAll(rs: seq<Range>, calls: seq<Range>)
    requires Canonical(rs) && forall h: nat :: Covers(rs, h) <==> Covers(calls, h)
    ensures rs == InsertAll(calls)
  {
    forall h: nat
      ensures Covers(rs, h) <==> Covers(InsertAll(calls), h)
    {
      InsertAllExact(calls, h);
    }
    InsertAllExact(calls, 0);
    CanonicalUnique(rs, InsertAll(calls));
  }

  /** The order of the calls, and repetitions among them, do not matter. */
  lemma InsertAllOrderIrrelevant(calls: seq<Range>, calls': seq<Range>)
    requires forall r :: r in calls <==> r in calls'
    ensures InsertAll(calls) == InsertAll(calls')
  {
    forall h: nat
      ensures Covers(InsertAll(calls), h) <==> Covers(calls', h)
    {
      InsertAllExact(calls, h);
      CoversElements(calls, calls', h);
      CoversElements(calls', calls, h);
    }
    InsertAllExact(calls, 0);
    CanonicalIsInsertAll(InsertAll(calls), calls');
  }
}
