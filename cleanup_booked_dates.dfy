/** The scheduled clean-up of booked ranges: one invocation of the job with
    today's day number. It drops every range whose last night is before today
    and writes a hotel only when something was dropped. */
module CleanupBookedDates {
  import opened Intervals
  import opened Models
  import Seqs

  /** The filter callback: a range is kept iff it is non-empty and its last
      night is not before today. */
  predicate Keep(today: int, range: seq<int>) {
    |range| > 0 && range[|range| - 1] >= today
  }

  /** Keeping on the last night is keeping on the exclusive end: a range stays
      iff its interval ends after today. */
  lemma KeepIffNotElapsed(today: int, range: seq<int>)
    ensures Keep(today, range) <==> Span(range).Some? && Span(range).value.end > today
  {
  }

  /** The ranges the filter keeps, unmodified and in their stored order. */
  function Kept(bookedDates: seq<seq<int>>, today: int): (r: seq<seq<int>>)
    ensures Seqs.Subsequence(r, bookedDates)
    ensures forall k :: 0 <= k < |r| ==> r[k] in bookedDates && Keep(today, r[k])
    ensures forall k :: 0 <= k < |bookedDates| && Keep(today, bookedDates[k]) ==> bookedDates[k] in r
  {
    Seqs.FilterIsSubsequence(bookedDates, range => Keep(today, range));
    Seqs.Filter(bookedDates, range => Keep(today, range))
  }

  /** A kept range survives as many times as it is stored; a dropped one not
      at all. */
  lemma KeptCounts(bookedDates: seq<seq<int>>, today: int)
    ensures forall range :: multiset(Kept(bookedDates, today))[range] ==
              if Keep(today, range) then multiset(bookedDates)[range] else 0
  {
    Seqs.FilterMultiset(bookedDates, range => Keep(today, range));
  }

  /** Whether the pass writes a hotel: it has ranges and the filter dropped one. */
  predicate Rewrites(l: Ledger, today: int) {
    |l.bookedDates| != 0 && |Kept(l.bookedDates, today)| != |l.bookedDates|
  }

  /** The pass's effect on one hotel's ledger. */
  function SweepLedger(l: Ledger, today: int): (l': Ledger)
    ensures l'.bookedDates == Kept(l.bookedDates, today)
    ensures Rewrites(l, today) ==> l'.availability == (|l'.bookedDates| == 0)
    ensures !Rewrites(l, today) ==> l' == l
  {
    if |l.bookedDates| == 0 then l
    else
      var updated := Kept(l.bookedDates, today);
      if |updated| != |l.bookedDates| then
        Ledger(updated, |updated| == 0)
      else
        Seqs.FilterSameLength(l.bookedDates, range => Keep(today, range));
        l
  }

  /** A second pass with the same day changes nothing. */
  lemma SweepIdempotent(l: Ledger, today: int)
    ensures SweepLedger(SweepLedger(l, today), today) == SweepLedger(l, today)
  {
    var once := SweepLedger(l, today);
    Seqs.FilterIdempotent(l.bookedDates, range => Keep(today, range));
    assert Kept(once.bookedDates, today) == once.bookedDates;
    assert !Rewrites(once, today);
  }

  /** The pass keeps a consistent availability flag consistent. */
  lemma SweepKeepsAvailabilityMatching(l: Ledger, today: int)
    requires l.availability == (|l.bookedDates| == 0)
    ensures SweepLedger(l, today).availability == (|SweepLedger(l, today).bookedDates| == 0)
  {
  }

  /** Dropping ranges cannot create an overlap. */
  lemma SweepKeepsDisjoint(l: Ledger, today: int)
    requires Disjoint(l.bookedDates)
    ensures Disjoint(SweepLedger(l, today).bookedDates)
  {
    KeptKeepsDisjoint(l.bookedDates, today);
  }

  lemma {:induction false} KeptKeepsDisjoint(s: seq<seq<int>>, today: int)
    requires Disjoint(s)
    ensures Disjoint(Kept(s, today))
    decreases |s|
  {
    if s != [] {
      var x, t := s[0], s[1..];
      forall i, j |
        0 <= i < |t| && 0 <= j < |t| && i != j && Span(t[i]).Some? && Span(t[j]).Some?
        ensures !Overlaps(Span(t[i]).value, Span(t[j]).value)
      {
        assert t[i] == s[i + 1] && t[j] == s[j + 1];
      }
      KeptKeepsDisjoint(t, today);
      var rest := Kept(t, today);
      if Keep(today, x) {
        assert Kept(s, today) == [x] + rest;
        forall k | 0 <= k < |rest| && Span(rest[k]).Some?
          ensures !Overlaps(Span(x).value, Span(rest[k]).value)
          ensures !Overlaps(Span(rest[k]).value, Span(x).value)
        {
          var m :| 0 <= m < |t| && t[m] == rest[k];
          assert s[m + 1] == rest[k];
        }
        DisjointCons(x, rest);
      } else {
        assert Kept(s, today) == rest;
      }
    }
  }

  /** Putting a range in front of a disjoint list keeps it disjoint when the
      range overlaps none of the list's ranges. */
  lemma DisjointCons(x: seq<int>, r: seq<seq<int>>)
    requires Disjoint(r) && Span(x).Some?
    requires forall k :: 0 <= k < |r| && Span(r[k]).Some? ==>
               !Overlaps(Span(x).value, Span(r[k]).value) && !Overlaps(Span(r[k]).value, Span(x).value)
    ensures Disjoint([x] + r)
  {
    var s := [x] + r;
    forall i, j |
      0 <= i < |s| && 0 <= j < |s| && i != j && Span(s[i]).Some? && Span(s[j]).Some?
      ensures !Overlaps(Span(s[i]).value, Span(s[j]).value)
    {
      if i == 0 {
        assert s[j] == r[j - 1];
      } else if j == 0 {
        assert s[i] == r[i - 1];
      } else {
        assert s[i] == r[i - 1] && s[j] == r[j - 1];
      }
    }
  }

  /** The pass never changes which days from today on are booked. */
  lemma SweepKeepsFutureBookings(l: Ledger, today: int, d: int)
    requires d >= today
    ensures BookedOn(SweepLedger(l, today).bookedDates, d) <==> BookedOn(l.bookedDates, d)
  {
    var before := l.bookedDates;
    var after := SweepLedger(l, today).bookedDates;
    if BookedOn(before, d) {
      var i :| 0 <= i < |before| && Span(before[i]).Some? && Covers(Span(before[i]).value, d);
      assert Keep(today, before[i]);
      var k :| 0 <= k < |after| && after[k] == before[i];
      assert Span(after[k]).Some? && Covers(Span(after[k]).value, d);
    }
    if BookedOn(after, d) {
      var k :| 0 <= k < |after| && Span(after[k]).Some? && Covers(Span(after[k]).value, d);
      var i :| 0 <= i < |before| && before[i] == after[k];
      assert Span(before[i]).Some? && Covers(Span(before[i]).value, d);
    }
  }

  /** One run of the scheduled callback over the fetched hotels. Hotels are
      handled one after another, each on its own ledger alone. A save that
      fails ends the whole pass (the loop sits inside one try): that hotel and
      the ones after it stay as they were. `completed` tells whether the loop
      ran to the end; `processed` is how many hotels were handled. */
  method Sweep(hotels: seq<Hotel>, today: int, saveFails: set<Hotel>) returns (completed: bool, processed: nat)
    requires forall i, j :: 0 <= i < j < |hotels| ==> hotels[i] != hotels[j]
    modifies set h | h in hotels
    ensures processed <= |hotels|
    ensures completed <==> processed == |hotels|
    ensures forall k :: 0 <= k < processed ==> hotels[k].State() == SweepLedger(old(hotels[k].State()), today)
    ensures forall k :: processed <= k < |hotels| ==> hotels[k].State() == old(hotels[k].State())
    ensures forall k :: 0 <= k < processed ==> !(hotels[k] in saveFails && Rewrites(old(hotels[k].State()), today))
    ensures !completed ==> hotels[processed] in saveFails && Rewrites(old(hotels[processed].State()), today)
  {
    var i := 0;
    while i < |hotels|
      invariant 0 <= i <= |hotels|
      invariant forall k :: 0 <= k < i ==> hotels[k].State() == SweepLedger(old(hotels[k].State()), today)
      invariant forall k :: i <= k < |hotels| ==> hotels[k].State() == old(hotels[k].State())
      invariant forall k :: 0 <= k < i ==> !(hotels[k] in saveFails && Rewrites(old(hotels[k].State()), today))
    {
      var hotel := hotels[i];
      if |hotel.bookedDates| == 0 {
        i := i + 1;
        continue;
      }
      var updated := Kept(hotel.bookedDates, today);
      if |updated| != |hotel.bookedDates| {
        if hotel in saveFails {
          return false, i;
        }
        hotel.bookedDates := updated;
        hotel.availability := |updated| == 0;
      }
      i := i + 1;
    }
    return true, |hotels|;
  }
}
