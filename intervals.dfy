/** Day-granular interval vocabulary shared by the server and the client pages.
    A calendar date is a day number (midnight-normalised); a stored range is
    the sequence of booked nights, and check-out is never one of them. */
module Intervals {

  datatype Option<+T> = None | Some(value: T) {
    function GetOr(default: T): T {
      match this
      case Some(v) => v
      case None => default
    }
  }

  /** The half-open interval [start, end) of day numbers. */
  datatype Interval = Interval(start: int, end: int)

  /** Day `d` lies in `iv`: on or after its start, strictly before its end. */
  predicate Covers(iv: Interval, d: int) {
    iv.start <= d < iv.end
  }

  /** Two half-open intervals intersect iff each starts before the other ends. */
  predicate Overlaps(a: Interval, b: Interval) {
    a.start < b.end && b.start < a.end
  }

  /** Decodes a stored range into [first night, last night + 1); an empty range
      has no interval. */
  function Span(r: seq<int>): Option<Interval> {
    if |r| == 0 then None else Some(Interval(r[0], r[|r| - 1] + 1))
  }

  /** Each night of the range is the day after the previous one. */
  predicate Consecutive(r: seq<int>) {
    forall i :: 0 < i < |r| ==> r[i] == r[i - 1] + 1
  }

  /** Some non-empty stored range has an interval that intersects `iv`. */
  predicate OverlapsAny(booked: seq<seq<int>>, iv: Interval) {
    exists i :: 0 <= i < |booked| && Span(booked[i]).Some? && Overlaps(iv, Span(booked[i]).value)
  }

  /** Some non-empty stored range has an interval that covers day `d`. */
  predicate BookedOn(booked: seq<seq<int>>, d: int) {
    exists i :: 0 <= i < |booked| && Span(booked[i]).Some? && Covers(Span(booked[i]).value, d)
  }

  /** No two non-empty stored ranges overlap. */
  predicate Disjoint(booked: seq<seq<int>>) {
    forall i, j ::
      0 <= i < |booked| && 0 <= j < |booked| && i != j &&
      Span(booked[i]).Some? && Span(booked[j]).Some? ==>
        !Overlaps(Span(booked[i]).value, Span(booked[j]).value)
  }

  /** The `.some(range => start <= d < last + 1)` test written out over the
      list, skipping empty ranges. */
  function SomeCovers(booked: seq<seq<int>>, d: int): (b: bool)
    ensures b <==> BookedOn(booked, d)
    decreases |booked|
  {
    if booked == [] then false
    else
      var range := booked[0];
      (|range| > 0 && range[0] <= d < range[|range| - 1] + 1) || SomeCovers(booked[1..], d)
  }

  /** The "Booked" badge of the hotel list and of the details page: the booked
      dates are an array (None otherwise) and one of its ranges covers today. */
  function BookedToday(bookedDates: Option<seq<seq<int>>>, today: int): (b: bool)
    ensures b <==> bookedDates.Some? && BookedOn(bookedDates.value, today)
  {
    bookedDates.Some? && SomeCovers(bookedDates.value, today)
  }

  lemma OverlapSymmetric(a: Interval, b: Interval)
    ensures Overlaps(a, b) <==> Overlaps(b, a)
  {
  }

  /** A stay that starts on another's check-out day does not overlap it. */
  lemma AdjacentNotOverlap(a: Interval, b: Interval)
    requires a.end == b.start
    ensures !Overlaps(a, b) && !Overlaps(b, a)
  {
  }

  lemma SelfOverlap(a: Interval)
    requires a.start < a.end
    ensures Overlaps(a, a)
  {
  }

  /** Overlap of non-empty intervals means exactly that they share a day. */
  lemma OverlapsIffSharedDay(a: Interval, b: Interval)
    requires a.start < a.end && b.start < b.end
    ensures Overlaps(a, b) <==> exists d :: Covers(a, d) && Covers(b, d)
  {
    if Overlaps(a, b) {
      var d := if a.start < b.start then b.start else a.start;
      assert Covers(a, d) && Covers(b, d);
    }
  }

  /** In a consecutive range the k-th night is k days after the first. */
  lemma {:induction false} ConsecutiveOffset(r: seq<int>, k: nat)
    requires Consecutive(r) && k < |r|
    ensures r[k] == r[0] + k
  {
    if k > 0 {
      ConsecutiveOffset(r, k - 1);
    }
  }

  /** For a well-formed range, its decoded interval covers exactly its nights:
      the first and last nights are booked, the check-out day is not. */
  lemma ConsecutiveCovers(r: seq<int>, d: int)
    requires |r| > 0 && Consecutive(r)
    ensures Covers(Span(r).value, d) <==> d in r
  {
    ConsecutiveOffset(r, |r| - 1);
    if Covers(Span(r).value, d) {
      ConsecutiveOffset(r, d - r[0]);
      assert r[d - r[0]] == d;
    }
    if d in r {
      var k :| 0 <= k < |r| && r[k] == d;
      ConsecutiveOffset(r, k);
    }
  }
}
