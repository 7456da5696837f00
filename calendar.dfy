/** The availability calendar: booked ranges turned into intervals, the
    booked-day test, and the day grid of one month. */
module Calendar {
  import opened Intervals

  /** `ranges`: one interval [first night, last night + 1) per non-empty range,
      in input order; empty ranges are dropped. */
  function Ranges(booked: seq<seq<int>>): (rs: seq<Interval>)
    ensures |rs| <= |booked|
    ensures booked == [] ==> rs == []
    decreases |booked|
  {
    if booked == [] then []
    else
      var first := booked[0];
      (if |first| > 0 then [Interval(first[0], first[|first| - 1] + 1)] else []) + Ranges(booked[1..])
  }

  /** Ranges of a concatenation are the concatenation of the ranges: the
      intervals come out in the order of the stored ranges. */
  lemma {:induction false} RangesInOrder(a: seq<seq<int>>, b: seq<seq<int>>)
    ensures Ranges(a + b) == Ranges(a) + Ranges(b)
    decreases |a|
  {
    if a == [] {
      assert a + b == b;
    } else {
      assert (a + b)[0] == a[0];
      assert (a + b)[1..] == a[1..] + b;
      RangesInOrder(a[1..], b);
    }
  }

  /** Each stored range contributes exactly its decoded interval, if any. */
  lemma RangesOfOne(range: seq<int>)
    ensures Ranges([range]) == if |range| > 0 then [Span(range).value] else []
  {
    assert [range][1..] == [];
  }

  /** isBookedDay: a loop over the intervals that stops at the first one
      containing the day. */
  method IsBookedDay(ranges: seq<Interval>, day: int) returns (booked: bool)
    ensures booked <==> exists k :: 0 <= k < |ranges| && Covers(ranges[k], day)
  {
    for k := 0 to |ranges|
      invariant forall m :: 0 <= m < k ==> !Covers(ranges[m], day)
    {
      var s, e := ranges[k].start, ranges[k].end;
      if s <= day && day < e {
        return true;
      }
    }
    return false;
  }

  /** The calendar shades a day exactly when the ledger books it. */
  lemma {:induction false} CalendarMatchesLedger(booked: seq<seq<int>>, day: int)
    ensures (exists k :: 0 <= k < |Ranges(booked)| && Covers(Ranges(booked)[k], day)) <==> BookedOn(booked, day)
    decreases |booked|
  {
    if booked != [] {
      var first, rest := booked[0], booked[1..];
      CalendarMatchesLedger(rest, day);
      var head := if |first| > 0 then [Interval(first[0], first[|first| - 1] + 1)] else [];
      var rs := Ranges(booked);
      assert rs == head + Ranges(rest);
      if exists k :: 0 <= k < |rs| && Covers(rs[k], day) {
        var k :| 0 <= k < |rs| && Covers(rs[k], day);
        if k < |head| {
          assert Span(booked[0]).Some? && Covers(Span(booked[0]).value, day);
        } else {
          assert Ranges(rest)[k - |head|] == rs[k];
          var i :| 0 <= i < |rest| && Span(rest[i]).Some? && Covers(Span(rest[i]).value, day);
          assert booked[i + 1] == rest[i];
        }
      }
      if BookedOn(booked, day) {
        var i :| 0 <= i < |booked| && Span(booked[i]).Some? && Covers(Span(booked[i]).value, day);
        if i == 0 {
          assert |first| > 0 && head == [Span(first).value];
          assert rs[0] == head[0];
          assert Covers(Ranges(booked)[0], day);
        } else {
          assert rest[i - 1] == booked[i];
          assert BookedOn(rest, day);
          var k :| 0 <= k < |Ranges(rest)| && Covers(Ranges(rest)[k], day);
          assert Ranges(booked)[|head| + k] == Ranges(rest)[k];
        }
      }
    }
  }

  /** A stored range's first and last nights are shaded; its check-out day is
      not shaded by it. */
  lemma RangeEndpoints(range: seq<int>)
    requires |range| > 0 && Consecutive(range)
    ensures Covers(Span(range).value, range[0])
    ensures Covers(Span(range).value, range[|range| - 1])
    ensures !Covers(Span(range).value, range[|range| - 1] + 1)
  {
    ConsecutiveOffset(range, |range| - 1);
  }

  /** The `Month` grid: `firstWeekday` blanks, then each day of the month from
      `first` to `last`, by a loop that pushes the current day and advances it. */
  method MonthDays(firstWeekday: nat, first: int, last: int) returns (cells: seq<Option<int>>)
    ensures |cells| == firstWeekday + (if first <= last then last - first + 1 else 0)
    ensures forall k :: 0 <= k < firstWeekday ==> cells[k] == None
    ensures forall k :: firstWeekday <= k < |cells| ==> cells[k] == Some(first + (k - firstWeekday))
  {
    cells := [];
    for i := 0 to firstWeekday
      invariant |cells| == i
      invariant forall k :: 0 <= k < i ==> cells[k] == None
    {
      cells := cells + [None];
    }
    var cur := first;
    while cur <= last
      invariant cur == first || first < cur <= last + 1
      invariant |cells| == firstWeekday + (cur - first)
      invariant forall k :: 0 <= k < firstWeekday ==> cells[k] == None
      invariant forall k :: firstWeekday <= k < |cells| ==> cells[k] == Some(first + (k - firstWeekday))
    {
      cells := cells + [Some(cur)];
      cur := cur + 1;
    }
  }
}
