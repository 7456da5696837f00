/** The hotel list's price and city search filter. Each card's "Booked" badge
    is `Intervals.BookedToday`. */
module HotelsPage {
  import opened Intervals
  import Seqs

  /** The fields of a listed hotel that the page reads. `city` is None when the
      hotel has no location or no city; `bookedDates` is None when it is not
      an array. */
  datatype HotelCard = HotelCard(pricePerNight: int, city: Option<string>, bookedDates: Option<seq<seq<int>>>)

  /** Lower-casing of one character, for the letters A to Z. */
  function Lower(c: char): char {
    if 'A' <= c <= 'Z' then (c as int + 32) as char else c
  }

  function LowerString(s: string): string {
    seq(|s|, i requires 0 <= i < |s| => Lower(s[i]))
  }

  /** `needle` occurs in `hay` starting at position `i`. */
  predicate OccursAt(hay: string, needle: string, i: int) {
    0 <= i && i + |needle| <= |hay| && hay[i..i + |needle|] == needle
  }

  /** String.prototype.includes: the needle occurs somewhere in the haystack. */
  function Includes(hay: string, needle: string): (b: bool)
    ensures b <==> exists i :: OccursAt(hay, needle, i)
    decreases |hay|
  {
    if |needle| > |hay| then false
    else if hay[..|needle|] == needle then (assert OccursAt(hay, needle, 0); true)
    else
      var rest := Includes(hay[1..], needle);
      assert forall i :: OccursAt(hay[1..], needle, i) <==> OccursAt(hay, needle, i + 1) by {
        forall i ensures OccursAt(hay[1..], needle, i) <==> OccursAt(hay, needle, i + 1) {
          if 0 <= i && i + |needle| <= |hay| - 1 {
            assert hay[1..][i..i + |needle|] == hay[i + 1..i + 1 + |needle|];
          }
        }
      }
      assert !OccursAt(hay, needle, 0);
      assert (exists i :: OccursAt(hay, needle, i)) ==> exists i :: OccursAt(hay[1..], needle, i) by {
        if exists i :: OccursAt(hay, needle, i) {
          var i :| OccursAt(hay, needle, i);
          assert OccursAt(hay[1..], needle, i - 1);
        }
      }
      rest
  }

  /** The filter callback: a bound that is unset lets every price through; an
      empty city query lets every city through, otherwise the query must occur
      in the hotel's city, ignoring case. */
  predicate Matches(h: HotelCard, minPrice: Option<int>, maxPrice: Option<int>, city: string)
    ensures Matches(h, minPrice, maxPrice, city) <==>
              && (minPrice.Some? ==> h.pricePerNight >= minPrice.value)
              && (maxPrice.Some? ==> h.pricePerNight <= maxPrice.value)
              && (city != "" ==> exists i :: OccursAt(LowerString(h.city.GetOr("")), LowerString(city), i))
  {
    var priceOk := (minPrice.None? || h.pricePerNight >= minPrice.value) &&
                   (maxPrice.None? || h.pricePerNight <= maxPrice.value);
    var cityOk := city == "" || Includes(LowerString(h.city.GetOr("")), LowerString(city));
    priceOk && cityOk
  }

  /** `filtered`: the hotels that match, in list order. */
  function Filtered(hotels: seq<HotelCard>, minPrice: Option<int>, maxPrice: Option<int>, city: string): (r: seq<HotelCard>)
    ensures Seqs.Subsequence(r, hotels)
    ensures forall k :: 0 <= k < |r| ==> r[k] in hotels && Matches(r[k], minPrice, maxPrice, city)
    ensures forall k :: 0 <= k < |hotels| && Matches(hotels[k], minPrice, maxPrice, city) ==> hotels[k] in r
    ensures forall h :: multiset(r)[h] == if Matches(h, minPrice, maxPrice, city) then multiset(hotels)[h] else 0
  {
    Seqs.FilterMultiset(hotels, h => Matches(h, minPrice, maxPrice, city));
    Seqs.FilterIsSubsequence(hotels, h => Matches(h, minPrice, maxPrice, city));
    Seqs.Filter(hotels, h => Matches(h, minPrice, maxPrice, city))
  }

  /** With no bound and no city query, the list is shown whole. */
  lemma NoFilterKeepsAll(hotels: seq<HotelCard>)
    ensures Filtered(hotels, None, None, "") == hotels
  {
    Seqs.FilterKeepsAll(hotels, h => Matches(h, None, None, ""));
  }

  /** The city test ignores letter case on both sides: hotels that differ only
      in the case of their city, filtered with queries that differ only in
      case, are kept or dropped alike. */
  lemma CityMatchIgnoresCase(h: HotelCard, h': HotelCard, minPrice: Option<int>, maxPrice: Option<int>, a: string, b: string)
    requires h.pricePerNight == h'.pricePerNight
    requires LowerString(h.city.GetOr("")) == LowerString(h'.city.GetOr(""))
    requires LowerString(a) == LowerString(b)
    ensures Matches(h, minPrice, maxPrice, a) == Matches(h', minPrice, maxPrice, b)
  {
    assert |a| == |LowerString(a)| && |b| == |LowerString(b)|;
  }
}
