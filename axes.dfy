/** Tick selection of `drawAxes`. */
module Axes {
  import opened Dataset

  /** JavaScript's `a % 10`: the remainder takes the sign of `a` (truncating
      division), unlike Dafny's Euclidean `%`; it is zero exactly when `a` is a
      multiple of 10. */
  function JsRemTen(a: int): (r: int)
    ensures -10 < r < 10
    ensures a < 0 ==> r <= 0
    ensures a >= 0 ==> r >= 0
    ensures (a - r) % 10 == 0
    ensures r == 0 <==> a % 10 == 0
  {
    if a >= 0 then a % 10 else -((-a) % 10)
  }

  /** The x-axis tick filter `val % 10 === 0`. */
  predicate IsDecade(year: int)
    ensures IsDecade(year) <==> year % 10 == 0
  {
    JsRemTen(year) == 0
  }

  /** The x-axis tick values: the domain years divisible by 10, in domain order. */
  function XTicks(xDomain: seq<int>): (ticks: seq<int>)
    ensures |ticks| <= |xDomain|
    ensures forall y :: y in ticks ==> y in xDomain && y % 10 == 0
    ensures forall y :: y in xDomain && y % 10 == 0 ==> y in ticks
  {
    if xDomain == [] then []
    else if IsDecade(xDomain[0]) then [xDomain[0]] + XTicks(xDomain[1..])
    else XTicks(xDomain[1..])
  }

  /** `r` can be obtained from `s` by deleting elements, keeping the rest in order. */
  ghost predicate IsSubsequence(r: seq<int>, s: seq<int>)
    decreases |s|
  {
    if r == [] then true
    else if s == [] then false
    else (r[0] == s[0] && IsSubsequence(r[1..], s[1..])) || IsSubsequence(r, s[1..])
  }

  /** The ticks keep the domain's order. */
  lemma {:induction false} XTicksKeepOrder(xDomain: seq<int>)
    ensures IsSubsequence(XTicks(xDomain), xDomain)
  {
    if xDomain != [] {
      XTicksKeepOrder(xDomain[1..]);
      var rest := XTicks(xDomain[1..]);
      if IsDecade(xDomain[0]) {
        assert XTicks(xDomain) == [xDomain[0]] + rest;
        assert ([xDomain[0]] + rest)[1..] == rest;
      } else if rest != [] {
        assert XTicks(xDomain) == rest;
      }
    }
  }

  /** Each year occurs among the ticks as often as in the domain when it is a
      multiple of 10, and never otherwise: no qualifying year is dropped or
      duplicated, and nothing else is added. */
  lemma {:induction false} XTicksCountOccurrences(xDomain: seq<int>, y: int)
    ensures multiset(XTicks(xDomain))[y] == if y % 10 == 0 then multiset(xDomain)[y] else 0
  {
    if xDomain != [] {
      XTicksCountOccurrences(xDomain[1..], y);
      assert xDomain == [xDomain[0]] + xDomain[1..];
      assert multiset(xDomain) == multiset([xDomain[0]]) + multiset(xDomain[1..]);
    }
  }

  /** The y-axis label of month row `row` is `months[row]`, the month of the
      `row`-th record of the document (undefined past its end). */
  function YTickMonth(records: seq<Record>, row: int): (m: Option<int>)
    ensures m.Some? <==> 0 <= row < |records|
  {
    if 0 <= row < |records| then Some(records[row].month) else None
  }

  /** Every row k of the y axis (0..11) is labelled with calendar month k + 1
      exactly when the document holds at least 12 records and they begin with
      January through December in order. */
  lemma YLabelsRightIffYearStartsInJanuary(records: seq<Record>)
    ensures (forall k :: 0 <= k < 12 ==> YTickMonth(records, k) == Some(k + 1))
        <==> (|records| >= 12 && forall k :: 0 <= k < 12 ==> records[k].month == k + 1)
  {
    if forall k :: 0 <= k < 12 ==> YTickMonth(records, k) == Some(k + 1) {
      assert YTickMonth(records, 11).Some?;
      forall k | 0 <= k < 12 ensures records[k].month == k + 1 {
        assert YTickMonth(records, k) == Some(k + 1);
      }
    }
  }

  /** A document whose first record is February labels the January row "February". */
  lemma YLabelWrongWhenFirstRecordIsFebruary(records: seq<Record>)
    requires |records| > 0 && records[0].month == 2
    ensures YTickMonth(records, 0) != Some(1)
  {
  }
}
