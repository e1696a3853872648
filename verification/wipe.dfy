/**
 * The retention step of FDB management: choose which archived forecast to delete and
 * build the fdb-wipe filter that names it. Forecasts are run starts in seconds since
 * the epoch; the caller's list is an array, sorted in place as list.sort() does.
 */
module Wipe {
  import opened Wrappers
  import opened Decimal
  import Calendar
  import opened Sorting

  datatype WipeError =
    | EmptyList                                // RuntimeError: nothing to wipe
    | IndexTooLarge(index: int, count: nat)    // ValueError: cannot ignore that many forecasts
    | IndexOutOfRange(index: int, count: nat)  // IndexError: a negative index below -count

  /**
   * The forecast wipe_fdb deletes from the sorted forecasts: the one at Python index
   * `exception`, where a negative index counts from the newest end.
   */
  function Selected(sorted: seq<int>, exception: int): (r: Result<int, WipeError>)
    ensures r.Success? <==> |sorted| > 0 && -|sorted| <= exception < |sorted|
    ensures r.Success? ==> r.value in sorted
  {
    if |sorted| == 0 then Failure(EmptyList)
    else if exception > |sorted| - 1 then Failure(IndexTooLarge(exception, |sorted|))
    else if exception < -|sorted| then Failure(IndexOutOfRange(exception, |sorted|))
    else Success(sorted[if exception >= 0 then exception else |sorted| + exception])
  }

  /** The fdb-wipe filter "date=%Y%m%d,time=%H%M" of a forecast start. */
  function WipeFilter(t: int): string
  {
    var d := Calendar.FromTimestamp(t);
    "date=" + Calendar.DateString(d) + ",time=" + Calendar.HourMinuteString(d)
  }

  /** What wipe_fdb asks fdb-wipe to delete, given the forecasts once sorted. */
  function WipeOf(sorted: seq<int>, exception: int): Result<string, WipeError>
  {
    match Selected(sorted, exception)
    case Failure(e) => Failure(e)
    case Success(t) => Success(WipeFilter(t))
  }

  /**
   * wipe_fdb up to the call of fdb-wipe: the checks, the in-place sort and the filter.
   * A failed check leaves the list as it was; otherwise the list ends up sorted, holding
   * the same forecasts.
   */
  method WipeFdb(forecasts: array<int>, exception: int) returns (r: Result<string, WipeError>)
    modifies forecasts
    ensures forecasts.Length == 0 ==> r == Failure(EmptyList)
    ensures forecasts.Length == 0 || exception > forecasts.Length - 1 ==> forecasts[..] == old(forecasts[..])
    ensures forecasts.Length > 0 && exception <= forecasts.Length - 1 ==>
      Sorted(forecasts[..]) && multiset(forecasts[..]) == old(multiset(forecasts[..]))
    ensures r == WipeOf(forecasts[..], exception)
  {
    if forecasts.Length == 0 {
      return Failure(EmptyList);
    }
    if exception > forecasts.Length - 1 {
      return Failure(IndexTooLarge(exception, forecasts.Length));
    }
    InsertionSort(forecasts);
    if exception < -forecasts.Length {
      return Failure(IndexOutOfRange(exception, forecasts.Length));
    }
    var index := if exception >= 0 then exception else forecasts.Length + exception;
    assert Selected(forecasts[..], exception) == Success(forecasts[index]);
    return Success(WipeFilter(forecasts[index]));
  }

  /** With the default exception of 0 the oldest forecast is deleted. */
  lemma DefaultWipesOldest(sorted: seq<int>, forecasts: seq<int>)
    requires Sorted(sorted) && multiset(sorted) == multiset(forecasts) && |forecasts| > 0
    ensures Selected(sorted, 0).Success?
    ensures var t := Selected(sorted, 0).value;
      t in forecasts && forall x | x in forecasts :: t <= x
  {
    assert |sorted| == |forecasts| by {
      assert |multiset(sorted)| == |multiset(forecasts)|;
    }
    SortedHeadIsLeast(sorted, forecasts);
  }

  /**
   * With exception 1 and distinct forecasts the oldest one is kept: the deleted forecast is
   * younger than some forecast, and any forecast older than it is the oldest.
   */
  lemma ExceptionOneKeepsOldest(sorted: seq<int>, forecasts: seq<int>)
    requires Sorted(sorted) && multiset(sorted) == multiset(forecasts) && |forecasts| >= 2
    requires Distinct(forecasts)
    ensures Selected(sorted, 1).Success?
    ensures var t := Selected(sorted, 1).value;
      && t in forecasts
      && (exists x | x in forecasts :: x < t)
      && forall x | x in forecasts && x < t :: forall y | y in forecasts :: x <= y
  {
    assert |sorted| == |forecasts| by {
      assert |multiset(sorted)| == |multiset(forecasts)|;
    }
    SortedDistinctIncreases(sorted, forecasts);
    SortedHeadIsLeast(sorted, forecasts);
    var t := sorted[1];
    assert sorted[0] in forecasts && sorted[0] < t;
    assert t in multiset(sorted);
    assert forall j | 1 <= j < |sorted| :: t <= sorted[j];
    forall x | x in forecasts && x < t
      ensures x == sorted[0]
    {
      assert x in multiset(sorted);
      var i :| 0 <= i < |sorted| && sorted[i] == x;
    }
  }

  /** A negative exception is not refused: -1 deletes the newest forecast. */
  lemma MinusOneWipesNewest(sorted: seq<int>, forecasts: seq<int>)
    requires Sorted(sorted) && multiset(sorted) == multiset(forecasts) && |forecasts| > 0
    ensures Selected(sorted, -1).Success?
    ensures var t := Selected(sorted, -1).value;
      t in forecasts && forall x | x in forecasts :: x <= t
  {
    assert |sorted| == |forecasts| by {
      assert |multiset(sorted)| == |multiset(forecasts)|;
    }
    var t := sorted[|sorted| - 1];
    assert t in multiset(sorted);
    forall x | x in forecasts
      ensures x <= t
    {
      assert x in multiset(sorted);
      var i :| 0 <= i < |sorted| && sorted[i] == x;
    }
  }

  /**
   * The filter of a forecast that the archive listed under a "%Y%m%d:%H%M" key is that key's
   * date and time: wipe_fdb deletes exactly the forecast it was given.
   */
  lemma WipeFilterOfListedForecast(key: string)
    requires Calendar.ParseForecastKey(key).Some?
    ensures WipeFilter(Calendar.ToTimestamp(Calendar.ParseForecastKey(key).value))
         == "date=" + key[..8] + ",time=" + key[9..]
  {
    var d := Calendar.ParseForecastKey(key).value;
    Calendar.DateTimeRoundTrip(d);
    Calendar.ParsedKeyPrintsBack(key);
    Calendar.DateStringWidth(d);
    var date, time := Calendar.DateString(d), Calendar.HourMinuteString(d);
    assert key == date + ":" + time;
    assert key[..8] == date && key[9..] == time;
  }

  /** The cases of the tests of wipe_fdb: the empty list, an index too large, the default. */
  lemma WipeExamples(day1: int, day2: int)
    requires Calendar.FromTimestamp(day1) == Calendar.DateTime(2023, 1, 1, 0, 0, 0)
    requires day1 < day2
    ensures WipeOf([], 0) == Failure(EmptyList)
    ensures WipeOf([day1, day2], 3) == Failure(IndexTooLarge(3, 2))
    ensures WipeOf([day1, day2], 0) == Success("date=20230101,time=0000")
  {
    NewYearFilter(day1);
    assert Selected([day1, day2], 0) == Success(day1);
  }

  /** The filter of a run starting on 2023-01-01 at midnight. */
  lemma NewYearFilter(day: int)
    requires Calendar.FromTimestamp(day) == Calendar.DateTime(2023, 1, 1, 0, 0, 0)
    ensures WipeFilter(day) == "date=20230101,time=0000"
  {
    NewYearStrings();
    WipeFilterOf(day, "20230101", "0000");
    NewYearText();
  }

  lemma NewYearText()
    ensures "date=" + "20230101" + ",time=" + "0000" == "date=20230101,time=0000"
  {
    assert "date=" + "20230101" == "date=20230101";
    assert "date=20230101" + ",time=" == "date=20230101,time=";
  }

  /** The filter of a run start, given the date and time it prints as. */
  lemma WipeFilterOf(t: int, date: string, time: string)
    requires Calendar.DateString(Calendar.FromTimestamp(t)) == date
    requires Calendar.HourMinuteString(Calendar.FromTimestamp(t)) == time
    ensures WipeFilter(t) == "date=" + date + ",time=" + time
  {
  }

  lemma NewYearStrings()
    ensures Calendar.DateString(Calendar.DateTime(2023, 1, 1, 0, 0, 0)) == "20230101"
    ensures Calendar.HourMinuteString(Calendar.DateTime(2023, 1, 1, 0, 0, 0)) == "0000"
  {
    YearDigits2023();
    PadOne();
    PadZero();
  }

  lemma YearDigits2023()
    ensures Pad(2023, 4) == "2023"
  {
    assert NumDigits(2023) == 4;
    assert Digits(2023, 4) == "2023";
  }

  lemma PadOne()
    ensures Pad(1, 2) == "01"
  {
  }

  lemma PadZero()
    ensures Pad(0, 2) == "00"
  {
  }
}
