/** `HistoryView`: the bars of the "Last 7 Days" chart. */
module HistoryView {
  import opened DayWindow
  import opened Records

  /** One bar: the day's start, the number of completions that day and `count / 3`.
      `count` is not a field of the source's record; it is kept to state the bar's value. */
  datatype DayCompletion = DayCompletion(date: int, count: nat, percent: real)

  function Reverse<T>(s: seq<T>): (r: seq<T>)
    ensures |r| == |s|
    ensures forall i :: 0 <= i < |s| ==> r[i] == s[|s| - 1 - i]
  {
    if s == [] then [] else Reverse(s[1..]) + [s[0]]
  }

  /** `(0...6).map { today - $0 days }.reversed()`: the last seven day starts, oldest first. */
  function WeekDays(now: int): (days: seq<int>)
    ensures |days| == 7
    ensures forall i :: 0 <= i < 7 ==> days[i] == AddDays(StartOfDay(now), i - 6)
  {
    var today := StartOfDay(now);
    Reverse(seq(7, k => AddDays(today, -k)))
  }

  /** The number of completions with `lo <= date < hi`. */
  function CountBetween(cs: seq<Completion>, lo: int, hi: int): (n: nat)
    ensures n <= |cs|
  {
    if cs == [] then 0
    else (if lo <= cs[0].date < hi then 1 else 0) + CountBetween(cs[1..], lo, hi)
  }

  lemma {:induction false} OnDayCount(cs: seq<Completion>, start: int)
    ensures |OnDay(cs, start)| == CountBetween(cs, start, AddDays(start, 1))
  {
    if cs != [] {
      OnDayCount(cs[1..], start);
    }
  }

  lemma {:induction false} CountBetweenEmpty(cs: seq<Completion>, lo: int)
    ensures CountBetween(cs, lo, lo) == 0
  {
    if cs != [] {
      CountBetweenEmpty(cs[1..], lo);
    }
  }

  /** Adjacent windows count separately. */
  lemma {:induction false} CountBetweenSplit(cs: seq<Completion>, lo: int, mid: int, hi: int)
    requires lo <= mid <= hi
    ensures CountBetween(cs, lo, hi) == CountBetween(cs, lo, mid) + CountBetween(cs, mid, hi)
  {
    if cs != [] {
      CountBetweenSplit(cs[1..], lo, mid, hi);
    }
  }

  /** `weekData`: seven bars, oldest first, ending today; each counts the completions in its
      day window `[start, start + 1 day)`. */
  function WeekData(completions: seq<Completion>, now: int): (r: seq<DayCompletion>)
    ensures |r| == 7
    ensures r[6].date == StartOfDay(now)
    ensures forall i :: 0 <= i < 7 ==> r[i].date == AddDays(StartOfDay(now), i - 6)
    ensures forall i :: 0 <= i < 7 ==> StartOfDay(r[i].date) == r[i].date
    ensures forall i :: 0 <= i < 7 ==> r[i].count == CountBetween(completions, r[i].date, AddDays(r[i].date, 1))
    ensures forall i :: 0 <= i < 7 ==> r[i].percent == r[i].count as real / 3.0
  {
    var days := WeekDays(now);
    var r := seq(7, i requires 0 <= i < 7 =>
      var n := |OnDay(completions, days[i])|;
      DayCompletion(days[i], n, n as real / 3.0));
    forall i | 0 <= i < 7
      ensures StartOfDay(r[i].date) == r[i].date
      ensures r[i].count == CountBetween(completions, r[i].date, AddDays(r[i].date, 1))
    {
      AddDaysKeepsDayStart(StartOfDay(now), i - 6);
      OnDayCount(completions, days[i]);
    }
    r
  }

  /** The sum of the bars' counts. */
  function Total(bars: seq<DayCompletion>): nat {
    if bars == [] then 0 else Total(bars[..|bars| - 1]) + bars[|bars| - 1].count
  }

  lemma {:induction false} TotalOfConsecutiveDays(bars: seq<DayCompletion>, cs: seq<Completion>, first: int, k: nat)
    requires k <= |bars|
    requires forall i :: 0 <= i < |bars| ==> bars[i].date == AddDays(first, i)
    requires forall i :: 0 <= i < |bars| ==> bars[i].count == CountBetween(cs, bars[i].date, AddDays(bars[i].date, 1))
    ensures Total(bars[..k]) == CountBetween(cs, first, AddDays(first, k))
  {
    if k == 0 {
      assert bars[..0] == [];
      CountBetweenEmpty(cs, first);
    } else {
      TotalOfConsecutiveDays(bars, cs, first, k - 1);
      assert bars[..k][..k - 1] == bars[..k - 1];
      CountBetweenSplit(cs, first, AddDays(first, k - 1), AddDays(first, k));
    }
  }

  /** The chart shows every completion of the last seven days exactly once, so the bars
      together count no more completions than the store holds. */
  lemma WeekTotal(completions: seq<Completion>, now: int)
    ensures Total(WeekData(completions, now))
         == CountBetween(completions, AddDays(StartOfDay(now), -6), AddDays(StartOfDay(now), 1))
    ensures Total(WeekData(completions, now)) <= |completions|
  {
    var bars := WeekData(completions, now);
    TotalOfConsecutiveDays(bars, completions, AddDays(StartOfDay(now), -6), 7);
    assert bars[..7] == bars;
  }

  lemma {:induction false} AllOnDay(cs: seq<Completion>, start: int)
    requires forall i :: 0 <= i < |cs| ==> InDay(cs[i].date, start)
    ensures OnDay(cs, start) == cs
  {
    if cs != [] {
      AllOnDay(cs[1..], start);
    }
  }

  /** The field's own comment gives the bar's value as 0.0 ... 1.0, but the code computes the
      day's completion count over three with no cap: four completions today put today's bar
      above one. */
  lemma PercentCanExceedOne(completions: seq<Completion>, now: int)
    requires |completions| >= 4
    requires forall i :: 0 <= i < |completions| ==> completions[i].date == now
    ensures WeekData(completions, now)[6].percent > 1.0
  {
    var today := StartOfDay(now);
    AllOnDay(completions, today);
    OnDayCount(completions, today);
  }
}
