/** `CalendarView` and `DayCell`: the month grid, the completions of one cell's day, the
    per-slot dots and the all-slots flame. */
module CalendarView {
  import opened Wrappers
  import opened DayWindow
  import opened Records
  import opened TimeOfDay
  import HomeView

  // ---------------------------------------------------------------------------------------
  // Month grid

  /** The smallest multiple of seven at or above `n`. */
  function RoundUpToWeek(n: nat): (r: nat)
    ensures r % 7 == 0 && n <= r < n + 7
  {
    n + (7 - n % 7) % 7
  }

  /** `pad` empty cells, then days `1...n` of the month starting at `first`, then empty cells up
      to the next multiple of seven. */
  predicate GridShape(days: seq<Option<int>>, pad: nat, n: nat, first: int) {
    && |days| == RoundUpToWeek(pad + n)
    && (forall i :: 0 <= i < pad ==> days[i] == None)
    && (forall i :: pad <= i < pad + n ==> days[i] == Some(AddDays(first, i - pad)))
    && (forall i :: pad + n <= i < |days| ==> days[i] == None)
  }

  /** `makeDays()`. The calendar lookups become inputs: `monthLength` is `cal.range(of: .day,
      in: .month)`'s count, `firstOfMonth` the first day of the displayed month and
      `firstWeekday` its weekday (1 = Sunday); a failed lookup yields an empty grid. */
  method MakeDays(monthLength: Option<nat>, firstOfMonth: Option<int>, firstWeekday: int)
    returns (days: seq<Option<int>>)
    requires firstOfMonth.Some? ==> 1 <= firstWeekday <= 7
    ensures monthLength.None? || firstOfMonth.None? ==> days == []
    ensures monthLength.Some? && firstOfMonth.Some? ==>
      |days| % 7 == 0 && GridShape(days, firstWeekday - 1, monthLength.value, firstOfMonth.value)
  {
    if monthLength.None? || firstOfMonth.None? {
      return [];
    }
    var n := monthLength.value;
    var first := firstOfMonth.value;
    var pad := firstWeekday - 1;
    var target := RoundUpToWeek(pad + n);
    days := seq(pad, _ => None);

    var day := 1;
    while day <= n
      invariant 1 <= day <= n + 1
      invariant |days| == pad + day - 1
      invariant forall i :: 0 <= i < pad ==> days[i] == None
      invariant forall i :: pad <= i < |days| ==> days[i] == Some(AddDays(first, i - pad))
    {
      days := days + [Some(AddDays(first, day - 1))];
      day := day + 1;
    }

    while |days| % 7 != 0
      invariant pad + n <= |days| <= target
      invariant forall i :: 0 <= i < pad ==> days[i] == None
      invariant forall i :: pad <= i < pad + n ==> days[i] == Some(AddDays(first, i - pad))
      invariant forall i :: pad + n <= i < |days| ==> days[i] == None
      decreases target - |days|
    {
      days := days + [None];
    }
  }

  /** The number of non-empty cells. */
  function CountSome<T>(s: seq<Option<T>>): nat {
    if s == [] then 0 else (if s[0].Some? then 1 else 0) + CountSome(s[1..])
  }

  lemma {:induction false} CountSomeSplit<T>(a: seq<Option<T>>, b: seq<Option<T>>)
    ensures CountSome(a + b) == CountSome(a) + CountSome(b)
  {
    if a == [] {
      assert a + b == b;
    } else {
      assert (a + b)[0] == a[0];
      assert (a + b)[1..] == a[1..] + b;
      CountSomeSplit(a[1..], b);
    }
  }

  lemma {:induction false} CountSomeUniform<T>(s: seq<Option<T>>, full: bool)
    requires forall i :: 0 <= i < |s| ==> s[i].Some? == full
    ensures CountSome(s) == if full then |s| else 0
  {
    if s != [] {
      CountSomeUniform(s[1..], full);
    }
  }

  /** A grid holds exactly one cell per day of the month. */
  lemma GridHasMonthDays(days: seq<Option<int>>, pad: nat, n: nat, first: int)
    requires GridShape(days, pad, n, first)
    ensures CountSome(days) == n
  {
    var lead, month, trail := days[..pad], days[pad..pad + n], days[pad + n..];
    assert days == lead + month + trail;
    assert forall i :: 0 <= i < |lead| ==> lead[i] == days[i];
    assert forall i :: 0 <= i < |month| ==> month[i] == days[pad + i];
    assert forall i :: 0 <= i < |trail| ==> trail[i] == days[pad + n + i];
    CountSomeSplit(lead + month, trail);
    CountSomeSplit(lead, month);
    CountSomeUniform(lead, false);
    CountSomeUniform(month, true);
    CountSomeUniform(trail, false);
  }

  /** The grid's dates increase from cell to cell. */
  lemma GridDatesIncrease(days: seq<Option<int>>, pad: nat, n: nat, first: int)
    requires GridShape(days, pad, n, first)
    ensures forall i, j :: 0 <= i < j < |days| && days[i].Some? && days[j].Some? ==>
      days[i].value < days[j].value
  {
    forall i, j | 0 <= i < j < |days| && days[i].Some? && days[j].Some?
      ensures days[i].value < days[j].value
    {
      assert pad <= i < pad + n && pad <= j < pad + n;
    }
  }

  // ---------------------------------------------------------------------------------------
  // A cell's completions

  lemma SameDayAsWindow(cs: seq<Completion>, d: int)
    ensures forall c :: c in cs ==> (InDay(c.date, StartOfDay(d)) <==> StartOfDay(c.date) == StartOfDay(d))
  {
    forall c | c in cs ensures InDay(c.date, StartOfDay(d)) <==> StartOfDay(c.date) == StartOfDay(d) {
      InDayIffSameDay(c.date, d);
    }
  }

  /** `completionsFor(date:)`: nothing for an empty cell, otherwise the completions made on
      the cell's calendar day, in store order. */
  function CompletionsFor(completions: seq<Completion>, date: Option<int>): (r: seq<Completion>)
    ensures date.None? ==> r == []
    ensures date.Some? ==>
      forall c :: c in r <==> c in completions && StartOfDay(c.date) == StartOfDay(date.value)
  {
    match date
    case None => []
    case Some(d) =>
      SameDayAsWindow(completions, d);
      OnDay(completions, StartOfDay(d))
  }

  /** The cell's completions keep the date order of the fetch. */
  lemma CompletionsForInOrder(completions: seq<Completion>, date: Option<int>)
    requires DateSorted(completions)
    ensures DateSorted(CompletionsFor(completions, date))
  {
    if date.Some? {
      OnDayKeepsDateOrder(completions, StartOfDay(date.value));
    }
  }

  // ---------------------------------------------------------------------------------------
  // Dots and flame

  /** The number of habits assigned to `slot`. */
  function SlotHabitCount(allHabits: seq<Habit>, slot: Slot): nat
    reads allHabits
  {
    |HomeView.HabitsFor(allHabits, RawValue(slot))|
  }

  /** `isSlotComplete(_:on:)`: the slot has habits, and the slot's completions that day number
      at least as many as its habits. */
  function IsSlotComplete(slot: Slot, day: int, completions: seq<Completion>, allHabits: seq<Habit>): (b: bool)
    reads allHabits
    ensures SlotHabitCount(allHabits, slot) == 0 ==> !b
    ensures SlotHabitCount(allHabits, slot) > 0 ==>
      (b <==> |SlotDay(completions, RawValue(slot), StartOfDay(day))| >= SlotHabitCount(allHabits, slot))
  {
    var start := StartOfDay(day);
    var total := SlotHabitCount(allHabits, slot);
    if total == 0 then false
    else
      var done := |OnDay(InSlot(completions, RawValue(slot)), start)|;
      TwoStepQuery(completions, RawValue(slot), start);
      done >= total
  }

  /** A dot needs a habit in the slot and a completion of the slot on that day. */
  lemma DotNeedsHabitAndCompletion(slot: Slot, day: int, completions: seq<Completion>, allHabits: seq<Habit>)
    requires IsSlotComplete(slot, day, completions, allHabits)
    ensures exists i :: 0 <= i < |allHabits| && allHabits[i].timeOfDay == RawValue(slot)
    ensures exists c :: c in completions && c.timeOfDay == RawValue(slot) && StartOfDay(c.date) == StartOfDay(day)
  {
    var start := StartOfDay(day);
    var h := HomeView.HabitsFor(allHabits, RawValue(slot))[0];
    assert h in allHabits;
    var c := SlotDay(completions, RawValue(slot), start)[0];
    assert c in SlotDay(completions, RawValue(slot), start);
    InDayIffSameDay(c.date, day);
  }

  /** `allSatisfy { isSlotComplete($0, on: d) }` over a list of slots. */
  function AllComplete(slots: seq<Slot>, day: int, completions: seq<Completion>, allHabits: seq<Habit>): (b: bool)
    reads allHabits
    ensures b <==> forall i :: 0 <= i < |slots| ==> IsSlotComplete(slots[i], day, completions, allHabits)
  {
    if slots == [] then true
    else IsSlotComplete(slots[0], day, completions, allHabits) && AllComplete(slots[1..], day, completions, allHabits)
  }

  /** The cell's flame: every slot of `allCases` is complete. */
  function FlameShown(day: int, completions: seq<Completion>, allHabits: seq<Habit>): (b: bool)
    reads allHabits
    ensures b <==> (IsSlotComplete(Morning, day, completions, allHabits)
                    && IsSlotComplete(Afternoon, day, completions, allHabits)
                    && IsSlotComplete(Evening, day, completions, allHabits))
  {
    var all := AllComplete(AllCases, day, completions, allHabits);
    assert AllCases[0] == Morning && AllCases[1] == Afternoon && AllCases[2] == Evening;
    all
  }

  /** A cell given only its own day's completions decides its dots as it would from the
      whole store. */
  lemma CellSeesItsDay(slot: Slot, d: int, completions: seq<Completion>, allHabits: seq<Habit>)
    ensures IsSlotComplete(slot, d, CompletionsFor(completions, Some(d)), allHabits)
         == IsSlotComplete(slot, d, completions, allHabits)
  {
    var start := StartOfDay(d);
    OnDayThenSlotDay(completions, RawValue(slot), start);
  }

  /** Recording one more completion never takes away a slot's dot. */
  lemma MoreCompletionsKeepDot(slot: Slot, day: int, completions: seq<Completion>, c: Completion, allHabits: seq<Habit>)
    requires IsSlotComplete(slot, day, completions, allHabits)
    ensures IsSlotComplete(slot, day, completions + [c], allHabits)
  {
    SlotDayAppend(completions, c, RawValue(slot), StartOfDay(day));
  }
}
