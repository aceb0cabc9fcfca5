/** `HabitRow.toggleCompletion`: flip the habit's flag, insert one completion or delete today's
    completions of its slot, then count the streak over the last seven days and add the
    perfect-day bonus. The count is left in a local (`newStreak`) and never stored; the end of
    the module shows the consequence and a variant that stores it. */
module HabitRow {
  import opened Wrappers
  import opened DayWindow
  import opened Records
  import TimeOfDay

  /** Days the streak scan visits: today and the six before it (`0...6`). */
  const ScanDays: nat := 7

  /** The start of the day `j` days before the day starting at `day`. */
  function DayBefore(day: int, j: int): int {
    AddDays(day, -j)
  }

  /** Consecutive days, from `day` backwards and at most `n` of them, each holding a completion
      tagged `slot`; a day without one ends the run. */
  function TrailingRun(cs: seq<Completion>, slot: string, day: int, n: nat): (r: nat)
    ensures r <= n
    decreases n
  {
    if n == 0 || |SlotDay(cs, slot, day)| == 0 then 0
    else 1 + TrailingRun(cs, slot, DayBefore(day, 1), n - 1)
  }

  /** `Set(todayCompletions.map(\.timeOfDay))`: the tags present among a day's completions;
      there are no more of them than completions, and none exactly when the day has none. */
  function DistinctSlots(cs: seq<Completion>, start: int): (r: set<string>)
    ensures |r| <= |OnDay(cs, start)|
    ensures r == {} <==> OnDay(cs, start) == []
  {
    var day := OnDay(cs, start);
    var tags := set c | c in day :: c.timeOfDay;
    TagCount(day);
    assert day != [] ==> day[0].timeOfDay in tags;
    tags
  }

  /** A list of completions carries at most as many tags as it has entries. */
  lemma {:induction false} TagCount(cs: seq<Completion>)
    ensures |set c | c in cs :: c.timeOfDay| <= |cs|
  {
    if cs != [] {
      TagCount(cs[1..]);
      assert (set c | c in cs :: c.timeOfDay) == {cs[0].timeOfDay} + (set c | c in cs[1..] :: c.timeOfDay) by {
        assert cs == [cs[0]] + cs[1..];
      }
    }
  }

  /** One extra point when the day's completions carry three different tags, which takes at
      least three completions that day. */
  function PerfectDayBonus(cs: seq<Completion>, start: int): (r: nat)
    ensures r <= 1
    ensures r == 1 ==> |OnDay(cs, start)| >= 3
  {
    if |DistinctSlots(cs, start)| == 3 then 1 else 0
  }

  /** The streak the toggle computes from the store as it is after the insert or delete. */
  function ComputedStreak(cs: seq<Completion>, slot: string, todayStart: int): (r: nat)
    ensures r <= ScanDays + 1
  {
    TrailingRun(cs, slot, todayStart, ScanDays) + PerfectDayBonus(cs, todayStart)
  }

  /** One step of the scan, `k` days back from `todayStart`. */
  lemma TrailingRunStep(cs: seq<Completion>, slot: string, todayStart: int, k: int, n: nat)
    requires n > 0
    ensures TrailingRun(cs, slot, DayBefore(todayStart, k), n)
         == if |SlotDay(cs, slot, DayBefore(todayStart, k))| == 0 then 0
            else 1 + TrailingRun(cs, slot, DayBefore(todayStart, k + 1), n - 1)
  {
    assert DayBefore(DayBefore(todayStart, k), 1) == DayBefore(todayStart, k + 1);
  }

  /** The `for day in daysBack` loop: `newStreak` before the bonus. */
  method StreakScan(cs: seq<Completion>, slot: string, todayStart: int) returns (streak: nat)
    requires StartOfDay(todayStart) == todayStart
    ensures streak == TrailingRun(cs, slot, todayStart, ScanDays)
  {
    streak := 0;
    var k := 0;
    while k < ScanDays
      invariant k <= ScanDays && streak == k
      invariant TrailingRun(cs, slot, todayStart, ScanDays)
             == streak + TrailingRun(cs, slot, DayBefore(todayStart, k), ScanDays - k)
    {
      var day := DayBefore(todayStart, k);
      AddDaysKeepsDayStart(todayStart, -k);
      var start := StartOfDay(day);
      assert start == day;
      var count := |SlotDay(cs, slot, start)|;
      TrailingRunStep(cs, slot, todayStart, k, ScanDays - k);
      if count > 0 {
        streak := streak + 1;
      } else {
        break;
      }
      k := k + 1;
    }
  }

  /** `toggleCompletion()`, with the clock reading `now` and the fresh `UUID()` as parameters.
      Returns the computed `newStreak`, or `None` when the guard on the habit's context returns
      early. The habit's `streak`, `order` and `lastCompletedDate` are not written. */
  method ToggleCompletion(habit: Habit, now: int, newId: Uuid) returns (newStreak: Option<nat>)
    modifies habit`isCompleted, habit.context
    ensures habit.context == null ==> newStreak == None && habit.isCompleted == old(habit.isCompleted)
    ensures habit.context != null ==> habit.isCompleted == !old(habit.isCompleted)
    ensures habit.context != null && habit.isCompleted ==>
      habit.context.completions == old(habit.context.completions) + [Completion(newId, now, habit.timeOfDay)]
    ensures habit.context != null && !habit.isCompleted ==>
      habit.context.completions == RemoveSlotDay(old(habit.context.completions), habit.timeOfDay, StartOfDay(now))
    ensures habit.context != null ==> habit.context.habits == old(habit.context.habits)
    ensures habit.context != null ==>
      newStreak == Some(ComputedStreak(habit.context.completions, habit.timeOfDay, StartOfDay(now)))
    ensures habit.streak == old(habit.streak) && habit.order == old(habit.order)
    ensures habit.lastCompletedDate == old(habit.lastCompletedDate)
  {
    var ctx := habit.context;
    if ctx == null {
      return None;
    }
    habit.isCompleted := !habit.isCompleted;

    var todayStart := StartOfDay(now);
    if habit.isCompleted {
      ctx.InsertCompletion(Completion(newId, now, habit.timeOfDay));
    } else {
      ctx.DeleteCompletions(habit.timeOfDay, todayStart);
    }

    var cs := ctx.completions;
    var streak := StreakScan(cs, habit.timeOfDay, todayStart);

    var uniqueSlots := DistinctSlots(cs, todayStart);
    if |uniqueSlots| == 3 {
      streak := streak + 1;
    }
    assert streak == ComputedStreak(cs, habit.timeOfDay, todayStart);
    newStreak := Some(streak);
  }

  // ---------------------------------------------------------------------------------------
  // Properties of the computed streak

  /** The scan's result is the length of the longest run of days with a completion in the
      slot that ends at `day` and is at most `n` long. */
  lemma {:induction false} TrailingRunIsLongestRun(cs: seq<Completion>, slot: string, day: int, n: nat)
    ensures forall j :: 0 <= j < TrailingRun(cs, slot, day, n) ==> |SlotDay(cs, slot, DayBefore(day, j))| > 0
    ensures TrailingRun(cs, slot, day, n) < n ==>
      |SlotDay(cs, slot, DayBefore(day, TrailingRun(cs, slot, day, n)))| == 0
    decreases n
  {
    var r := TrailingRun(cs, slot, day, n);
    if n > 0 && |SlotDay(cs, slot, day)| > 0 {
      var prev := DayBefore(day, 1);
      var rp := TrailingRun(cs, slot, prev, n - 1);
      assert r == 1 + rp;
      TrailingRunIsLongestRun(cs, slot, prev, n - 1);
      forall j | 0 <= j < r
        ensures |SlotDay(cs, slot, DayBefore(day, j))| > 0
      {
        if j > 0 {
          assert DayBefore(day, j) == DayBefore(prev, j - 1);
        }
      }
      assert DayBefore(day, r) == DayBefore(prev, rp);
    } else {
      assert r == 0;
      assert DayBefore(day, 0) == day;
    }
  }

  /** Two stores with as many completions for `slot` on every day give the same run. */
  lemma {:induction false} TrailingRunCongruent(cs1: seq<Completion>, cs2: seq<Completion>, slot: string, day: int, n: nat)
    requires forall d :: |SlotDay(cs1, slot, d)| == |SlotDay(cs2, slot, d)|
    ensures TrailingRun(cs1, slot, day, n) == TrailingRun(cs2, slot, day, n)
    decreases n
  {
    if n > 0 {
      var prev := DayBefore(day, 1);
      var k1, k2 := |SlotDay(cs1, slot, day)|, |SlotDay(cs2, slot, day)|;
      assert k1 == k2;
      TrailingRunCongruent(cs1, cs2, slot, prev, n - 1);
      assert TrailingRun(cs1, slot, day, n) == if k1 == 0 then 0 else 1 + TrailingRun(cs1, slot, prev, n - 1);
      assert TrailingRun(cs2, slot, day, n) == if k2 == 0 then 0 else 1 + TrailingRun(cs2, slot, prev, n - 1);
    }
  }

  /** After a toggle on, today's slot has a completion, so the streak is at least one. */
  lemma ToggleOnStreakPositive(cs: seq<Completion>, id: Uuid, now: int, slot: string)
    ensures ComputedStreak(cs + [Completion(id, now, slot)], slot, StartOfDay(now)) >= 1
  {
    var c := Completion(id, now, slot);
    SlotDayAppend(cs, c, slot, StartOfDay(now));
    assert InSlotOnDay(c, slot, StartOfDay(now));
  }

  /** After a toggle off, today's slot has no completion and at most two tags remain for today,
      so the streak is zero, provided every stored tag names a slot. */
  lemma ToggleOffStreakZero(cs: seq<Completion>, now: int, slot: string)
    requires TimeOfDay.IsValidTag(slot)
    requires forall c :: c in cs ==> TimeOfDay.IsValidTag(c.timeOfDay)
    ensures ComputedStreak(RemoveSlotDay(cs, slot, StartOfDay(now)), slot, StartOfDay(now)) == 0
  {
    var start := StartOfDay(now);
    var rest := RemoveSlotDay(cs, slot, start);
    assert TrailingRun(rest, slot, start, ScanDays) == 0 by {
      var hits := SlotDay(rest, slot, start);
      if |hits| > 0 {
        assert hits[0] in hits;
      }
    }
    var tags := DistinctSlots(rest, start);
    var missing := TimeOfDay.FromRawValue(slot).value;
    forall t | t in tags ensures TimeOfDay.IsValidTag(t) && t != slot {
      var c :| c in OnDay(rest, start) && c.timeOfDay == t;
    }
    TimeOfDay.AtMostTwoWithoutOne(tags, missing);
  }

  /** The bonus is earned exactly when every slot has a completion that day, provided every
      stored tag names a slot. */
  lemma PerfectDayIffAllSlots(cs: seq<Completion>, start: int)
    requires forall c :: c in cs ==> TimeOfDay.IsValidTag(c.timeOfDay)
    ensures PerfectDayBonus(cs, start) == 1 <==>
      forall s: TimeOfDay.Slot :: exists c :: c in cs && InDay(c.date, start) && c.timeOfDay == TimeOfDay.RawValue(s)
  {
    var tags := DistinctSlots(cs, start);
    TimeOfDay.ThreeDistinctTags(tags);
    forall s: TimeOfDay.Slot
      ensures TimeOfDay.RawValue(s) in tags <==>
        exists c :: c in cs && InDay(c.date, start) && c.timeOfDay == TimeOfDay.RawValue(s)
    {
      if TimeOfDay.RawValue(s) in tags {
        var c :| c in OnDay(cs, start) && c.timeOfDay == TimeOfDay.RawValue(s);
      }
      if exists c :: c in cs && InDay(c.date, start) && c.timeOfDay == TimeOfDay.RawValue(s) {
        var c :| c in cs && InDay(c.date, start) && c.timeOfDay == TimeOfDay.RawValue(s);
        assert c in OnDay(cs, start);
      }
    }
  }

  /** Toggling on and then off again on the same day removes the new completion and every other
      completion of that slot and day, and nothing else. */
  lemma ToggleOnThenOff(cs: seq<Completion>, id: Uuid, now: int, later: int, slot: string)
    requires StartOfDay(later) == StartOfDay(now)
    ensures RemoveSlotDay(cs + [Completion(id, now, slot)], slot, StartOfDay(later))
         == RemoveSlotDay(cs, slot, StartOfDay(later))
  {
    RemoveSlotDayAppend(cs, Completion(id, now, slot), slot, StartOfDay(later));
  }

  /** Toggling a habit never changes the streak scan of a different slot. */
  lemma ToggleLeavesOtherSlots(cs: seq<Completion>, id: Uuid, now: int, slot: string, other: string, day: int, n: nat)
    requires other != slot
    ensures TrailingRun(cs + [Completion(id, now, slot)], other, day, n) == TrailingRun(cs, other, day, n)
    ensures TrailingRun(RemoveSlotDay(cs, slot, StartOfDay(now)), other, day, n) == TrailingRun(cs, other, day, n)
  {
    forall d ensures SlotDay(cs + [Completion(id, now, slot)], other, d) == SlotDay(cs, other, d) {
      SlotDayAppend(cs, Completion(id, now, slot), other, d);
    }
    TrailingRunCongruent(cs + [Completion(id, now, slot)], cs, other, day, n);
    forall d ensures SlotDay(RemoveSlotDay(cs, slot, StartOfDay(now)), other, d) == SlotDay(cs, other, d) {
      RemoveKeepsOtherSlots(cs, slot, StartOfDay(now), other, d);
    }
    TrailingRunCongruent(RemoveSlotDay(cs, slot, StartOfDay(now)), cs, other, day, n);
  }

  // ---------------------------------------------------------------------------------------
  // The computed streak is never stored

  /** As written, a new habit toggled on still shows no streak badge: the computed streak is
      at least one, but the stored `streak` the row displays stays zero. */
  method BadgeStaysHidden(habit: Habit, now: int, newId: Uuid) returns (newStreak: Option<nat>)
    requires habit.context != null && !habit.isCompleted && habit.streak == 0
    modifies habit`isCompleted, habit.context
    ensures habit.isCompleted
    ensures newStreak.Some? && newStreak.value >= 1
    ensures habit.streak == 0
  {
    ghost var before := habit.context.completions;
    newStreak := ToggleCompletion(habit, now, newId);
    ToggleOnStreakPositive(before, newId, now, habit.timeOfDay);
  }

  /** `toggleCompletion()` with the computed count written back to `habit.streak`, which the
      row's badge (`if habit.streak > 0`) displays. The count is at most eight, so the `Int16`
      conversion cannot trap. */
  method ToggleAndStoreStreak(habit: Habit, now: int, newId: Uuid)
    modifies habit`isCompleted, habit`streak, habit.context
    ensures habit.context == null ==>
      habit.isCompleted == old(habit.isCompleted) && habit.streak == old(habit.streak)
    ensures habit.context != null ==> habit.isCompleted == !old(habit.isCompleted)
    ensures habit.context != null && habit.isCompleted ==>
      habit.context.completions == old(habit.context.completions) + [Completion(newId, now, habit.timeOfDay)]
    ensures habit.context != null && !habit.isCompleted ==>
      habit.context.completions == RemoveSlotDay(old(habit.context.completions), habit.timeOfDay, StartOfDay(now))
    ensures habit.context != null ==>
      habit.streak as int == ComputedStreak(habit.context.completions, habit.timeOfDay, StartOfDay(now))
    ensures habit.context != null && habit.isCompleted ==> habit.streak > 0
    ensures habit.context != null && !habit.isCompleted && TimeOfDay.IsValidTag(habit.timeOfDay)
            && (forall c :: c in old(habit.context.completions) ==> TimeOfDay.IsValidTag(c.timeOfDay)) ==>
      habit.streak == 0
    ensures habit.order == old(habit.order) && habit.lastCompletedDate == old(habit.lastCompletedDate)
  {
    ghost var before := if habit.context == null then [] else habit.context.completions;
    var newStreak := ToggleCompletion(habit, now, newId);
    if newStreak.Some? {
      habit.streak := newStreak.value as int16;
      if habit.isCompleted {
        ToggleOnStreakPositive(before, newId, now, habit.timeOfDay);
      } else if TimeOfDay.IsValidTag(habit.timeOfDay) && forall c :: c in before ==> TimeOfDay.IsValidTag(c.timeOfDay) {
        ToggleOffStreakZero(before, now, habit.timeOfDay);
      }
    }
  }
}
