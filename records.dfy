/** The two record types of the data store and the queries the views run against it.
    `HabitEntity` is updated in place by the views, so it is a class; a `CompletionEntity`
    is never changed after it is created, so it is a value. The managed-object context is
    the `Store`, holding both collections in memory. */
module Records {
  import opened Wrappers
  import opened DayWindow

  /** The `Int16` attributes `streak` and `order`. */
  newtype int16 = x: int | -32768 <= x < 32768

  /** `UUID` attributes. */
  type Uuid = int

  /** A completion: when it was made and the tag of its slot. It names no habit. */
  datatype Completion = Completion(id: Uuid, date: int, timeOfDay: string)

  /** The managed-object context: every habit and completion record it holds. */
  class Store {
    var habits: seq<Habit>
    var completions: seq<Completion>

    constructor ()
      ensures habits == [] && completions == []
    {
      habits := [];
      completions := [];
    }

    /** `CompletionEntity(context:)` followed by setting its attributes. */
    method InsertCompletion(c: Completion)
      modifies this`completions
      ensures completions == old(completions) + [c]
    {
      completions := completions + [c];
    }

    /** Deleting every fetched hit of the query `timeOfDay == slot AND date in [start, start+1day)`. */
    method DeleteCompletions(slot: string, start: int)
      modifies this`completions
      ensures completions == RemoveSlotDay(old(completions), slot, start)
    {
      completions := RemoveSlotDay(completions, slot, start);
    }

    /** `context.delete(habit)`. */
    method DeleteHabit(h: Habit)
      modifies this`habits
      ensures habits == Without(old(habits), {h})
    {
      habits := Without(habits, {h});
    }
  }

  /** A habit record. */
  class Habit {
    var id: Uuid
    var name: string
    var timeOfDay: string
    var isCompleted: bool
    var streak: int16
    var lastCompletedDate: Option<int>
    var order: int16
    /** `managedObjectContext`: the store holding the record, or null when it has none. */
    var context: Store?

    /** `HabitEntity(context:)`: a record with default attribute values, inserted into `ctx`. */
    constructor (ctx: Store)
      modifies ctx
      ensures context == ctx
      ensures ctx.habits == old(ctx.habits) + [this] && ctx.completions == old(ctx.completions)
      ensures name == "" && timeOfDay == "" && !isCompleted && streak == 0 && order == 0
      ensures lastCompletedDate == None
    {
      id := 0;
      name := "";
      timeOfDay := "";
      isCompleted := false;
      streak := 0;
      lastCompletedDate := None;
      order := 0;
      context := ctx;
      new;
      ctx.habits := ctx.habits + [this];
    }
  }

  // ---------------------------------------------------------------------------------------
  // Completion queries

  /** The predicate `timeOfDay == slot AND date >= start AND date < start + 1 day`. */
  predicate InSlotOnDay(c: Completion, slot: string, start: int) {
    c.timeOfDay == slot && InDay(c.date, start)
  }

  /** The completions of one slot in one day window, in store order. */
  function SlotDay(cs: seq<Completion>, slot: string, start: int): (r: seq<Completion>)
    ensures |r| <= |cs|
    ensures forall c :: c in r <==> c in cs && InSlotOnDay(c, slot, start)
  {
    if cs == [] then []
    else (if InSlotOnDay(cs[0], slot, start) then [cs[0]] else []) + SlotDay(cs[1..], slot, start)
  }

  /** What is left after deleting every completion `SlotDay` matches. */
  function RemoveSlotDay(cs: seq<Completion>, slot: string, start: int): (r: seq<Completion>)
    ensures |r| <= |cs|
    ensures forall c :: c in r <==> c in cs && !InSlotOnDay(c, slot, start)
  {
    if cs == [] then []
    else (if InSlotOnDay(cs[0], slot, start) then [] else [cs[0]]) + RemoveSlotDay(cs[1..], slot, start)
  }

  /** The completions of every slot in one day window (`date >= start AND date < end`). */
  function OnDay(cs: seq<Completion>, start: int): (r: seq<Completion>)
    ensures |r| <= |cs|
    ensures forall c :: c in r <==> c in cs && InDay(c.date, start)
  {
    if cs == [] then []
    else (if InDay(cs[0].date, start) then [cs[0]] else []) + OnDay(cs[1..], start)
  }

  /** The completions carrying one slot tag (`filter { $0.timeOfDay == slot }`). */
  function InSlot(cs: seq<Completion>, slot: string): (r: seq<Completion>)
    ensures |r| <= |cs|
    ensures forall c :: c in r <==> c in cs && c.timeOfDay == slot
  {
    if cs == [] then []
    else (if cs[0].timeOfDay == slot then [cs[0]] else []) + InSlot(cs[1..], slot)
  }

  /** Concatenation is associative. */
  lemma ConcatAssoc<T>(a: seq<T>, b: seq<T>, c: seq<T>)
    ensures a + (b + c) == (a + b) + c
  {
  }

  /** Appending a completion extends the slot-day query by it exactly when it matches. */
  lemma {:induction false} SlotDayAppend(cs: seq<Completion>, c: Completion, slot: string, start: int)
    ensures SlotDay(cs + [c], slot, start)
         == SlotDay(cs, slot, start) + (if InSlotOnDay(c, slot, start) then [c] else [])
  {
    if cs == [] {
      assert cs + [c] == [c];
    } else {
      var head := if InSlotOnDay(cs[0], slot, start) then [cs[0]] else [];
      var tail := if InSlotOnDay(c, slot, start) then [c] else [];
      assert (cs + [c])[0] == cs[0];
      assert (cs + [c])[1..] == cs[1..] + [c];
      SlotDayAppend(cs[1..], c, slot, start);
      ConcatAssoc(head, SlotDay(cs[1..], slot, start), tail);
    }
  }

  /** Deleting the matches of a query is unaffected by first appending one more match. */
  lemma {:induction false} RemoveSlotDayAppend(cs: seq<Completion>, c: Completion, slot: string, start: int)
    ensures RemoveSlotDay(cs + [c], slot, start)
         == RemoveSlotDay(cs, slot, start) + (if InSlotOnDay(c, slot, start) then [] else [c])
  {
    if cs == [] {
      assert cs + [c] == [c];
    } else {
      var head := if InSlotOnDay(cs[0], slot, start) then [] else [cs[0]];
      var tail := if InSlotOnDay(c, slot, start) then [] else [c];
      assert (cs + [c])[0] == cs[0];
      assert (cs + [c])[1..] == cs[1..] + [c];
      RemoveSlotDayAppend(cs[1..], c, slot, start);
      ConcatAssoc(head, RemoveSlotDay(cs[1..], slot, start), tail);
    }
  }

  /** Deleting one slot's completions of one day leaves every other slot's days as they were. */
  lemma {:induction false} RemoveKeepsOtherSlots(cs: seq<Completion>, slot: string, start: int, other: string, day: int)
    requires other != slot
    ensures SlotDay(RemoveSlotDay(cs, slot, start), other, day) == SlotDay(cs, other, day)
  {
    if cs != [] {
      var rest := RemoveSlotDay(cs[1..], slot, start);
      RemoveKeepsOtherSlots(cs[1..], slot, start, other, day);
      var tail := SlotDay(cs[1..], other, day);
      if !InSlotOnDay(cs[0], slot, start) {
        assert RemoveSlotDay(cs, slot, start) == [cs[0]] + rest;
        assert ([cs[0]] + rest)[1..] == rest;
        assert ([cs[0]] + rest)[0] == cs[0];
        assert SlotDay([cs[0]] + rest, other, day)
            == (if InSlotOnDay(cs[0], other, day) then [cs[0]] else []) + SlotDay(rest, other, day);
      } else {
        assert RemoveSlotDay(cs, slot, start) == rest;
        assert !InSlotOnDay(cs[0], other, day);
        assert SlotDay(cs, other, day) == tail;
      }
    }
  }

  /** The completions of a slot on a day, taken in two steps (by tag, then by day),
      are those of the one combined query. */
  lemma {:induction false} TwoStepQuery(cs: seq<Completion>, slot: string, start: int)
    ensures OnDay(InSlot(cs, slot), start) == SlotDay(cs, slot, start)
  {
    if cs != [] {
      var rest := InSlot(cs[1..], slot);
      TwoStepQuery(cs[1..], slot, start);
      if cs[0].timeOfDay == slot {
        assert InSlot(cs, slot) == [cs[0]] + rest;
        assert ([cs[0]] + rest)[1..] == rest;
        assert ([cs[0]] + rest)[0] == cs[0];
        assert OnDay([cs[0]] + rest, start)
            == (if InDay(cs[0].date, start) then [cs[0]] else []) + OnDay(rest, start);
      } else {
        assert InSlot(cs, slot) == rest;
        assert !InSlotOnDay(cs[0], slot, start);
        assert SlotDay(cs, slot, start) == SlotDay(cs[1..], slot, start);
      }
    }
  }

  /** Restricting to one day window first does not change a query on that same window. */
  lemma {:induction false} OnDayThenSlotDay(cs: seq<Completion>, slot: string, start: int)
    ensures SlotDay(OnDay(cs, start), slot, start) == SlotDay(cs, slot, start)
  {
    if cs != [] {
      var rest := OnDay(cs[1..], start);
      OnDayThenSlotDay(cs[1..], slot, start);
      if InDay(cs[0].date, start) {
        assert OnDay(cs, start) == [cs[0]] + rest;
        assert ([cs[0]] + rest)[1..] == rest;
      } else {
        assert OnDay(cs, start) == rest;
      }
    }
  }

  /** The order of a `date`-ascending fetch. */
  predicate DateSorted(cs: seq<Completion>) {
    forall i, j :: 0 <= i < j < |cs| ==> cs[i].date <= cs[j].date
  }

  /** A day-window filter keeps the store's date order. */
  lemma {:induction false} OnDayKeepsDateOrder(cs: seq<Completion>, start: int)
    requires DateSorted(cs)
    ensures DateSorted(OnDay(cs, start))
  {
    if cs != [] {
      OnDayKeepsDateOrder(cs[1..], start);
      var rest := OnDay(cs[1..], start);
      if InDay(cs[0].date, start) {
        assert OnDay(cs, start) == [cs[0]] + rest;
        forall j | 0 <= j < |rest| ensures cs[0].date <= rest[j].date {
          assert rest[j] in cs[1..];
        }
      }
    }
  }

  // ---------------------------------------------------------------------------------------
  // Habit collections

  /** No record occurs twice (true of every fetch result). */
  predicate Distinct<T(==)>(s: seq<T>) {
    forall i, j :: 0 <= i < j < |s| ==> s[i] != s[j]
  }

  /** The habits left after deleting those in `gone`, in their order. */
  function Without(hs: seq<Habit>, gone: set<Habit>): (r: seq<Habit>)
    ensures |r| <= |hs|
    ensures forall i :: 0 <= i < |r| ==> r[i] in hs && r[i] !in gone
    ensures forall i :: 0 <= i < |hs| && hs[i] !in gone ==> hs[i] in r
  {
    if hs == [] then []
    else (if hs[0] in gone then [] else [hs[0]]) + Without(hs[1..], gone)
  }

  lemma {:induction false} WithoutNone(hs: seq<Habit>)
    ensures Without(hs, {}) == hs
  {
    if hs != [] {
      WithoutNone(hs[1..]);
      assert hs == [hs[0]] + hs[1..];
    }
  }

  /** Deleting records one at a time is deleting them all at once. */
  lemma {:induction false} WithoutTwice(hs: seq<Habit>, a: set<Habit>, b: set<Habit>)
    ensures Without(Without(hs, a), b) == Without(hs, a + b)
  {
    if hs != [] {
      var rest := Without(hs[1..], a);
      WithoutTwice(hs[1..], a, b);
      if hs[0] !in a {
        assert Without(hs, a) == [hs[0]] + rest;
        assert ([hs[0]] + rest)[1..] == rest;
        assert ([hs[0]] + rest)[0] == hs[0];
        assert Without([hs[0]] + rest, b)
            == (if hs[0] in b then [] else [hs[0]]) + Without(rest, b);
      } else {
        assert Without(hs, a) == rest;
        assert Without(hs, a + b) == Without(hs[1..], a + b);
      }
    }
  }
}
