/** `HomeView`: the once-a-day reset of the completion flags, the per-slot sections of the
    fetched habits, and the delete and move actions on a section. */
module HomeView {
  import opened DayWindow
  import opened Records
  import TimeOfDay

  // ---------------------------------------------------------------------------------------
  // Daily reset

  /** The guard `lastResetDay < todayStart`: a reset is only ever due after the marker, and
      always due once a full day has passed since it. */
  predicate ResetDue(lastDailyReset: int, now: int)
    ensures ResetDue(lastDailyReset, now) ==> lastDailyReset < now
    ensures now - lastDailyReset >= DayLength ==> ResetDue(lastDailyReset, now)
  {
    assert now <= lastDailyReset ==> StartOfDay(now) <= StartOfDay(lastDailyReset) by {
      if now <= lastDailyReset {
        StartOfDayMonotone(now, lastDailyReset);
      }
    }
    StartOfDay(lastDailyReset) < StartOfDay(now)
  }

  /** `resetCompletionsIfNeeded()`. The persisted `lastDailyReset` is passed in and its new value
      returned; `saveSucceeds` is the outcome of `viewContext.save()`. */
  method ResetCompletionsIfNeeded(habits: seq<Habit>, now: int, lastDailyReset: int, saveSucceeds: bool)
    returns (marker: int)
    modifies habits
    ensures !ResetDue(lastDailyReset, now) ==> marker == lastDailyReset
    ensures !ResetDue(lastDailyReset, now) ==>
      forall h :: h in habits ==> h.isCompleted == old(h.isCompleted)
    ensures ResetDue(lastDailyReset, now) ==> forall h :: h in habits ==> !h.isCompleted
    ensures ResetDue(lastDailyReset, now) ==> marker == (if saveSucceeds then now else lastDailyReset)
    ensures forall h :: h in habits ==>
      h.id == old(h.id) && h.name == old(h.name) && h.timeOfDay == old(h.timeOfDay) &&
      h.streak == old(h.streak) && h.order == old(h.order) &&
      h.lastCompletedDate == old(h.lastCompletedDate) && h.context == old(h.context)
  {
    var todayStart := StartOfDay(now);
    var lastResetDay := StartOfDay(lastDailyReset);
    if !(lastResetDay < todayStart) {
      return lastDailyReset;
    }
    for i := 0 to |habits|
      invariant forall j :: 0 <= j < i ==> !habits[j].isCompleted
      invariant forall h :: h in habits ==>
        h.id == old(h.id) && h.name == old(h.name) && h.timeOfDay == old(h.timeOfDay) &&
        h.streak == old(h.streak) && h.order == old(h.order) &&
        h.lastCompletedDate == old(h.lastCompletedDate) && h.context == old(h.context)
    {
      habits[i].isCompleted := false;
    }
    if saveSucceeds {
      marker := now;
    } else {
      marker := lastDailyReset;
    }
  }

  /** With the marker set to `marker`, the next reset happens exactly from the next day
      boundary on. */
  lemma ResetDueIff(marker: int, now: int)
    ensures ResetDue(marker, now) <==> now >= AddDays(StartOfDay(marker), 1)
  {
    NextDayIff(marker, now);
  }

  /** Two calls on the same day: once the first has cleared the flags and saved, the second
      changes nothing, so the pair ends in the state the first call alone leaves. */
  method ResetTwiceSameDay(habits: seq<Habit>, now: int, later: int, lastDailyReset: int)
    returns (marker1: int, marker2: int)
    requires now <= later < AddDays(StartOfDay(now), 1)
    modifies habits
    ensures marker2 == marker1
    ensures marker1 == if ResetDue(lastDailyReset, now) then now else lastDailyReset
    ensures ResetDue(lastDailyReset, now) ==> forall h :: h in habits ==> !h.isCompleted
    ensures !ResetDue(lastDailyReset, now) ==>
      forall h :: h in habits ==> h.isCompleted == old(h.isCompleted)
    ensures forall h :: h in habits ==>
      h.id == old(h.id) && h.name == old(h.name) && h.timeOfDay == old(h.timeOfDay) &&
      h.streak == old(h.streak) && h.order == old(h.order) &&
      h.lastCompletedDate == old(h.lastCompletedDate) && h.context == old(h.context)
  {
    marker1 := ResetCompletionsIfNeeded(habits, now, lastDailyReset, true);
    if !ResetDue(lastDailyReset, now) {
      StartOfDayMonotone(now, later);
      ResetDueIff(lastDailyReset, now);
      ResetDueIff(lastDailyReset, later);
    }
    ResetDueIff(now, later);
    marker2 := ResetCompletionsIfNeeded(habits, later, marker1, true);
  }

  // ---------------------------------------------------------------------------------------
  // Sections

  /** `habitsFor(time:)`: the fetched habits tagged `time`, in fetch order. */
  function HabitsFor(habits: seq<Habit>, time: string): (r: seq<Habit>)
    reads habits
    ensures |r| <= |habits|
    ensures forall i :: 0 <= i < |r| ==> r[i] in habits && r[i].timeOfDay == time
    ensures forall i :: 0 <= i < |habits| && habits[i].timeOfDay == time ==> habits[i] in r
    ensures forall i {:trigger multiset(r)[habits[i]]} :: 0 <= i < |habits| ==>
      multiset(r)[habits[i]] == if habits[i].timeOfDay == time then multiset(habits)[habits[i]] else 0
  {
    if habits == [] then []
    else
      MultisetCons(habits);
      (if habits[0].timeOfDay == time then [habits[0]] else []) + HabitsFor(habits[1..], time)
  }

  /** The section of a concatenation is the concatenation of the sections: the filter keeps
      the fetch order. */
  lemma {:induction false} HabitsForAppend(a: seq<Habit>, b: seq<Habit>, time: string)
    ensures HabitsFor(a + b, time) == HabitsFor(a, time) + HabitsFor(b, time)
  {
    if a == [] {
      assert a + b == b;
    } else {
      assert (a + b)[0] == a[0];
      assert (a + b)[1..] == a[1..] + b;
      HabitsForAppend(a[1..], b, time);
    }
  }

  /** The multiset of a non-empty sequence splits off its first element. */
  lemma MultisetCons<T>(s: seq<T>)
    requires s != []
    ensures multiset(s) == multiset{s[0]} + multiset(s[1..])
  {
    assert s == [s[0]] + s[1..];
  }

  /** Lexicographic order on tags, as the string sort descriptor compares them. */
  predicate StrLess(a: string, b: string) {
    if a == [] then b != []
    else if b == [] then false
    else a[0] < b[0] || (a[0] == b[0] && StrLess(a[1..], b[1..]))
  }

  lemma {:induction false} StrLessIrreflexive(a: string)
    ensures !StrLess(a, a)
  {
    if a != [] {
      StrLessIrreflexive(a[1..]);
    }
  }

  /** The fetch's sort descriptors: `timeOfDay` ascending, then `order` ascending. */
  predicate FetchBefore(h1: Habit, h2: Habit)
    reads h1, h2
  {
    StrLess(h1.timeOfDay, h2.timeOfDay) || (h1.timeOfDay == h2.timeOfDay && h1.order <= h2.order)
  }

  /** A result of the `@FetchRequest`. */
  predicate FetchSorted(habits: seq<Habit>)
    reads habits
  {
    forall i, j :: 0 <= i < j < |habits| ==> FetchBefore(habits[i], habits[j])
  }

  /** Every section of a fetch result lists its habits by ascending `order`. */
  lemma {:induction false} SectionInOrder(habits: seq<Habit>, time: string)
    requires FetchSorted(habits)
    ensures forall i, j :: 0 <= i < j < |HabitsFor(habits, time)| ==>
      HabitsFor(habits, time)[i].order <= HabitsFor(habits, time)[j].order
  {
    if habits != [] {
      var rest := HabitsFor(habits[1..], time);
      SectionInOrder(habits[1..], time);
      if habits[0].timeOfDay == time {
        StrLessIrreflexive(time);
        forall j | 0 <= j < |rest| ensures habits[0].order <= rest[j].order {
          var k :| 0 <= k < |habits[1..]| && habits[1..][k] == rest[j];
          assert FetchBefore(habits[0], habits[k + 1]);
        }
        assert HabitsFor(habits, time) == [habits[0]] + rest;
      }
    }
  }

  /** When every habit carries a valid tag, the three sections (in `allCases` order) list every
      habit between them. */
  lemma {:induction false} SectionsCoverAll(habits: seq<Habit>)
    requires forall i :: 0 <= i < |habits| ==> TimeOfDay.IsValidTag(habits[i].timeOfDay)
    ensures |HabitsFor(habits, "Morning")| + |HabitsFor(habits, "Afternoon")| + |HabitsFor(habits, "Evening")|
         == |habits|
  {
    if habits != [] {
      TimeOfDay.ValidTagIff(habits[0].timeOfDay);
      SectionsCoverAll(habits[1..]);
    }
  }

  /** A section of a fetch result holds each record once. */
  lemma {:induction false} HabitsForDistinct(habits: seq<Habit>, time: string)
    requires Distinct(habits)
    ensures Distinct(HabitsFor(habits, time))
  {
    if habits != [] {
      var rest := HabitsFor(habits[1..], time);
      HabitsForDistinct(habits[1..], time);
      if habits[0].timeOfDay == time {
        forall j | 0 <= j < |rest| ensures rest[j] != habits[0] {
          var k :| 0 <= k < |habits[1..]| && habits[1..][k] == rest[j];
        }
        assert HabitsFor(habits, time) == [habits[0]] + rest;
      }
    }
  }

  // ---------------------------------------------------------------------------------------
  // Moving within a section

  /** The elements of `s` whose offsets, counted from `base`, are (`picked`) or are not in
      `source`, in order. */
  function Pick<T>(s: seq<T>, base: nat, source: set<nat>, picked: bool): seq<T> {
    if s == [] then []
    else (if (base in source) == picked then [s[0]] else []) + Pick(s[1..], base + 1, source, picked)
  }

  /** `move(fromOffsets: source, toOffset: dest)`: the elements at `source` are taken out and
      put back, in their relative order, where offset `dest` of the original collection was. */
  function Move<T>(s: seq<T>, source: set<nat>, dest: nat): (r: seq<T>)
    requires dest <= |s|
    ensures source == {} ==> r == s
  {
    var moved := Pick(s[..dest], 0, source, false) + Pick(s, 0, source, true) + Pick(s[dest..], dest, source, false);
    assert source == {} ==> moved == s by {
      if source == {} {
        PickNone(s[..dest], 0, false);
        PickNone(s, 0, true);
        PickNone(s[dest..], dest, false);
        assert s == s[..dest] + s[dest..];
      }
    }
    moved
  }

  /** With no offsets selected nothing is picked and everything is kept. */
  lemma {:induction false} PickNone<T>(s: seq<T>, base: nat, picked: bool)
    ensures Pick(s, base, {}, picked) == if picked then [] else s
  {
    if s != [] {
      PickNone(s[1..], base + 1, picked);
      assert s == [s[0]] + s[1..];
    }
  }

  lemma {:induction false} PickSplit<T>(a: seq<T>, b: seq<T>, base: nat, source: set<nat>, picked: bool)
    ensures Pick(a + b, base, source, picked) == Pick(a, base, source, picked) + Pick(b, base + |a|, source, picked)
  {
    if a == [] {
      assert a + b == b;
    } else {
      assert (a + b)[0] == a[0];
      assert (a + b)[1..] == a[1..] + b;
      PickSplit(a[1..], b, base + 1, source, picked);
    }
  }

  lemma {:induction false} PickPartition<T>(s: seq<T>, base: nat, source: set<nat>)
    ensures multiset(Pick(s, base, source, true)) + multiset(Pick(s, base, source, false)) == multiset(s)
  {
    if s != [] {
      PickPartition(s[1..], base + 1, source);
      assert s == [s[0]] + s[1..];
    }
  }

  /** Moving rearranges a section without adding or losing a record. */
  lemma MoveIsPermutation<T>(s: seq<T>, source: set<nat>, dest: nat)
    requires dest <= |s|
    ensures multiset(Move(s, source, dest)) == multiset(s)
    ensures |Move(s, source, dest)| == |s|
  {
    var before, after := s[..dest], s[dest..];
    assert s == before + after;
    var a, p, b := Pick(before, 0, source, false), Pick(s, 0, source, true), Pick(after, dest, source, false);
    PickSplit(before, after, 0, source, false);
    assert Pick(s, 0, source, false) == a + b;
    PickPartition(s, 0, source);
    assert Move(s, source, dest) == a + p + b;
    assert multiset(a + p + b) == multiset(a) + multiset(p) + multiset(b);
    assert |multiset(a + p + b)| == |a + p + b|;
  }

  /** A record occurs at most once in a sequence without repeats. */
  lemma {:induction false} DistinctCount<T>(s: seq<T>, x: T)
    requires Distinct(s)
    ensures multiset(s)[x] <= 1
  {
    if s != [] {
      DistinctCount(s[1..], x);
      assert s == [s[0]] + s[1..];
      if s[0] == x {
        assert x !in s[1..];
      }
    }
  }

  lemma RepeatCountsTwice<T>(b: seq<T>, i: nat, j: nat)
    requires i < j < |b| && b[i] == b[j]
    ensures multiset(b)[b[i]] >= 2
  {
    assert b == b[..j] + b[j..];
    assert b[i] in b[..j] && b[j] in b[j..];
    assert multiset(b)[b[i]] == multiset(b[..j])[b[i]] + multiset(b[j..])[b[i]];
  }

  /** A permutation of a sequence without repeats has none. */
  lemma DistinctPermutation<T>(a: seq<T>, b: seq<T>)
    requires multiset(a) == multiset(b) && Distinct(a)
    ensures Distinct(b)
  {
    forall i, j | 0 <= i < j < |b| ensures b[i] != b[j] {
      if b[i] == b[j] {
        DistinctCount(a, b[i]);
        RepeatCountsTwice(b, i, j);
        assert false;
      }
    }
  }

  /** Moving a repeat-free section gives a repeat-free rearrangement of it. */
  lemma MovedSection<T>(section: seq<T>, source: set<nat>, dest: nat)
    requires Distinct(section) && dest <= |section|
    ensures multiset(Move(section, source, dest)) == multiset(section)
    ensures |Move(section, source, dest)| == |section|
    ensures Distinct(Move(section, source, dest))
    ensures forall i :: 0 <= i < |Move(section, source, dest)| ==> Move(section, source, dest)[i] in section
  {
    var moved := Move(section, source, dest);
    MoveIsPermutation(section, source, dest);
    DistinctPermutation(section, moved);
    forall i | 0 <= i < |moved| ensures moved[i] in section {
      assert moved[i] in multiset(moved);
    }
  }

  /** `moveHabits(from:to:in:)`: move within the section, then write each habit's new offset to
      its `order`. Requires what `Int16(idx)` needs (at most 32768 habits in the section); the
      fetch results hold each record once. */
  method MoveHabits(habits: seq<Habit>, source: set<nat>, dest: nat, time: string)
    returns (sectionHabits: seq<Habit>)
    requires Distinct(habits)
    requires forall i :: i in source ==> i < |HabitsFor(habits, time)|
    requires dest <= |HabitsFor(habits, time)| <= 32768
    modifies habits
    ensures sectionHabits == Move(old(HabitsFor(habits, time)), source, dest)
    ensures forall k :: 0 <= k < |sectionHabits| ==> sectionHabits[k].order as int == k
    ensures forall h :: h in habits && h !in sectionHabits ==> h.order == old(h.order)
    ensures forall h :: h in habits ==>
      h.id == old(h.id) && h.name == old(h.name) && h.timeOfDay == old(h.timeOfDay) &&
      h.isCompleted == old(h.isCompleted) && h.streak == old(h.streak) &&
      h.lastCompletedDate == old(h.lastCompletedDate) && h.context == old(h.context)
  {
    var section := HabitsFor(habits, time);
    HabitsForDistinct(habits, time);
    sectionHabits := Move(section, source, dest);
    MovedSection(section, source, dest);
    assert forall i :: 0 <= i < |sectionHabits| ==> sectionHabits[i] in habits;
    Renumber(sectionHabits);
  }

  /** The `for idx in sectionHabits.indices` loop: each habit's `order` becomes its offset. */
  method Renumber(sectionHabits: seq<Habit>)
    requires Distinct(sectionHabits) && |sectionHabits| <= 32768
    modifies sectionHabits
    ensures forall k :: 0 <= k < |sectionHabits| ==> sectionHabits[k].order as int == k
    ensures forall h :: h in sectionHabits ==>
      h.id == old(h.id) && h.name == old(h.name) && h.timeOfDay == old(h.timeOfDay) &&
      h.isCompleted == old(h.isCompleted) && h.streak == old(h.streak) &&
      h.lastCompletedDate == old(h.lastCompletedDate) && h.context == old(h.context)
  {
    for idx := 0 to |sectionHabits|
      invariant forall k :: 0 <= k < idx ==> sectionHabits[k].order as int == k
      invariant forall h :: h in sectionHabits ==>
        h.id == old(h.id) && h.name == old(h.name) && h.timeOfDay == old(h.timeOfDay) &&
        h.isCompleted == old(h.isCompleted) && h.streak == old(h.streak) &&
        h.lastCompletedDate == old(h.lastCompletedDate) && h.context == old(h.context)
    {
      sectionHabits[idx].order := idx as int16;
    }
  }

  // ---------------------------------------------------------------------------------------
  // Deleting from a section

  /** The records at `offsets` of a section. */
  function Picked(section: seq<Habit>, offsets: set<nat>): set<Habit>
    requires forall i :: i in offsets ==> i < |section|
  {
    set i | i in offsets :: section[i]
  }

  /** `deleteHabits(at:in:)`: delete from the store the section's habits at `offsets`. */
  method DeleteHabits(store: Store, habits: seq<Habit>, offsets: set<nat>, time: string)
    requires forall i :: i in offsets ==> i < |HabitsFor(habits, time)|
    modifies store`habits
    ensures store.habits == Without(old(store.habits), Picked(HabitsFor(habits, time), offsets))
  {
    var sectionHabits := HabitsFor(habits, time);
    var remaining := offsets;
    ghost var done: set<nat> := {};
    WithoutNone(store.habits);
    assert Picked(sectionHabits, done) == {};
    while remaining != {}
      invariant remaining <= offsets && done == offsets - remaining
      invariant store.habits == Without(old(store.habits), Picked(sectionHabits, done))
      decreases remaining
    {
      var i :| i in remaining;
      WithoutTwice(old(store.habits), Picked(sectionHabits, done), {sectionHabits[i]});
      store.DeleteHabit(sectionHabits[i]);
      assert Picked(sectionHabits, done + {i}) == Picked(sectionHabits, done) + {sectionHabits[i]};
      remaining := remaining - {i};
      done := done + {i};
    }
    assert done == offsets;
  }
}
