/** `NewHabitView`: the Save button's validator and `addHabit()`. */
module NewHabitView {
  import opened Wrappers
  import opened Records
  import opened TimeOfDay
  import HomeView

  // ---------------------------------------------------------------------------------------
  // Validator

  /** Membership in `CharacterSet.whitespaces`: the Unicode space separators (category Zs)
      and the horizontal tab. Line breaks (`CharacterSet.newlines`) are not in this set. */
  predicate IsWhitespace(ch: char)
    ensures ch == ' ' || ch == '\t' ==> IsWhitespace(ch)
    ensures IsWhitespace(ch) ==>
      !('\n' <= ch <= '\r') && ch != '\U{0085}' && ch != '\U{2028}' && ch != '\U{2029}'
  {
    || ch == '\t' || ch == ' ' || ch == '\U{00A0}' || ch == '\U{1680}'
    || ('\U{2000}' <= ch <= '\U{200A}')
    || ch == '\U{202F}' || ch == '\U{205F}' || ch == '\U{3000}'
  }

  /** `s` without its leading whitespace. */
  function TrimLeading(s: string): (r: string)
    ensures |r| <= |s| && r == s[|s| - |r|..]
    ensures forall i :: 0 <= i < |s| - |r| ==> IsWhitespace(s[i])
    ensures r != [] ==> !IsWhitespace(r[0])
  {
    if s != [] && IsWhitespace(s[0]) then TrimLeading(s[1..]) else s
  }

  /** `s` without its trailing whitespace. */
  function TrimTrailing(s: string): (r: string)
    ensures |r| <= |s| && r == s[..|r|]
    ensures forall i :: |r| <= i < |s| ==> IsWhitespace(s[i])
    ensures r != [] ==> !IsWhitespace(r[|r| - 1])
  {
    if s != [] && IsWhitespace(s[|s| - 1]) then TrimTrailing(s[..|s| - 1]) else s
  }

  /** `trimmingCharacters(in: .whitespaces)`. */
  function Trimmed(s: string): (r: string)
    ensures r != [] ==> !IsWhitespace(r[0]) && !IsWhitespace(r[|r| - 1])
  {
    TrimTrailing(TrimLeading(s))
  }

  /** Trimming a trimmed name changes nothing. */
  lemma TrimmedIdempotent(s: string)
    ensures Trimmed(Trimmed(s)) == Trimmed(s)
  {
    var r := Trimmed(s);
    if r != [] {
      assert TrimLeading(r) == r;
      assert TrimTrailing(r) == r;
    }
  }

  /** Trimming only removes whitespace: it empties exactly the all-whitespace names. */
  lemma TrimmedEmptyIff(s: string)
    ensures Trimmed(s) == [] <==> forall i :: 0 <= i < |s| ==> IsWhitespace(s[i])
  {
    var t := TrimLeading(s);
    var r := TrimTrailing(t);
    var k := |s| - |t|;
    if r == [] {
      assert t == [];
    } else {
      assert r[0] == t[0] == s[k];
    }
  }

  /** The Save button is enabled (`!name.trimmingCharacters(in: .whitespaces).isEmpty`)
      exactly when the name holds a character outside the whitespace set. The edit form's
      Save button uses the same test. */
  function SaveEnabled(name: string): (b: bool)
    ensures b <==> exists i :: 0 <= i < |name| && !IsWhitespace(name[i])
  {
    TrimmedEmptyIff(name);
    Trimmed(name) != []
  }

  // ---------------------------------------------------------------------------------------
  // addHabit()

  /** `map(\.order)`. */
  function Orders(habits: seq<Habit>): (r: seq<int16>)
    reads habits
    ensures |r| == |habits|
    ensures forall i :: 0 <= i < |habits| ==> r[i] == habits[i].order
  {
    if habits == [] then [] else [habits[0].order] + Orders(habits[1..])
  }

  /** The orders of the habits of one section: `allHabits.filter { $0.timeOfDay == tag }.map(\.order)`. */
  function SectionOrders(allHabits: seq<Habit>, tag: string): (r: seq<int16>)
    reads allHabits
    ensures forall i :: 0 <= i < |r| ==> exists j :: 0 <= j < |allHabits| && allHabits[j].timeOfDay == tag && allHabits[j].order == r[i]
    ensures forall j :: 0 <= j < |allHabits| && allHabits[j].timeOfDay == tag ==> allHabits[j].order in r
  {
    var section := HomeView.HabitsFor(allHabits, tag);
    var r := Orders(section);
    assert forall i :: 0 <= i < |r| ==> section[i] in allHabits;
    assert forall j :: 0 <= j < |allHabits| && allHabits[j].timeOfDay == tag ==>
      exists i :: 0 <= i < |section| && section[i] == allHabits[j];
    r
  }

  /** `max() ?? -1`: the largest order, or -1 for an empty section. */
  function MaxOrder(orders: seq<int16>): (m: int)
    ensures orders == [] ==> m == -1
    ensures forall i :: 0 <= i < |orders| ==> orders[i] as int <= m
    ensures orders != [] ==> exists i :: 0 <= i < |orders| && orders[i] as int == m
  {
    if orders == [] then -1
    else if |orders| == 1 then orders[0] as int
    else
      var rest := MaxOrder(orders[1..]);
      assert forall i :: 1 <= i < |orders| ==> orders[i] == orders[1..][i - 1];
      if orders[0] as int >= rest then orders[0] as int else rest
  }

  /** `maxOrder + 1`: the new habit goes below every habit of its section, and directly
      below the last one; the first habit of a section gets order 0. */
  function NextOrder(orders: seq<int16>): (r: int)
    ensures forall i :: 0 <= i < |orders| ==> orders[i] as int < r
    ensures orders == [] ==> r == 0
    ensures orders != [] ==> exists i :: 0 <= i < |orders| && orders[i] as int == r - 1
  {
    MaxOrder(orders) + 1
  }

  /** `addHabit()`. `allHabits` is the fetched list before the new record appears in it and
      `newId` stands for `UUID()`. The name is stored as typed, untrimmed. `Int16` addition
      traps on overflow, so no habit of the section may already hold the largest order. */
  method AddHabit(store: Store, allHabits: seq<Habit>, name: string, selected: Slot, newId: Uuid)
    returns (newHabit: Habit)
    requires forall j :: 0 <= j < |allHabits| && allHabits[j].timeOfDay == RawValue(selected) ==>
      allHabits[j].order < 32767
    modifies store
    ensures fresh(newHabit)
    ensures store.habits == old(store.habits) + [newHabit]
    ensures store.completions == old(store.completions)
    ensures newHabit.context == store && newHabit.id == newId && newHabit.name == name
    ensures newHabit.timeOfDay == RawValue(selected)
    ensures !newHabit.isCompleted && newHabit.streak == 0 && newHabit.lastCompletedDate == None
    ensures newHabit.order as int == NextOrder(old(SectionOrders(allHabits, RawValue(selected))))
  {
    // The fetched results are a snapshot: the order is taken over the habits that existed
    // before the new record was inserted.
    var sameSection := SectionOrders(allHabits, RawValue(selected));
    var maxOrder := MaxOrder(sameSection);
    newHabit := new Habit(store);
    newHabit.id := newId;
    newHabit.name := name;
    newHabit.timeOfDay := RawValue(selected);
    newHabit.isCompleted := false;
    newHabit.streak := 0;
    newHabit.lastCompletedDate := None;
    newHabit.order := (maxOrder + 1) as int16;
  }
}
