/** `EditHabitView`: seeding the form from a habit and `saveChanges()`. The Save button's
    validator is `NewHabitView.SaveEnabled`. */
module EditHabitView {
  import opened Wrappers
  import opened Records
  import opened TimeOfDay

  /** The form's state: the name field and the segmented picker's selection. */
  datatype EditForm = EditForm(name: string, selected: Slot)

  /** `TimeOfDay(rawValue:) ?? .Morning`: a stored tag that names no slot shows Morning. */
  function SeedSelection(raw: string): (s: Slot)
    ensures IsValidTag(raw) ==> RawValue(s) == raw
    ensures !IsValidTag(raw) ==> s == Morning
  {
    ValidTagIff(raw);
    FromRawValue(raw).GetOr(Morning)
  }

  /** `init(habit:)`: the form starts from the habit's name and tag. */
  function Init(habit: Habit): (f: EditForm)
    reads habit
    ensures f.name == habit.name
    ensures IsValidTag(habit.timeOfDay) ==> RawValue(f.selected) == habit.timeOfDay
    ensures !IsValidTag(habit.timeOfDay) ==> f.selected == Morning
  {
    EditForm(habit.name, SeedSelection(habit.timeOfDay))
  }

  /** `saveChanges()`: writes the name and the selected slot's tag; the completion flag, the
      streak, the order and the last completion date are kept. */
  method SaveChanges(habit: Habit, form: EditForm)
    modifies habit`name, habit`timeOfDay
    ensures habit.name == form.name && habit.timeOfDay == RawValue(form.selected)
    ensures IsValidTag(habit.timeOfDay)
  {
    habit.name := form.name;
    habit.timeOfDay := RawValue(form.selected);
    ValidTagIff(habit.timeOfDay);
  }

  /** Opening the editor and saving at once keeps the tag exactly when it names a slot. */
  lemma SeedKeepsTagIff(raw: string)
    ensures RawValue(SeedSelection(raw)) == raw <==> IsValidTag(raw)
  {
    ValidTagIff(raw);
    ValidTagIff(RawValue(SeedSelection(raw)));
  }

  /** Opening the editor and saving without touching the form: the name is kept, a valid tag
      is kept and an unrecognised tag becomes "Morning". */
  method EditUnchanged(habit: Habit)
    modifies habit`name, habit`timeOfDay
    ensures habit.name == old(habit.name)
    ensures IsValidTag(old(habit.timeOfDay)) ==> habit.timeOfDay == old(habit.timeOfDay)
    ensures !IsValidTag(old(habit.timeOfDay)) ==> habit.timeOfDay == RawValue(Morning)
  {
    var form := Init(habit);
    SaveChanges(habit, form);
  }
}
