/** The closed set of time-of-day slots that drives the sections and the pickers
    (`enum TimeOfDay: String, CaseIterable`). */
module TimeOfDay {
  import opened Wrappers

  datatype Slot = Morning | Afternoon | Evening

  /** A `String`-backed Swift enum without explicit raw values uses each case's name. */
  function RawValue(s: Slot): (raw: string)
    ensures |raw| > 0
  {
    match s
    case Morning => "Morning"
    case Afternoon => "Afternoon"
    case Evening => "Evening"
  }

  /** `TimeOfDay(rawValue:)`: the case whose raw value is `raw`, or none. */
  function FromRawValue(raw: string): (r: Option<Slot>)
    ensures forall s: Slot :: r == Some(s) <==> RawValue(s) == raw
  {
    if raw == "Morning" then Some(Morning)
    else if raw == "Afternoon" then Some(Afternoon)
    else if raw == "Evening" then Some(Evening)
    else None
  }

  /** `TimeOfDay.allCases`: the cases in declaration order. */
  const AllCases: seq<Slot> := [Morning, Afternoon, Evening]

  /** A stored tag that names one of the three slots. */
  predicate IsValidTag(raw: string) {
    FromRawValue(raw).Some?
  }

  /** The raw values of all slots. */
  function ValidTags(): set<string> {
    set s: Slot | s in AllCases :: RawValue(s)
  }

  lemma AllCasesEnumerates()
    ensures |AllCases| == 3
    ensures forall s: Slot :: s in AllCases
    ensures forall i, j :: 0 <= i < j < |AllCases| ==> AllCases[i] != AllCases[j]
  {
    forall s: Slot ensures s in AllCases {
      match s
      case Morning => assert AllCases[0] == s;
      case Afternoon => assert AllCases[1] == s;
      case Evening => assert AllCases[2] == s;
    }
  }

  lemma RawValueRoundTrip(s: Slot)
    ensures FromRawValue(RawValue(s)) == Some(s)
  {
  }

  lemma ValidTagIff(raw: string)
    ensures IsValidTag(raw) <==> raw in ValidTags()
    ensures IsValidTag(raw) <==> raw == "Morning" || raw == "Afternoon" || raw == "Evening"
  {
    if IsValidTag(raw) {
      var s := FromRawValue(raw).value;
      assert s in AllCases;
    }
  }

  /** Cardinality is monotone under inclusion. */
  lemma {:induction false} CardSubset<T>(a: set<T>, b: set<T>)
    requires a <= b
    ensures |a| <= |b|
    decreases |a|
  {
    if a != {} {
      var x :| x in a;
      CardSubset(a - {x}, b - {x});
    }
  }

  /** A set of valid tags has three members exactly when it names every slot. */
  lemma ThreeDistinctTags(tags: set<string>)
    requires forall t :: t in tags ==> IsValidTag(t)
    ensures |tags| == 3 <==> forall s: Slot :: RawValue(s) in tags
  {
    var all := {"Morning", "Afternoon", "Evening"};
    assert |all| == 3;
    forall t | t in tags ensures t in all {
      ValidTagIff(t);
    }
    if |tags| == 3 {
      forall s: Slot ensures RawValue(s) in tags {
        if RawValue(s) !in tags {
          CardSubset(tags, all - {RawValue(s)});
        }
      }
    }
    if forall s: Slot :: RawValue(s) in tags {
      assert RawValue(Morning) in tags && RawValue(Afternoon) in tags && RawValue(Evening) in tags;
      assert all <= tags;
      assert tags == all;
    }
  }

  /** Without one slot's tag, a set of valid tags has at most two members. */
  lemma AtMostTwoWithoutOne(tags: set<string>, missing: Slot)
    requires forall t :: t in tags ==> IsValidTag(t)
    requires RawValue(missing) !in tags
    ensures |tags| <= 2
  {
    var rest := {"Morning", "Afternoon", "Evening"} - {RawValue(missing)};
    assert |rest| == 2;
    forall t | t in tags ensures t in rest {
      ValidTagIff(t);
    }
    CardSubset(tags, rest);
  }
}
