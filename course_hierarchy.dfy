/**
 * The six-level course hierarchy selector shared by both course pages:
 * selecting a level keeps the earlier levels, sets the chosen one and clears
 * every later one. The selections object is a sequence in key order
 * (major, year, semester, course, lecturer, type); "" means "not selected".
 */
module CourseHierarchy {

  const KeyCount: nat := 6

  /** The keys of the selections object, in declaration order. */
  datatype Key = MajorKey | YearKey | SemesterKey | CourseKey | LecturerKey | TypeKey

  /** `Object.keys(selections).indexOf(key)`. */
  function Index(k: Key): (i: nat)
    ensures i < KeyCount
  {
    match k
    case MajorKey => 0
    case YearKey => 1
    case SemesterKey => 2
    case CourseKey => 3
    case LecturerKey => 4
    case TypeKey => 5
  }

  type Selections = s: seq<string> | |s| == KeyCount witness ["", "", "", "", "", ""]

  /** The page's initial state: nothing selected. */
  const Initial: Selections := ["", "", "", "", "", ""]

  /** The state `handleSelect(key, value)` produces from `prev`. */
  function Selected(prev: Selections, key: Key, value: string): (r: Selections)
    ensures r[Index(key)] == value
    ensures forall i :: 0 <= i < Index(key) ==> r[i] == prev[i]
    ensures forall i :: Index(key) < i < KeyCount ==> r[i] == ""
  {
    var k := Index(key);
    prev[..k] + [value] + seq(KeyCount - k - 1, _ => "")
  }

  /** `handleSelect(key, value)`: copy with the key set, then a loop blanking every later key. */
  method HandleSelect(prev: Selections, key: Key, value: string) returns (next: Selections)
    ensures next == Selected(prev, key, value)
  {
    var selections := prev[Index(key) := value];
    var index := Index(key);
    for i := index + 1 to KeyCount
      invariant |selections| == KeyCount
      invariant selections[index] == value
      invariant forall j :: 0 <= j < index ==> selections[j] == prev[j]
      invariant forall j :: index < j < i ==> selections[j] == ""
      invariant forall j :: i <= j < KeyCount ==> selections[j] == prev[j]
    {
      selections := selections[i := ""];
    }
    next := selections;
  }

  /** `isStepEnabled(stepIndex)`: the first step always, any other once its predecessor is set. */
  predicate IsStepEnabled(s: Selections, stepIndex: nat)
    requires stepIndex < KeyCount
  {
    stepIndex == 0 || s[stepIndex - 1] != ""
  }

  /** The set levels form a prefix of the key order: nothing is set below an unset level. */
  predicate PrefixShaped(s: Selections) {
    forall i, j :: 0 <= i < j < KeyCount && s[j] != "" ==> s[i] != ""
  }

  /** A user action: picking `value` in the selector for `key`. */
  datatype Pick = Pick(key: Key, value: string)

  /**
   * The state after a run of picks from the empty page, where a page's
   * `enabled` rule decides which selectors accept a pick; a pick on a disabled
   * selector has no effect.
   */
  function Browse(enabled: (Selections, Key) -> bool, picks: seq<Pick>): Selections {
    if picks == [] then Initial
    else
      var s := Browse(enabled, picks[..|picks| - 1]);
      var p := picks[|picks| - 1];
      if enabled(s, p.key) then Selected(s, p.key, p.value) else s
  }

  /** Selecting through an enabled step keeps the set levels a prefix. */
  lemma SelectKeepsPrefix(s: Selections, key: Key, value: string)
    requires PrefixShaped(s) && IsStepEnabled(s, Index(key))
    ensures PrefixShaped(Selected(s, key, value))
  {
    var r := Selected(s, key, value);
    forall i, j | 0 <= i < j < KeyCount && r[j] != "" ensures r[i] != "" {
      if i >= Index(key) {
      } else if j < Index(key) {
      } else {
        assert s[Index(key) - 1] != "";
      }
    }
  }

  /** Selecting the same key twice keeps only the second value, and nothing else differs. */
  lemma SelectAgainOverrides(s: Selections, key: Key, v1: string, v2: string)
    ensures Selected(Selected(s, key, v1), key, v2) == Selected(s, key, v2)
  {
  }
}
