/**
 * The course library page of the first front end: every selector after Major
 * is disabled until its predecessor is set, and the results panel appears once
 * all six levels are set.
 */
module CoursesLibraryPage {
  import opened CourseHierarchy

  /** `disabled={!isStepEnabled(i)}` on every selector but Major. */
  predicate SelectorEnabled(s: Selections, key: Key) {
    IsStepEnabled(s, Index(key))
  }

  /** `isFullySelected`: every value is non-empty. */
  predicate IsFullySelected(s: Selections) {
    forall i :: 0 <= i < KeyCount ==> s[i] != ""
  }

  /** Whatever the user does, the set levels form a prefix of the hierarchy. */
  lemma {:induction false} BrowseIsPrefixShaped(picks: seq<Pick>)
    ensures PrefixShaped(Browse(SelectorEnabled, picks))
  {
    if picks != [] {
      var s := Browse(SelectorEnabled, picks[..|picks| - 1]);
      var p := picks[|picks| - 1];
      BrowseIsPrefixShaped(picks[..|picks| - 1]);
      if SelectorEnabled(s, p.key) {
        SelectKeepsPrefix(s, p.key, p.value);
      }
    }
  }

  /** The results panel is shown exactly when the last level, type, is set in a reachable state. */
  lemma FullySelectedIsTypeSet(picks: seq<Pick>)
    ensures IsFullySelected(Browse(SelectorEnabled, picks)) <==> Browse(SelectorEnabled, picks)[Index(TypeKey)] != ""
  {
    BrowseIsPrefixShaped(picks);
  }

  /** Once everything is set, every selector is enabled. */
  lemma FullySelectedEnablesAll(s: Selections, key: Key)
    requires IsFullySelected(s)
    ensures SelectorEnabled(s, key)
  {
  }
}

/**
 * The course browser page of the second front end: Major to Lecturer are gated
 * as in the library page, but the Type selector never is; the files panel
 * appears as soon as a course is set.
 */
module CoursesBrowserPage {
  import opened CourseHierarchy

  /** The type the request modal starts with: the selected type, or "Notes" when none. */
  const DefaultRequestType: string := "Notes"

  /** Selectors Year..Lecturer are gated; Major and Type never are (query loading is not modelled). */
  predicate SelectorEnabled(s: Selections, key: Key) {
    key == TypeKey || IsStepEnabled(s, Index(key))
  }

  /** `isReadyForFiles`: a course is selected. */
  predicate ShowsFiles(s: Selections) {
    s[Index(CourseKey)] != ""
  }

  /** `selections.type || "Notes"`. */
  function RequestModalType(s: Selections): (t: string)
    ensures t != ""
    ensures s[Index(TypeKey)] != "" ==> t == s[Index(TypeKey)]
  {
    if s[Index(TypeKey)] != "" then s[Index(TypeKey)] else DefaultRequestType
  }

  /** Selecting the type, the last key, changes nothing else. */
  lemma SelectTypeClearsNothing(s: Selections, value: string)
    ensures Selected(s, TypeKey, value) == s[Index(TypeKey) := value]
  {
  }

  /** Because Type is ungated, a type can be set while no major is. */
  lemma TypeWithoutMajor()
    ensures var s := Browse(SelectorEnabled, [Pick(TypeKey, "Slides")]);
      s[Index(TypeKey)] == "Slides" && s[Index(MajorKey)] == "" && !PrefixShaped(s)
  {
    assert [Pick(TypeKey, "Slides")][..0] == [];
  }

  /** Re-selecting any level up to the course hides the files panel until a course is picked again. */
  lemma ReselectAboveCourseHidesFiles(s: Selections, key: Key, value: string)
    requires Index(key) < Index(CourseKey)
    ensures !ShowsFiles(Selected(s, key, value))
  {
  }

  /** Among the gated levels, Major to Lecturer, nothing is set below an unset level. */
  predicate GatedPrefixShaped(s: Selections) {
    forall i, j :: 0 <= i < j < Index(TypeKey) && s[j] != "" ==> s[i] != ""
  }

  /** Whatever the user does, the gated levels that are set form a prefix; only Type may stand alone. */
  lemma {:induction false} BrowseGatedLevelsArePrefix(picks: seq<Pick>)
    ensures GatedPrefixShaped(Browse(SelectorEnabled, picks))
  {
    if picks != [] {
      var s := Browse(SelectorEnabled, picks[..|picks| - 1]);
      var p := picks[|picks| - 1];
      BrowseGatedLevelsArePrefix(picks[..|picks| - 1]);
      if SelectorEnabled(s, p.key) {
        var r := Selected(s, p.key, p.value);
        assert GatedPrefixShaped(s);
        forall i, j | 0 <= i < j < Index(TypeKey) && r[j] != "" ensures r[i] != "" {
          if j < Index(p.key) {
            assert r[j] == s[j] && r[i] == s[i];
          } else if i < Index(p.key) {
            assert j == Index(p.key) && p.key != TypeKey;
            assert s[Index(p.key) - 1] != "";
            assert r[i] == s[i];
          }
        }
        assert Browse(SelectorEnabled, picks) == r;
      } else {
        assert Browse(SelectorEnabled, picks) == s;
      }
    }
  }
}
