/**
 * The pinned-courses hook: a list of course ids where toggling an id removes
 * every occurrence of it when present and appends it otherwise.
 * The local-storage copy of the list is not modelled.
 */
module PinnedCourses {
  import opened Seqs

  /** `isPinned(courseId)`: `pinnedIds.includes(courseId)`. */
  predicate IsPinned(pinned: seq<string>, courseId: string) {
    courseId in pinned
  }

  /** The updater passed to `setPinnedIds` by `togglePin(courseId)`. */
  function TogglePin(pinned: seq<string>, courseId: string): (r: seq<string>)
    ensures IsPinned(r, courseId) <==> !IsPinned(pinned, courseId)
    ensures forall other :: other != courseId ==> (IsPinned(r, other) <==> IsPinned(pinned, other))
  {
    if courseId in pinned then Filter(pinned, (id: string) => id != courseId)
    else pinned + [courseId]
  }

  /**
   * Toggling an unpinned id appends it; toggling a pinned one removes every
   * occurrence and keeps every other id, with its multiplicity, in order.
   */
  lemma ToggleShape(pinned: seq<string>, courseId: string)
    ensures courseId !in pinned ==> TogglePin(pinned, courseId) == pinned + [courseId]
    ensures courseId in pinned ==>
      && IsSubsequence(TogglePin(pinned, courseId), pinned)
      && |TogglePin(pinned, courseId)| < |pinned|
      && forall id {:trigger multiset(TogglePin(pinned, courseId))[id]} :: multiset(TogglePin(pinned, courseId))[id] == if id == courseId then 0 else multiset(pinned)[id]
  {
    if courseId in pinned {
      FilterShorter(pinned, courseId);
    }
  }

  /** Removing an id that occurs makes the list strictly shorter. */
  lemma {:induction false} FilterShorter(pinned: seq<string>, courseId: string)
    requires courseId in pinned
    ensures |Filter(pinned, (id: string) => id != courseId)| < |pinned|
  {
    if pinned[0] != courseId {
      FilterShorter(pinned[1..], courseId);
    }
  }

  /** Toggling an unpinned id twice restores the list exactly. */
  lemma {:induction false} ToggleTwiceRestores(pinned: seq<string>, courseId: string)
    requires courseId !in pinned
    ensures TogglePin(TogglePin(pinned, courseId), courseId) == pinned
  {
    FilterAppend(pinned, [courseId], (id: string) => id != courseId);
    FilterKeepsAll(pinned, (id: string) => id != courseId);
  }

  /** A duplicate-free list stays duplicate-free. */
  lemma {:induction false} ToggleKeepsDistinct(pinned: seq<string>, courseId: string)
    requires Distinct(pinned)
    ensures Distinct(TogglePin(pinned, courseId))
  {
    if courseId in pinned {
      FilterKeepsDistinct(pinned, (id: string) => id != courseId);
    }
  }
}
