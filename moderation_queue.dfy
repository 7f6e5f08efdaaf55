/**
 * The admin moderation queue's client-side search: the pending requests
 * are narrowed to those whose title, uploader name or course id contains
 * the search text, ignoring case.
 */
module ModerationQueue {
  import opened Wrappers
  import opened Seqs
  import opened Text
  import opened Domain

  /**
   * One request matches an already lower-cased query when the query occurs
   * in its lower-cased title, uploader name (when there is one) or course id.
   */
  predicate MatchesQuery(r: FileRequest, query: string) {
    Includes(Lower(r.title), query)
    || (r.uploaderName.Some? && Includes(Lower(r.uploaderName.value), query))
    || Includes(Lower(r.courseId), query)
  }

  /**
   * The table's rows: nothing while the requests have not loaded, every
   * request while the search box is empty, the matching ones otherwise.
   */
  function FilteredData(requests: Option<seq<FileRequest>>, searchQuery: string): (r: seq<FileRequest>)
    ensures requests.None? ==> r == []
    ensures requests.Some? && searchQuery == "" ==> r == requests.value
    ensures requests.Some? ==> IsSubsequence(r, requests.value)
    ensures requests.Some? ==>
      forall x :: x in r <==> x in requests.value && MatchesQuery(x, Lower(searchQuery))
    ensures requests.Some? ==>
      forall x {:trigger multiset(r)[x]} :: multiset(r)[x] == if MatchesQuery(x, Lower(searchQuery)) then multiset(requests.value)[x] else 0
  {
    if requests.None? then []
    else if searchQuery == "" then
      assert forall x :: MatchesQuery(x, Lower(searchQuery)) by {
        forall x: FileRequest ensures MatchesQuery(x, Lower(searchQuery)) {
          assert OccursAt(Lower(x.title), "", 0);
        }
      }
      SubsequenceReflexive(requests.value);
      requests.value
    else
      var query := Lower(searchQuery);
      Filter(requests.value, (x: FileRequest) => MatchesQuery(x, query))
  }

  /** The search ignores case: queries that lower-case alike give the same rows. */
  lemma CaseInsensitive(requests: Option<seq<FileRequest>>, q1: string, q2: string)
    requires Lower(q1) == Lower(q2)
    ensures FilteredData(requests, q1) == FilteredData(requests, q2)
  {
    if requests.Some? && q1 != "" {
      assert |q2| == |Lower(q2)| == |Lower(q1)| == |q1|;
    }
  }

  /** Searching with the lower-cased query gives the same rows as the query itself. */
  lemma LowerQuerySameRows(requests: Option<seq<FileRequest>>, q: string)
    ensures FilteredData(requests, Lower(q)) == FilteredData(requests, q)
  {
    LowerIdempotent(q);
    CaseInsensitive(requests, Lower(q), q);
  }

  /**
   * A request without an uploader name is found only through its title or
   * its course id.
   */
  lemma AnonymousMatchesTitleOrCourse(requests: seq<FileRequest>, searchQuery: string, x: FileRequest)
    requires x in requests && x.uploaderName.None?
    ensures x in FilteredData(Some(requests), searchQuery) <==>
      exists i :: OccursAt(Lower(x.title), Lower(searchQuery), i) || OccursAt(Lower(x.courseId), Lower(searchQuery), i)
  {
    var q := Lower(searchQuery);
    if Includes(Lower(x.title), q) {
      var i :| OccursAt(Lower(x.title), q, i);
    } else if Includes(Lower(x.courseId), q) {
      var i :| OccursAt(Lower(x.courseId), q, i);
    }
  }
}
