/**
 * The recently-viewed hook: a functional update that drops the file's old
 * entry, puts a fresh one in front and keeps at most twenty entries.
 * The local-storage copy of the list is not modelled.
 */
module RecentFilesHook {
  import opened Seqs

  const MaxRecentFiles: nat := 20

  datatype RecentFile = RecentFile(id: string, title: string, courseId: string, fileType: string, viewedAt: int)

  /** The file as the caller passes it: a recent entry without its view time. */
  datatype FileInfo = FileInfo(id: string, title: string, courseId: string, fileType: string)

  function Stamp(file: FileInfo, now: int): RecentFile {
    RecentFile(file.id, file.title, file.courseId, file.fileType, now)
  }

  /** `prev.filter(f => f.id !== id)`. */
  function WithoutId(prev: seq<RecentFile>, id: string): (r: seq<RecentFile>)
    ensures forall x :: x in r <==> x in prev && x.id != id
    ensures IsSubsequence(r, prev)
    ensures forall x {:trigger multiset(r)[x]} :: multiset(r)[x] == if x.id != id then multiset(prev)[x] else 0
  {
    Filter(prev, (f: RecentFile) => f.id != id)
  }

  /** No id appears twice. */
  predicate DistinctIds(s: seq<RecentFile>) {
    forall i, j :: 0 <= i < j < |s| ==> s[i].id != s[j].id
  }

  /** The updater passed to `setRecentFiles` by `addRecentFile(file)` at time `now`. */
  function AddRecentFile(prev: seq<RecentFile>, file: FileInfo, now: int): (r: seq<RecentFile>)
    ensures |r| <= MaxRecentFiles
    ensures |r| == Min(MaxRecentFiles, 1 + |WithoutId(prev, file.id)|)
    ensures r[0] == Stamp(file, now)
    ensures r[1..] == WithoutId(prev, file.id)[..|r| - 1]
    ensures forall j :: 1 <= j < |r| ==> r[j].id != file.id
  {
    var filtered := WithoutId(prev, file.id);
    var updated := [Stamp(file, now)] + filtered;
    var r := updated[..Min(MaxRecentFiles, |updated|)];
    assert forall j :: 1 <= j < |r| ==> r[j] == filtered[j - 1] && r[j] in filtered;
    r
  }

  /** `clearHistory`: the list becomes empty. */
  function ClearHistory(): (r: seq<RecentFile>)
    ensures |r| == 0
  {
    []
  }

  /** Distinct ids before an update means distinct ids after it. */
  lemma AddKeepsDistinct(prev: seq<RecentFile>, file: FileInfo, now: int)
    requires DistinctIds(prev)
    ensures DistinctIds(AddRecentFile(prev, file, now))
  {
    WithoutIdKeepsDistinct(prev, file.id);
  }

  /** Deleting entries keeps the survivors' ids distinct. */
  lemma {:induction false} WithoutIdKeepsDistinct(prev: seq<RecentFile>, id: string)
    requires DistinctIds(prev)
    ensures DistinctIds(WithoutId(prev, id))
  {
    if prev != [] {
      WithoutIdKeepsDistinct(prev[1..], id);
      var rest := WithoutId(prev[1..], id);
      if prev[0].id != id {
        assert WithoutId(prev, id) == [prev[0]] + rest;
        forall j | 0 <= j < |rest| ensures rest[j].id != prev[0].id {
          assert rest[j] in prev[1..];
        }
      }
    }
  }

  /** Dropping a file's entries from a list whose only such entry is at the front removes just that entry. */
  lemma DropFreshEntry(head: RecentFile, tail: seq<RecentFile>, id: string)
    requires head.id == id
    requires forall j :: 0 <= j < |tail| ==> tail[j].id != id
    ensures WithoutId([head] + tail, id) == tail
  {
    assert ([head] + tail)[1..] == tail;
    FilterKeepsAll(tail, (f: RecentFile) => f.id != id);
  }

  /** Viewing the file again only refreshes the view time of its entry. */
  lemma ReAddRefreshes(prev: seq<RecentFile>, file: FileInfo, now: int, later: int)
    ensures AddRecentFile(AddRecentFile(prev, file, now), file, later) == AddRecentFile(prev, file, later)
  {
    var filtered := WithoutId(prev, file.id);
    var once := AddRecentFile(prev, file, now);
    var n := |once|;
    var tail := filtered[..n - 1];
    assert once == [Stamp(file, now)] + tail;
    DropFreshEntry(Stamp(file, now), tail, file.id);
    var updated := [Stamp(file, later)] + filtered;
    assert updated[..n] == [Stamp(file, later)] + tail;
  }
}
