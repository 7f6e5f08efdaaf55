/**
 * The file service: filtered listing and lookup over the `files` table, and the
 * session's recently-viewed list, which `addRecentFile` updates in place with a
 * move-to-front upsert.
 */
module FileService {
  import opened Wrappers
  import opened Seqs
  import opened Domain

  /** Optional query filters; only `courseId` and `materialType` narrow the result. */
  datatype FileFilters = FileFilters(
    majorId: Option<string>,
    courseId: Option<string>,
    lecturerId: Option<string>,
    materialType: Option<string>,
    search: Option<string>)

  predicate InCourse(f: File, filters: FileFilters) {
    !Given(filters.courseId) || f.courseId == filters.courseId.value
  }

  predicate OfType(f: File, filters: FileFilters) {
    !Given(filters.materialType) || MaterialTypeName(f.materialType) == filters.materialType.value
  }

  /** `listFiles(filters)`: the course filter, then the type filter; the lecturer filter is a no-op. */
  function ListFiles(files: seq<File>, filters: FileFilters): (r: seq<File>)
    ensures IsSubsequence(r, files)
    ensures forall f :: f in r <==> f in files && InCourse(f, filters) && OfType(f, filters)
    ensures forall f {:trigger multiset(r)[f]} :: multiset(r)[f] == if InCourse(f, filters) && OfType(f, filters) then multiset(files)[f] else 0
    ensures !Given(filters.courseId) && !Given(filters.materialType) ==> r == files
  {
    if Given(filters.courseId) && Given(filters.materialType) then
      var byCourse := Filter(files, (f: File) => f.courseId == filters.courseId.value);
      var result := Filter(byCourse, (f: File) => MaterialTypeName(f.materialType) == filters.materialType.value);
      SubsequenceTransitive(result, byCourse, files);
      result
    else if Given(filters.courseId) then
      Filter(files, (f: File) => f.courseId == filters.courseId.value)
    else if Given(filters.materialType) then
      Filter(files, (f: File) => MaterialTypeName(f.materialType) == filters.materialType.value)
    else
      SubsequenceReflexive(files);
      files
  }

  /** The lecturer, major and search filters never change the listing. */
  lemma ListFilesIgnoresLecturer(files: seq<File>, filters: FileFilters, lecturerId: Option<string>,
                                 majorId: Option<string>, search: Option<string>)
    ensures ListFiles(files, filters.(lecturerId := lecturerId, majorId := majorId, search := search))
         == ListFiles(files, filters)
  {
  }

  /** `getFile(id)`: the first file with the id, or `None` for the source's `null`. */
  function GetFile(files: seq<File>, fileId: string): (r: Option<File>)
    ensures r.Some? ==> exists i :: 0 <= i < |files| && files[i] == r.value && r.value.id == fileId &&
                                    forall j :: 0 <= j < i ==> files[j].id != fileId
    ensures r.None? <==> forall f :: f in files ==> f.id != fileId
  {
    Find(files, (f: File) => f.id == fileId)
  }

  // ---------------------------------------------------------------------------
  // Recently viewed files
  // ---------------------------------------------------------------------------

  /** A recently-viewed entry: the file's fields spread out, plus the view time. */
  datatype Viewed = Viewed(file: File, viewedAt: int) {
    function Id(): string { file.id }
  }

  /** Position of the first entry for the file id (`find` followed by `indexOf`). */
  function EntryOf(recent: seq<Viewed>, fileId: string): (r: Option<nat>)
    ensures r.Some? ==> r.value < |recent| && recent[r.value].Id() == fileId
    ensures r.Some? ==> forall j :: 0 <= j < r.value ==> recent[j].Id() != fileId
    ensures r.None? <==> forall v :: v in recent ==> v.Id() != fileId
  {
    FirstIndex(recent, (v: Viewed) => v.Id() == fileId)
  }

  /**
   * The list after `addRecentFile(file)` at time `now`: an existing entry has its
   * view time refreshed and moves to the front; otherwise a new entry is put in front.
   */
  function MoveToFront(recent: seq<Viewed>, file: File, now: int): seq<Viewed> {
    match EntryOf(recent, file.id)
    case Some(i) => [recent[i].(viewedAt := now)] + RemoveAt(recent, i)
    case None => [Viewed(file, now)] + recent
  }

  /** No file id appears twice. */
  predicate DistinctIds(recent: seq<Viewed>) {
    forall i, j :: 0 <= i < j < |recent| ==> recent[i].Id() != recent[j].Id()
  }

  /**
   * After the upsert the file is at the front with the new view time. A file not
   * yet in the list grows it by one and the new entry carries the file's fields;
   * a file already present keeps the length and its stored fields (only the view
   * time changes). Either way the other entries follow in their old order.
   */
  lemma MoveToFrontEffect(recent: seq<Viewed>, file: File, now: int)
    ensures var r := MoveToFront(recent, file, now);
      && |r| >= 1 && r[0].Id() == file.id && r[0].viewedAt == now
      && match EntryOf(recent, file.id)
         case None => |r| == |recent| + 1 && r[0].file == file && r[1..] == recent
         case Some(i) => |r| == |recent| && r[0].file == recent[i].file
                         && r[1..] == recent[..i] + recent[i + 1..]
  {
  }

  /** Distinct ids before the upsert means distinct ids after it. */
  lemma MoveToFrontKeepsDistinct(recent: seq<Viewed>, file: File, now: int)
    requires DistinctIds(recent)
    ensures DistinctIds(MoveToFront(recent, file, now))
  {
    var r := MoveToFront(recent, file, now);
    match EntryOf(recent, file.id)
    case None =>
    case Some(i) =>
      forall j | 1 <= j < |r| ensures r[j].Id() != file.id {
        if j - 1 < i {
          assert r[j] == recent[j - 1];
        } else {
          assert r[j] == recent[j];
        }
      }
  }

  /** The session state behind `recentFiles` and `topContributors`. */
  class RecentFilesStore {
    var recentFiles: seq<Viewed>
    var topContributors: seq<TopContributor>

    constructor (contributors: seq<TopContributor>)
      ensures recentFiles == [] && topContributors == contributors
    {
      recentFiles := [];
      topContributors := contributors;
    }

    /** `listRecentFiles`: the list as it stands, most recent first. */
    function ListRecentFiles(): (r: seq<Viewed>)
      reads this
      ensures r == recentFiles
    {
      recentFiles
    }

    /** `listTopContributors`: the constant leaderboard. */
    function ListTopContributors(): (r: seq<TopContributor>)
      reads this
      ensures r == topContributors
    {
      topContributors
    }

    /** `addRecentFile(file)`: refresh-and-move-to-front, or insert in front. */
    method AddRecentFile(file: File, now: int)
      modifies this
      ensures recentFiles == MoveToFront(old(recentFiles), file, now)
      ensures recentFiles[0].Id() == file.id && recentFiles[0].viewedAt == now
      ensures DistinctIds(old(recentFiles)) ==> DistinctIds(recentFiles)
      ensures topContributors == old(topContributors)
    {
      MoveToFrontEffect(recentFiles, file, now);
      if DistinctIds(recentFiles) {
        MoveToFrontKeepsDistinct(recentFiles, file, now);
      }
      var found := EntryOf(recentFiles, file.id);
      if found.Some? {
        var idx := found.value;
        var entry := recentFiles[idx].(viewedAt := now);
        recentFiles := RemoveAt(recentFiles, idx);
        recentFiles := [entry] + recentFiles;
      } else {
        recentFiles := [Viewed(file, now)] + recentFiles;
      }
    }

    /** `clearRecentFiles`: empties the list. */
    method ClearRecentFiles()
      modifies this
      ensures recentFiles == [] && topContributors == old(topContributors)
    {
      recentFiles := [];
    }
  }
}
