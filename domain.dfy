/**
 * The records shared by the services and pages: file requests, the points
 * ledger, files, catalog rows and audit entries. ISO timestamps are integers
 * (larger is later); optional (`?:`) fields are `Option`s.
 */
module Domain {
  import opened Wrappers

  /** Status of a file or a file request. */
  datatype FileStatus = Pending | Approved | Rejected

  /** Kinds of course material. */
  datatype MaterialType = Slides | Homeworks | PastPapers | Notes

  /** The display string of a material type, as the pages pass it around. */
  function MaterialTypeName(t: MaterialType): string {
    match t
    case Slides => "Slides"
    case Homeworks => "Homeworks"
    case PastPapers => "Past Papers"
    case Notes => "Notes"
  }

  /** Badge tiers; "Contributor" exists in the type but no computation yields it. */
  datatype BadgeTier = Gold | Silver | Bronze | Contributor

  /** A student's request for a file to be added to a course. */
  datatype FileRequest = FileRequest(
    id: string,
    userId: string,
    uploaderName: Option<string>,
    courseId: string,
    lecturerId: string,
    lecturerName: string,
    materialType: MaterialType,
    title: string,
    notes: Option<string>,
    status: FileStatus,
    createdAt: int,
    reviewedAt: Option<int>,
    reviewedBy: Option<string>,
    rejectionReason: Option<string>,
    points: Option<int>)

  /** One entry of the points ledger; `requestId` is the idempotency key of awards. */
  datatype PointsTransaction = PointsTransaction(
    id: string,
    userId: string,
    amount: int,
    reason: string,
    date: int,
    requestId: Option<string>)

  /** An uploaded file. */
  datatype File = File(
    id: string,
    title: string,
    materialType: MaterialType,
    lecturer: string,
    lecturerId: Option<string>,
    courseId: string,
    date: string,
    size: string,
    status: FileStatus,
    points: Option<int>)

  datatype Major = Major(id: string, name: string, slug: string)
  datatype AcademicYear = AcademicYear(id: string, yearLabel: string)
  datatype Semester = Semester(id: string, name: string)
  datatype Lecturer = Lecturer(id: string, name: string)
  datatype Course = Course(id: string, code: string, name: string, majorId: string, semesterId: string, term: string)

  /** A leaderboard row. */
  datatype TopContributor = TopContributor(id: string, name: string, points: int, badge: BadgeTier, major: string)

  /** Actions recorded in the admin audit log. */
  datatype AuditAction = Approve | Reject | BulkApprove | BulkReject | Withdraw | UndoApprove | UndoReject

  datatype AuditLogEntry = AuditLogEntry(
    id: string,
    timestamp: int,
    actorId: string,
    actorName: string,
    action: AuditAction,
    targetIds: seq<string>)

  /** What the reputation service answers for one user. */
  datatype ReputationSummary = ReputationSummary(
    userId: string,
    totalPoints: int,
    badge: BadgeTier,
    transactions: seq<PointsTransaction>)

  /** JavaScript truthiness of an optional string filter: present and non-empty. */
  predicate Given(filter: Option<string>) {
    filter.Some? && filter.value != ""
  }
}
