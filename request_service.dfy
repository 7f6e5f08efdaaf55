/**
 * The file-request moderation store: the in-memory `fileRequests` list and the
 * `pointsTransactions` ledger, with create, list, withdraw and approve.
 * Random ids and the clock are parameters; latency is not modelled.
 */
module RequestService {
  import opened Wrappers
  import opened Seqs
  import opened Domain

  /** Points awarded for an approved request. */
  const ApprovalPoints: int := 10
  const UnknownLecturer: string := "Unknown Lecturer"
  const FileApprovedReason: string := "File Approved"

  /** The fields a student submits. */
  datatype CreatePayload = CreatePayload(
    userId: string,
    courseId: string,
    lecturerId: string,
    materialType: MaterialType,
    title: string,
    notes: Option<string>)

  /** The request record built from a payload, a generated id and the current time. */
  function NewRequest(payload: CreatePayload, id: string, createdAt: int): FileRequest {
    FileRequest(id, payload.userId, None, payload.courseId, payload.lecturerId, UnknownLecturer,
                payload.materialType, payload.title, payload.notes, Pending, createdAt,
                None, None, None, None)
  }

  /** Position of the first request with the id (`findIndex` / `find`). */
  function TargetOf(requests: seq<FileRequest>, requestId: string): (r: Option<nat>)
    ensures r.Some? ==> r.value < |requests| && requests[r.value].id == requestId
    ensures r.Some? ==> forall j :: 0 <= j < r.value ==> requests[j].id != requestId
    ensures r.None? <==> forall x :: x in requests ==> x.id != requestId
  {
    FirstIndex(requests, (r: FileRequest) => r.id == requestId)
  }

  /** The ledger entries awarded for request `requestId`. */
  function AwardsFor(ledger: seq<PointsTransaction>, requestId: string): (r: seq<PointsTransaction>)
    ensures forall t :: t in r <==> t in ledger && t.requestId == Some(requestId)
  {
    Filter(ledger, (t: PointsTransaction) => t.requestId == Some(requestId))
  }

  /** No request id has more than one award in the ledger. */
  ghost predicate AwardsUnique(ledger: seq<PointsTransaction>) {
    forall i, j :: 0 <= i < j < |ledger| && ledger[i].requestId.Some? ==>
      ledger[i].requestId != ledger[j].requestId
  }

  /** Requests and ledger together: the state `approveRequest` acts on. */
  datatype Moderation = Moderation(requests: seq<FileRequest>, ledger: seq<PointsTransaction>)

  /** The approved version of a request. */
  function MarkApproved(r: FileRequest, adminId: string, now: int): FileRequest {
    r.(status := Approved, reviewedBy := Some(adminId), reviewedAt := Some(now),
       points := Some(ApprovalPoints))
  }

  /** The award recorded for approving `r`. */
  function Award(r: FileRequest, txId: string, now: int): PointsTransaction {
    PointsTransaction(txId, r.userId, ApprovalPoints, FileApprovedReason, now, Some(r.id))
  }

  /** The state after `approveRequest(requestId, adminId)` at time `now`, with `txId` as the fresh ledger id. */
  function Approval(m: Moderation, requestId: string, adminId: string, now: int, txId: string): Moderation {
    match TargetOf(m.requests, requestId)
    case None => m
    case Some(i) =>
      if m.requests[i].status != Pending then m
      else
        var ledger := if Find(m.ledger, (t: PointsTransaction) => t.requestId == Some(requestId)).Some? then m.ledger
                      else m.ledger + [Award(m.requests[i], txId, now)];
        Moderation(m.requests[i := MarkApproved(m.requests[i], adminId, now)], ledger)
  }

  /** The list after `withdrawRequest(requestId, userId)`. */
  function Withdrawn(requests: seq<FileRequest>, requestId: string, userId: string): seq<FileRequest> {
    match TargetOf(requests, requestId)
    case None => requests
    case Some(i) => if requests[i].userId == userId then RemoveAt(requests, i) else requests
  }

  /** `listMyRequests`: the user's requests, in list order. */
  function MyRequests(requests: seq<FileRequest>, userId: string): (r: seq<FileRequest>)
    ensures forall x :: x in r <==> x in requests && x.userId == userId
    ensures IsSubsequence(r, requests)
    ensures forall x {:trigger multiset(r)[x]} :: multiset(r)[x] == if x.userId == userId then multiset(requests)[x] else 0
  {
    Filter(requests, (x: FileRequest) => x.userId == userId)
  }

  /** `listPendingRequests`: the pending requests, in list order. */
  function PendingRequests(requests: seq<FileRequest>): (r: seq<FileRequest>)
    ensures forall x :: x in r <==> x in requests && x.status == Pending
    ensures IsSubsequence(r, requests)
    ensures forall x {:trigger multiset(r)[x]} :: multiset(r)[x] == if x.status == Pending then multiset(requests)[x] else 0
  {
    Filter(requests, (x: FileRequest) => x.status == Pending)
  }

  // ---------------------------------------------------------------------------
  // Properties of approval
  // ---------------------------------------------------------------------------

  /** Approval does nothing when no request has the id or the first one with it is not pending. */
  lemma ApproveNoOp(m: Moderation, requestId: string, adminId: string, now: int, txId: string)
    requires TargetOf(m.requests, requestId).None? ||
             m.requests[TargetOf(m.requests, requestId).value].status != Pending
    ensures Approval(m, requestId, adminId, now, txId) == m
  {
  }

  /**
   * Approving a pending request marks exactly that request approved by `adminId`
   * at `now` with 10 points, keeps every other field of it, and leaves every
   * other request alone.
   */
  lemma ApproveMarksRequest(m: Moderation, requestId: string, adminId: string, now: int, txId: string, i: nat)
    requires TargetOf(m.requests, requestId) == Some(i) && m.requests[i].status == Pending
    ensures var r := Approval(m, requestId, adminId, now, txId).requests;
      && |r| == |m.requests|
      && r[i] == m.requests[i].(status := Approved, reviewedBy := Some(adminId), reviewedAt := Some(now),
                                points := Some(ApprovalPoints))
      && forall j :: 0 <= j < |r| && j != i ==> r[j] == m.requests[j]
  {
  }

  /**
   * The ledger after approval: unchanged unless a pending request was approved and
   * no award for it existed, in which case exactly one award of 10 points to the
   * request's owner, keyed by the request id, is appended.
   */
  lemma ApproveLedger(m: Moderation, requestId: string, adminId: string, now: int, txId: string)
    ensures var r := Approval(m, requestId, adminId, now, txId);
      var i := TargetOf(m.requests, requestId);
      if i.Some? && m.requests[i.value].status == Pending && AwardsFor(m.ledger, requestId) == [] then
        && |r.ledger| == |m.ledger| + 1 && r.ledger[..|m.ledger|] == m.ledger
        && r.ledger[|m.ledger|].amount == ApprovalPoints
        && r.ledger[|m.ledger|].userId == m.requests[i.value].userId
        && r.ledger[|m.ledger|].requestId == Some(requestId)
      else r.ledger == m.ledger
  {
    var p := (t: PointsTransaction) => t.requestId == Some(requestId);
    assert (Find(m.ledger, p).None?) <==> AwardsFor(m.ledger, requestId) == [];
  }

  /** After approval the ledger holds at most one award for the request, if it held at most one before. */
  lemma {:induction false} ApproveAwardsAtMostOnce(m: Moderation, requestId: string, adminId: string, now: int, txId: string)
    requires |AwardsFor(m.ledger, requestId)| <= 1
    ensures |AwardsFor(Approval(m, requestId, adminId, now, txId).ledger, requestId)| <= 1
  {
    var r := Approval(m, requestId, adminId, now, txId);
    ApproveLedger(m, requestId, adminId, now, txId);
    if r.ledger != m.ledger {
      var t := r.ledger[|m.ledger|];
      assert r.ledger == m.ledger + [t];
      FilterAppend(m.ledger, [t], (x: PointsTransaction) => x.requestId == Some(requestId));
    }
  }

  /** Approval keeps the ledger free of double awards. */
  lemma {:induction false} ApprovePreservesAwardsUnique(m: Moderation, requestId: string, adminId: string, now: int, txId: string)
    requires AwardsUnique(m.ledger)
    ensures AwardsUnique(Approval(m, requestId, adminId, now, txId).ledger)
  {
    var r := Approval(m, requestId, adminId, now, txId);
    ApproveLedger(m, requestId, adminId, now, txId);
    if r.ledger != m.ledger {
      forall i | 0 <= i < |m.ledger| && m.ledger[i].requestId.Some?
        ensures m.ledger[i].requestId != r.ledger[|m.ledger|].requestId
      {
        assert m.ledger[i] !in AwardsFor(m.ledger, requestId);
      }
    }
  }

  /** Approving the same id a second time changes nothing, whoever approves and whenever. */
  lemma {:induction false} ApproveIdempotent(m: Moderation, requestId: string, adminId: string, now: int, txId: string,
                                             adminId2: string, now2: int, txId2: string)
    ensures var once := Approval(m, requestId, adminId, now, txId);
      Approval(once, requestId, adminId2, now2, txId2) == once
  {
    var once := Approval(m, requestId, adminId, now, txId);
    match TargetOf(m.requests, requestId)
    case None =>
    case Some(i) =>
      if m.requests[i].status == Pending {
        ApproveMarksRequest(m, requestId, adminId, now, txId, i);
        assert TargetOf(once.requests, requestId) == Some(i) by {
          assert forall j :: 0 <= j <= i ==> once.requests[j].id == m.requests[j].id;
        }
      }
  }

  // ---------------------------------------------------------------------------
  // Properties of withdrawal
  // ---------------------------------------------------------------------------

  /**
   * Withdrawal removes the first request with the id exactly when the caller owns
   * it, whatever its status, keeping the others in order; otherwise nothing changes.
   */
  lemma WithdrawnEffect(requests: seq<FileRequest>, requestId: string, userId: string)
    ensures var r := Withdrawn(requests, requestId, userId);
      var i := TargetOf(requests, requestId);
      if i.Some? && requests[i.value].userId == userId then
        |r| == |requests| - 1 && r == requests[..i.value] + requests[i.value + 1..]
      else r == requests
  {
  }

  // ---------------------------------------------------------------------------
  // The store
  // ---------------------------------------------------------------------------

  /** The module-level arrays `fileRequests` and `pointsTransactions`. */
  class RequestStore {
    var requests: seq<FileRequest>
    var ledger: seq<PointsTransaction>

    /** The ledger never holds two awards for the same request. */
    ghost predicate Valid()
      reads this
    {
      AwardsUnique(ledger)
    }

    function State(): Moderation
      reads this
    {
      Moderation(requests, ledger)
    }

    /** The store seeded with requests and an empty ledger, as the mock database starts. */
    constructor (seed: seq<FileRequest>)
      ensures Valid()
      ensures requests == seed && ledger == []
    {
      requests := seed;
      ledger := [];
    }

    /** `createFileRequest`: appends one pending request built from the payload and returns it. */
    method CreateFileRequest(payload: CreatePayload, id: string, createdAt: int) returns (r: FileRequest)
      requires Valid()
      modifies this
      ensures Valid()
      ensures r.status == Pending && r.id == id && r.createdAt == createdAt
      ensures r.userId == payload.userId && r.courseId == payload.courseId
      ensures r.lecturerId == payload.lecturerId && r.materialType == payload.materialType
      ensures r.title == payload.title && r.notes == payload.notes
      ensures r.lecturerName == UnknownLecturer && r.uploaderName.None?
      ensures r.reviewedAt.None? && r.reviewedBy.None? && r.points.None? && r.rejectionReason.None?
      ensures requests == old(requests) + [r] && ledger == old(ledger)
    {
      r := NewRequest(payload, id, createdAt);
      requests := requests + [r];
    }

    /** `listMyRequests`. */
    function ListMyRequests(userId: string): (r: seq<FileRequest>)
      reads this
      ensures forall x :: x in r <==> x in requests && x.userId == userId
      ensures IsSubsequence(r, requests)
    {
      MyRequests(requests, userId)
    }

    /** `listPendingRequests`. */
    function ListPendingRequests(): (r: seq<FileRequest>)
      reads this
      ensures forall x :: x in r <==> x in requests && x.status == Pending
      ensures IsSubsequence(r, requests)
    {
      PendingRequests(requests)
    }

    /** `withdrawRequest`: deletes the first request with the id if the caller owns it. */
    method WithdrawRequest(requestId: string, userId: string)
      requires Valid()
      modifies this
      ensures Valid()
      ensures requests == Withdrawn(old(requests), requestId, userId)
      ensures ledger == old(ledger)
    {
      var index := TargetOf(requests, requestId);
      if index.Some? && requests[index.value].userId == userId {
        requests := RemoveAt(requests, index.value);
      }
    }

    /** `approveRequest`: approves a pending request and awards its points at most once. */
    method ApproveRequest(requestId: string, adminId: string, now: int, txId: string)
      requires Valid()
      modifies this
      ensures Valid()
      ensures State() == Approval(old(State()), requestId, adminId, now, txId)
    {
      ApprovePreservesAwardsUnique(State(), requestId, adminId, now, txId);
      var index := TargetOf(requests, requestId);
      if index.Some? && requests[index.value].status == Pending {
        var i := index.value;
        var request := requests[i];
        requests := requests[i := MarkApproved(request, adminId, now)];
        var existing := Find(ledger, (t: PointsTransaction) => t.requestId == Some(requestId));
        if existing.None? {
          ledger := ledger + [Award(request, txId, now)];
        }
      }
    }
  }
}
