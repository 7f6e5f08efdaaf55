/**
 * The reputation summary of one user: the sum of that user's ledger entries and
 * the badge tier it earns.
 */
module ReputationService {
  import opened Seqs
  import opened Domain
  import RequestService

  const GoldThreshold: int := 1000
  const SilverThreshold: int := 500

  /** The user's ledger entries, in ledger order. */
  function TransactionsOf(ledger: seq<PointsTransaction>, userId: string): (r: seq<PointsTransaction>)
    ensures forall t :: t in r <==> t in ledger && t.userId == userId
    ensures IsSubsequence(r, ledger)
    ensures forall t {:trigger multiset(r)[t]} :: multiset(r)[t] == if t.userId == userId then multiset(ledger)[t] else 0
  {
    Filter(ledger, (t: PointsTransaction) => t.userId == userId)
  }

  /** `transactions.reduce((sum, t) => sum + t.amount, 0)`: a left fold over the amounts. */
  function SumAmounts(ts: seq<PointsTransaction>): int {
    if ts == [] then 0 else SumAmounts(ts[..|ts| - 1]) + ts[|ts| - 1].amount
  }

  /** Reference definition: the amounts of the user's entries, added up from the front of the ledger. */
  function PointsOf(ledger: seq<PointsTransaction>, userId: string): int {
    if ledger == [] then 0
    else (if ledger[0].userId == userId then ledger[0].amount else 0) + PointsOf(ledger[1..], userId)
  }

  /** Badge thresholds: above 1000 is Gold, above 500 Silver, otherwise Bronze. */
  function BadgeFor(totalPoints: int): BadgeTier {
    if totalPoints > GoldThreshold then Gold
    else if totalPoints > SilverThreshold then Silver
    else Bronze
  }

  /** Order of the tiers, lowest first. */
  function Rank(b: BadgeTier): nat {
    match b
    case Contributor => 0
    case Bronze => 1
    case Silver => 2
    case Gold => 3
  }

  /** `getMyReputation(userId)` over the ledger. */
  function GetMyReputation(ledger: seq<PointsTransaction>, userId: string): (r: ReputationSummary)
    ensures r.userId == userId
    ensures r.totalPoints == PointsOf(ledger, userId)
    ensures forall t :: t in r.transactions <==> t in ledger && t.userId == userId
    ensures IsSubsequence(r.transactions, ledger)
    ensures forall t {:trigger multiset(r.transactions)[t]} :: multiset(r.transactions)[t] == if t.userId == userId then multiset(ledger)[t] else 0
    ensures r.badge == BadgeFor(r.totalPoints) && r.badge != Contributor
  {
    var transactions := TransactionsOf(ledger, userId);
    var totalPoints := SumAmounts(transactions);
    SumOfOwnTransactions(ledger, userId);
    ReputationSummary(userId, totalPoints, BadgeFor(totalPoints), transactions)
  }

  /** Folding from the back equals adding the first amount to the fold of the rest. */
  lemma {:induction false} SumAmountsCons(t: PointsTransaction, ts: seq<PointsTransaction>)
    ensures SumAmounts([t] + ts) == t.amount + SumAmounts(ts)
    decreases |ts|
  {
    if ts != [] {
      var front := ts[..|ts| - 1];
      assert ([t] + ts)[..|ts|] == [t] + front;
      SumAmountsCons(t, front);
    }
  }

  /** The reduce over the filtered entries equals the reference sum. */
  lemma {:induction false} SumOfOwnTransactions(ledger: seq<PointsTransaction>, userId: string)
    ensures SumAmounts(TransactionsOf(ledger, userId)) == PointsOf(ledger, userId)
  {
    if ledger != [] {
      SumOfOwnTransactions(ledger[1..], userId);
      if ledger[0].userId == userId {
        SumAmountsCons(ledger[0], TransactionsOf(ledger[1..], userId));
      }
    }
  }

  /** Adding an entry at the end adds its amount to its owner's total and nothing to others'. */
  lemma {:induction false} PointsOfAppend(ledger: seq<PointsTransaction>, t: PointsTransaction, userId: string)
    ensures PointsOf(ledger + [t], userId) == PointsOf(ledger, userId) + (if t.userId == userId then t.amount else 0)
  {
    if ledger != [] {
      assert (ledger + [t])[1..] == ledger[1..] + [t];
      PointsOfAppend(ledger[1..], t, userId);
    }
  }

  /** The tiers partition the totals: Gold above 1000, Silver in (500, 1000], Bronze at 500 or below. */
  lemma BadgeTiers(totalPoints: int)
    ensures BadgeFor(totalPoints) == Gold <==> totalPoints > 1000
    ensures BadgeFor(totalPoints) == Silver <==> 500 < totalPoints <= 1000
    ensures BadgeFor(totalPoints) == Bronze <==> totalPoints <= 500
    ensures BadgeFor(totalPoints) != Contributor
  {
  }

  /** More points never earn a lower tier. */
  lemma BadgeMonotone(a: int, b: int)
    requires a <= b
    ensures Rank(BadgeFor(a)) <= Rank(BadgeFor(b))
  {
  }

  /**
   * Approving a pending request with no prior award raises its owner's total by 10
   * and leaves every other user's total alone; any other approval changes no total.
   */
  lemma ApprovalRaisesOwnerTotal(m: RequestService.Moderation, requestId: string, adminId: string, now: int,
                                 txId: string, userId: string)
    ensures var after := RequestService.Approval(m, requestId, adminId, now, txId);
      var i := RequestService.TargetOf(m.requests, requestId);
      if i.Some? && m.requests[i.value].status == Pending && RequestService.AwardsFor(m.ledger, requestId) == [] then
        PointsOf(after.ledger, userId) ==
          PointsOf(m.ledger, userId) + (if m.requests[i.value].userId == userId then RequestService.ApprovalPoints else 0)
      else PointsOf(after.ledger, userId) == PointsOf(m.ledger, userId)
  {
    var after := RequestService.Approval(m, requestId, adminId, now, txId);
    RequestService.ApproveLedger(m, requestId, adminId, now, txId);
    if after.ledger != m.ledger {
      var t := after.ledger[|m.ledger|];
      assert after.ledger == m.ledger + [t];
      PointsOfAppend(m.ledger, t, userId);
    }
  }
}
