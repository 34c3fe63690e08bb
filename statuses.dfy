/** Status values of the tender aggregate and of its parts, with their wire names. */
module Statuses {

  datatype TenderStatus =
    | ActiveTendering
    | ActivePreQualification
    | ActivePreQualificationStandStill
    | ActiveAuction
    | ActiveQualification
    | ActiveAwarded
    | Complete
    | Unsuccessful
    | Cancelled

  datatype LotStatus = LotActive | LotUnsuccessful | LotCancelled | LotComplete

  /** The name under which a tender status is published. */
  function TenderStatusName(s: TenderStatus): string {
    match s
    case ActiveTendering => "active.tendering"
    case ActivePreQualification => "active.pre-qualification"
    case ActivePreQualificationStandStill => "active.pre-qualification.stand-still"
    case ActiveAuction => "active.auction"
    case ActiveQualification => "active.qualification"
    case ActiveAwarded => "active.awarded"
    case Complete => "complete"
    case Unsuccessful => "unsuccessful"
    case Cancelled => "cancelled"
  }

  /** The name under which a lot status is published. */
  function LotStatusName(s: LotStatus): string {
    match s
    case LotActive => "active"
    case LotUnsuccessful => "unsuccessful"
    case LotCancelled => "cancelled"
    case LotComplete => "complete"
  }

  /** A tender status from which no further transition is taken. */
  predicate IsTerminal(s: TenderStatus) {
    s == Complete || s == Unsuccessful || s == Cancelled
  }

  /** A lot status that counts as settled without success. */
  predicate IsFailedLot(s: LotStatus) {
    s == LotUnsuccessful || s == LotCancelled
  }

  /** A lot status that counts as settled. */
  predicate IsSettledLot(s: LotStatus) {
    s != LotActive
  }

  predicate AllCancelled(ss: seq<LotStatus>) {
    forall i :: 0 <= i < |ss| ==> ss[i] == LotCancelled
  }

  predicate AllFailed(ss: seq<LotStatus>) {
    forall i :: 0 <= i < |ss| ==> IsFailedLot(ss[i])
  }

  predicate AllSettled(ss: seq<LotStatus>) {
    forall i :: 0 <= i < |ss| ==> IsSettledLot(ss[i])
  }

  /**
   * The tender status after the statuses of its lots have been rolled up: every lot cancelled makes
   * the tender cancelled; every lot unsuccessful or cancelled makes it unsuccessful; every lot
   * settled (complete, unsuccessful or cancelled) makes it complete; while one lot is still active
   * the tender keeps its status. A tender without lots is not rolled up.
   */
  function RollupStatus(ss: seq<LotStatus>, current: TenderStatus): (r: TenderStatus)
    ensures |ss| > 0 && AllCancelled(ss) ==> r == Cancelled
    ensures |ss| > 0 && !AllCancelled(ss) && AllFailed(ss) ==> r == Unsuccessful
    ensures |ss| > 0 && !AllFailed(ss) && AllSettled(ss) ==> r == Complete
    ensures |ss| == 0 || !AllSettled(ss) ==> r == current
  {
    if |ss| == 0 then current
    else if AllCancelled(ss) then Cancelled
    else if AllFailed(ss) then Unsuccessful
    else if AllSettled(ss) then Complete
    else current
  }

  /** Rolling up twice gives what rolling up once gives: the pass is idempotent. */
  lemma RollupIdempotent(ss: seq<LotStatus>, current: TenderStatus)
    ensures RollupStatus(ss, RollupStatus(ss, current)) == RollupStatus(ss, current)
  {
  }

  /** A tender with one lot still active keeps its status, whatever its other lots did. */
  lemma RollupKeepsStatusWhileALotIsActive(ss: seq<LotStatus>, current: TenderStatus, k: nat)
    requires k < |ss| && ss[k] == LotActive
    ensures RollupStatus(ss, current) == current
  {
    assert !IsSettledLot(ss[k]);
  }

  /** The rolled-up status is a terminal one exactly when every lot has settled. */
  lemma RollupTerminalIffSettled(ss: seq<LotStatus>, current: TenderStatus)
    requires |ss| > 0 && !IsTerminal(current)
    ensures IsTerminal(RollupStatus(ss, current)) <==> AllSettled(ss)
  {
  }
}
