/**
 * Counting the competition on each lot, closing the lots that lack it, and the qualification of bids
 * lot by lot that follows the end of tendering.
 */
module Qualifications {
  import opened Wrappers
  import opened Statuses
  import opened Lots
  import opened Bids

  datatype QualificationStatus = QualificationPending | QualificationActive | QualificationUnsuccessful

  /** The review of one bid's offer for one lot. */
  datatype Qualification = Qualification(bidId: string, lotId: LotId, status: QualificationStatus)

  /** The two moments at which the competition on each lot is counted. */
  datatype Stage = EndOfTendering | EndOfStandStill

  /** Whether an offer counts: at the end of tendering every offer not turned down, at the end of the
      stand-still only the offers that qualified. */
  predicate OfferCounts(lv: LotValue, stage: Stage) {
    match stage
    case EndOfTendering => lv.status != LotValueUnsuccessful
    case EndOfStandStill => lv.status == LotValueActive
  }

  /** Whether a bid competes for a lot: it is not withdrawn and one of its offers for the lot counts. */
  predicate Competes(b: Bid, lotId: LotId, stage: Stage) {
    && b.status != BidDeleted
    && exists k :: 0 <= k < |b.lotValues| && b.lotValues[k].relatedLot == lotId && OfferCounts(b.lotValues[k], stage)
  }

  /** The number of bids competing for a lot. */
  function NumberOfBids(bids: seq<Bid>, lotId: LotId, stage: Stage): nat {
    if |bids| == 0 then 0
    else NumberOfBids(bids[..|bids| - 1], lotId, stage) + (if Competes(bids[|bids| - 1], lotId, stage) then 1 else 0)
  }

  /** Some bid competes for the lot exactly when the count is positive. */
  lemma {:induction false} SomeBidIffPositive(bids: seq<Bid>, lotId: LotId, stage: Stage)
    ensures NumberOfBids(bids, lotId, stage) >= 1 <==> exists i :: 0 <= i < |bids| && Competes(bids[i], lotId, stage)
  {
    if |bids| > 0 {
      var pre := bids[..|bids| - 1];
      SomeBidIffPositive(pre, lotId, stage);
      assert forall i :: 0 <= i < |pre| ==> pre[i] == bids[i];
      if exists i :: 0 <= i < |bids| && Competes(bids[i], lotId, stage) {
        var i :| 0 <= i < |bids| && Competes(bids[i], lotId, stage);
        if i < |pre| {
          assert Competes(pre[i], lotId, stage);
        }
      }
    }
  }

  /** A lot has the competition it needs (two bids or more) exactly when two different bids compete for it. */
  lemma {:induction false} TwoBidsIffTwoCompetitors(bids: seq<Bid>, lotId: LotId, stage: Stage)
    ensures NumberOfBids(bids, lotId, stage) >= 2 <==>
            exists i, j :: 0 <= i < j < |bids| && Competes(bids[i], lotId, stage) && Competes(bids[j], lotId, stage)
  {
    TwoBidsGiveTwoCompetitors(bids, lotId, stage);
    TwoCompetitorsGiveTwoBids(bids, lotId, stage);
  }

  lemma {:induction false} TwoBidsGiveTwoCompetitors(bids: seq<Bid>, lotId: LotId, stage: Stage)
    ensures NumberOfBids(bids, lotId, stage) >= 2 ==>
            exists i, j :: 0 <= i < j < |bids| && Competes(bids[i], lotId, stage) && Competes(bids[j], lotId, stage)
  {
    if |bids| > 0 && NumberOfBids(bids, lotId, stage) >= 2 {
      var n := |bids| - 1;
      var pre := bids[..n];
      TwoBidsGiveTwoCompetitors(pre, lotId, stage);
      if NumberOfBids(pre, lotId, stage) >= 2 {
        var i, j :| 0 <= i < j < |pre| && Competes(pre[i], lotId, stage) && Competes(pre[j], lotId, stage);
        assert pre[i] == bids[i] && pre[j] == bids[j];
      } else {
        SomeBidIffPositive(pre, lotId, stage);
        var i :| 0 <= i < |pre| && Competes(pre[i], lotId, stage);
        assert pre[i] == bids[i];
        assert Competes(bids[i], lotId, stage) && Competes(bids[n], lotId, stage);
      }
    }
  }

  lemma {:induction false} TwoCompetitorsGiveTwoBids(bids: seq<Bid>, lotId: LotId, stage: Stage)
    ensures (exists i, j :: 0 <= i < j < |bids| && Competes(bids[i], lotId, stage) && Competes(bids[j], lotId, stage))
            ==> NumberOfBids(bids, lotId, stage) >= 2
  {
    if exists i, j :: 0 <= i < j < |bids| && Competes(bids[i], lotId, stage) && Competes(bids[j], lotId, stage) {
      var i, j :| 0 <= i < j < |bids| && Competes(bids[i], lotId, stage) && Competes(bids[j], lotId, stage);
      var n := |bids| - 1;
      var pre := bids[..n];
      assert pre[i] == bids[i];
      if j < n {
        assert pre[j] == bids[j];
        assert 0 <= i < j < |pre| && Competes(pre[i], lotId, stage) && Competes(pre[j], lotId, stage);
        TwoCompetitorsGiveTwoBids(pre, lotId, stage);
      } else {
        assert 0 <= i < |pre| && Competes(pre[i], lotId, stage);
        SomeBidIffPositive(pre, lotId, stage);
      }
    }
  }

  /** Whether one bid competes for a lot, found by scanning its offers. */
  method FindCompetingOffer(b: Bid, lotId: LotId, stage: Stage) returns (found: bool)
    ensures found == Competes(b, lotId, stage)
  {
    if b.status == BidDeleted {
      return false;
    }
    found := false;
    var k := 0;
    while k < |b.lotValues| && !found
      invariant 0 <= k <= |b.lotValues|
      invariant found <==> exists j :: 0 <= j < k && b.lotValues[j].relatedLot == lotId && OfferCounts(b.lotValues[j], stage)
    {
      if b.lotValues[k].relatedLot == lotId && OfferCounts(b.lotValues[k], stage) {
        found := true;
      }
      k := k + 1;
    }
  }

  /** The number of bids competing for a lot, counted bid by bid. */
  method CountBids(bids: seq<Bid>, lotId: LotId, stage: Stage) returns (n: nat)
    ensures n == NumberOfBids(bids, lotId, stage)
  {
    n := 0;
    var i := 0;
    while i < |bids|
      invariant 0 <= i <= |bids|
      invariant n == NumberOfBids(bids[..i], lotId, stage)
    {
      var competes := FindCompetingOffer(bids[i], lotId, stage);
      assert bids[..i + 1][..i] == bids[..i];
      if competes {
        n := n + 1;
      }
      i := i + 1;
    }
    assert bids[..|bids|] == bids;
  }

  /** A lot closes for want of competition when it is still active and fewer than two bids compete for it. */
  predicate Undersubscribed(lot: Lot, bids: seq<Bid>, stage: Stage) {
    lot.status == LotActive && NumberOfBids(bids, lot.id, stage) < 2
  }

  /** A lot after the closing pass: unsuccessful, dated `now`, if it was undersubscribed, as it was otherwise. */
  function ClosedLot(lot: Lot, bids: seq<Bid>, stage: Stage, now: nat): Lot {
    if Undersubscribed(lot, bids, stage) then lot.(status := LotUnsuccessful, date := Some(now)) else lot
  }

  /** The ids of the lots the closing pass closes. */
  function ClosedIds(lots: seq<Lot>, bids: seq<Bid>, stage: Stage): set<LotId> {
    set i | 0 <= i < |lots| && Undersubscribed(lots[i], bids, stage) :: lots[i].id
  }

  /** An offer after its lot has been closed or not. */
  function RejectedIfClosed(lv: LotValue, closed: set<LotId>): LotValue {
    if lv.relatedLot in closed then lv.(status := LotValueUnsuccessful) else lv
  }

  /** A bid whose offers for closed lots have been turned down. */
  function WithoutClosedOffers(b: Bid, closed: set<LotId>): (r: Bid)
    ensures r.id == b.id && r.status == b.status && r.parameters == b.parameters
    ensures |r.lotValues| == |b.lotValues|
    ensures forall k :: 0 <= k < |b.lotValues| ==> r.lotValues[k] == RejectedIfClosed(b.lotValues[k], closed)
  {
    b.(lotValues := seq(|b.lotValues|, k requires 0 <= k < |b.lotValues| => RejectedIfClosed(b.lotValues[k], closed)))
  }

  /** Every bid with its offers for closed lots turned down. */
  function RejectClosedOffers(bids: seq<Bid>, closed: set<LotId>): (r: seq<Bid>)
    ensures |r| == |bids|
    ensures forall i :: 0 <= i < |bids| ==> r[i] == WithoutClosedOffers(bids[i], closed)
  {
    seq(|bids|, i requires 0 <= i < |bids| => WithoutClosedOffers(bids[i], closed))
  }

  /** Turning down the offers for closed lots does not change the competition on any other lot. */
  lemma {:induction false} RejectingClosedOffersKeepsOtherCounts(bids: seq<Bid>, closed: set<LotId>, lotId: LotId, stage: Stage)
    requires lotId !in closed
    ensures NumberOfBids(RejectClosedOffers(bids, closed), lotId, stage) == NumberOfBids(bids, lotId, stage)
  {
    if |bids| > 0 {
      var n := |bids| - 1;
      var r := RejectClosedOffers(bids, closed);
      assert r[..n] == RejectClosedOffers(bids[..n], closed);
      RejectingClosedOffersKeepsOtherCounts(bids[..n], closed, lotId, stage);
      var b, rb := bids[n], r[n];
      if Competes(b, lotId, stage) {
        var k :| 0 <= k < |b.lotValues| && b.lotValues[k].relatedLot == lotId && OfferCounts(b.lotValues[k], stage);
        assert rb.lotValues[k] == b.lotValues[k];
      }
      if Competes(rb, lotId, stage) {
        var k :| 0 <= k < |rb.lotValues| && rb.lotValues[k].relatedLot == lotId && OfferCounts(rb.lotValues[k], stage);
        assert rb.lotValues[k] == b.lotValues[k];
      }
    }
  }

  /** The lots after the closing pass. */
  function CloseLots(lots: seq<Lot>, bids: seq<Bid>, stage: Stage, now: nat): (r: seq<Lot>)
    ensures |r| == |lots|
    ensures forall i :: 0 <= i < |lots| ==> r[i] == ClosedLot(lots[i], bids, stage, now)
  {
    seq(|lots|, i requires 0 <= i < |lots| => ClosedLot(lots[i], bids, stage, now))
  }

  /**
   * What the closing pass achieves: every lot still active afterwards has at least two competing bids,
   * also counted after the offers for the closed lots were turned down; every lot that closed was
   * active and undersubscribed and is now unsuccessful with a date; no other lot changed.
   */
  lemma ClosingLeavesCompetedLots(lots: seq<Lot>, bids: seq<Bid>, stage: Stage, now: nat, i: nat)
    requires UniqueIds(lots)
    requires i < |lots|
    ensures var after := CloseLots(lots, bids, stage, now)[i];
            var bidsAfter := RejectClosedOffers(bids, ClosedIds(lots, bids, stage));
            && (after.status == LotActive ==> NumberOfBids(bidsAfter, after.id, stage) >= 2)
            && (after != lots[i] ==> lots[i].status == LotActive && after.status == LotUnsuccessful && after.date == Some(now))
            && after.id == lots[i].id && after.value == lots[i].value && after.minimalStep == lots[i].minimalStep
            && after.guarantee == lots[i].guarantee
  {
    var closed := ClosedIds(lots, bids, stage);
    if CloseLots(lots, bids, stage, now)[i].status == LotActive {
      RejectingClosedOffersKeepsOtherCounts(bids, closed, lots[i].id, stage);
    }
  }

  /** Whether an active lot of the tender has the id. */
  predicate LotIsActive(lots: seq<Lot>, id: LotId) {
    var k := IndexOf(lots, id);
    k.Some? && lots[k.value].status == LotActive
  }

  /** Whether an offer is put to qualification: it is still pending and its lot is active. */
  predicate ToBeQualified(lv: LotValue, lots: seq<Lot>) {
    lv.status == LotValuePending && LotIsActive(lots, lv.relatedLot)
  }

  /** The qualifications one bid's offers call for, in the order of the offers. */
  function OfferQualifications(bidId: string, lvs: seq<LotValue>, lots: seq<Lot>): seq<Qualification> {
    if |lvs| == 0 then []
    else
      var lv := lvs[|lvs| - 1];
      OfferQualifications(bidId, lvs[..|lvs| - 1], lots)
        + (if ToBeQualified(lv, lots) then [Qualification(bidId, lv.relatedLot, QualificationPending)] else [])
  }

  /** The qualifications generated at the end of tendering: one per offer to be qualified of every bid
      that was not withdrawn, bid by bid. */
  function QualificationsFor(bids: seq<Bid>, lots: seq<Lot>): seq<Qualification> {
    if |bids| == 0 then []
    else
      var b := bids[|bids| - 1];
      QualificationsFor(bids[..|bids| - 1], lots)
        + (if b.status != BidDeleted then OfferQualifications(b.id, b.lotValues, lots) else [])
  }

  /** Whether offer k of bid b calls for the qualification q. */
  predicate CallsFor(b: Bid, k: int, lots: seq<Lot>, q: Qualification) {
    && 0 <= k < |b.lotValues|
    && b.status != BidDeleted
    && ToBeQualified(b.lotValues[k], lots)
    && q == Qualification(b.id, b.lotValues[k].relatedLot, QualificationPending)
  }

  lemma {:induction false} OfferQualificationsMembers(b: Bid, n: nat, lots: seq<Lot>, q: Qualification)
    requires b.status != BidDeleted && n <= |b.lotValues|
    ensures q in OfferQualifications(b.id, b.lotValues[..n], lots) <==> exists k :: 0 <= k < n && CallsFor(b, k, lots, q)
  {
    if n > 0 {
      assert b.lotValues[..n][..n - 1] == b.lotValues[..n - 1];
      assert b.lotValues[..n][n - 1] == b.lotValues[n - 1];
      OfferQualificationsMembers(b, n - 1, lots, q);
      var lv := b.lotValues[n - 1];
      if ToBeQualified(lv, lots) && q == Qualification(b.id, lv.relatedLot, QualificationPending) {
        assert CallsFor(b, n - 1, lots, q);
      }
      if exists k :: 0 <= k < n && CallsFor(b, k, lots, q) {
        var k :| 0 <= k < n && CallsFor(b, k, lots, q);
        if k < n - 1 {
          assert exists k' :: 0 <= k' < n - 1 && CallsFor(b, k', lots, q);
        }
      }
    }
  }

  /**
   * The qualifications generated are exactly the pending reviews of the offers to be qualified: a
   * qualification appears if and only if some bid that was not withdrawn has a pending offer, for an
   * active lot, that it reviews.
   */
  lemma {:induction false} QualificationsForMembers(bids: seq<Bid>, lots: seq<Lot>, q: Qualification)
    ensures q in QualificationsFor(bids, lots) <==>
            exists i, k :: 0 <= i < |bids| && CallsFor(bids[i], k, lots, q)
  {
    if |bids| > 0 {
      var n := |bids| - 1;
      var b := bids[n];
      QualificationsForMembers(bids[..n], lots, q);
      assert forall i :: 0 <= i < n ==> bids[..n][i] == bids[i];
      if b.status != BidDeleted {
        assert b.lotValues[..|b.lotValues|] == b.lotValues;
        OfferQualificationsMembers(b, |b.lotValues|, lots, q);
      }
      if exists i, k :: 0 <= i < |bids| && CallsFor(bids[i], k, lots, q) {
        var i, k :| 0 <= i < |bids| && CallsFor(bids[i], k, lots, q);
        if i < n {
          assert CallsFor(bids[..n][i], k, lots, q);
        } else {
          assert exists k' :: 0 <= k' < |b.lotValues| && CallsFor(b, k', lots, q);
        }
      }
    }
  }

  /** No two bids share an id. */
  predicate DistinctBidIds(bids: seq<Bid>) {
    forall i, j :: 0 <= i < j < |bids| ==> bids[i].id != bids[j].id
  }

  /** No two qualifications review the offer of the same bid for the same lot. */
  predicate OnePerOffer(qs: seq<Qualification>) {
    forall i, j :: 0 <= i < j < |qs| ==> qs[i].bidId != qs[j].bidId || qs[i].lotId != qs[j].lotId
  }

  /** A bid whose offers name distinct lots calls for at most one qualification per lot. */
  lemma {:induction false} OfferQualificationsOnePerLot(b: Bid, n: nat, lots: seq<Lot>)
    requires b.status != BidDeleted && n <= |b.lotValues| && OffersNameDistinctLots(b.lotValues)
    ensures OnePerOffer(OfferQualifications(b.id, b.lotValues[..n], lots))
  {
    if n > 0 {
      var lvs := b.lotValues[..n];
      assert lvs[..n - 1] == b.lotValues[..n - 1];
      var prev := OfferQualifications(b.id, b.lotValues[..n - 1], lots);
      OfferQualificationsOnePerLot(b, n - 1, lots);
      var qs := OfferQualifications(b.id, lvs, lots);
      forall i | 0 <= i < |prev|
        ensures prev[i].lotId != b.lotValues[n - 1].relatedLot
      {
        OfferQualificationsMembers(b, n - 1, lots, prev[i]);
        var k :| 0 <= k < n - 1 && CallsFor(b, k, lots, prev[i]);
      }
      forall i, j | 0 <= i < j < |qs|
        ensures qs[i].bidId != qs[j].bidId || qs[i].lotId != qs[j].lotId
      {
        if j >= |prev| {
          assert qs[i] == prev[i];
        } else {
          assert qs[i] == prev[i] && qs[j] == prev[j];
        }
      }
    }
  }

  /**
   * With bid ids that are distinct and bids whose offers name distinct lots, the qualifications
   * generated review each offer once: no two of them are for the same bid and the same lot.
   */
  lemma {:induction false} QualificationsOnePerOffer(bids: seq<Bid>, lots: seq<Lot>)
    requires DistinctBidIds(bids)
    requires forall i :: 0 <= i < |bids| ==> OffersNameDistinctLots(bids[i].lotValues)
    ensures OnePerOffer(QualificationsFor(bids, lots))
  {
    if |bids| > 0 {
      var n := |bids| - 1;
      var b := bids[n];
      var pre := bids[..n];
      assert forall i :: 0 <= i < n ==> pre[i] == bids[i];
      QualificationsOnePerOffer(pre, lots);
      var prev := QualificationsFor(pre, lots);
      var block := if b.status != BidDeleted then OfferQualifications(b.id, b.lotValues, lots) else [];
      var qs := QualificationsFor(bids, lots);
      assert qs == prev + block;
      if b.status != BidDeleted {
        assert b.lotValues[..|b.lotValues|] == b.lotValues;
        OfferQualificationsOnePerLot(b, |b.lotValues|, lots);
      }
      forall i | 0 <= i < |prev|
        ensures prev[i].bidId != b.id
      {
        QualificationsForMembers(pre, lots, prev[i]);
        var m, k :| 0 <= m < n && CallsFor(pre[m], k, lots, prev[i]);
      }
      forall i, j | 0 <= i < j < |qs|
        ensures qs[i].bidId != qs[j].bidId || qs[i].lotId != qs[j].lotId
      {
        if j < |prev| {
          assert qs[i] == prev[i] && qs[j] == prev[j];
        } else if i < |prev| {
          assert qs[i] == prev[i];
          assert qs[j] == block[j - |prev|];
          assert b.lotValues[..|b.lotValues|] == b.lotValues;
          OfferQualificationsMembers(b, |b.lotValues|, lots, qs[j]);
        } else {
          assert qs[i] == block[i - |prev|] && qs[j] == block[j - |prev|];
        }
      }
    }
  }

  /** The qualifications generated at the end of tendering, bid by bid and offer by offer. */
  method GenerateQualifications(bids: seq<Bid>, lots: seq<Lot>) returns (qs: seq<Qualification>)
    ensures qs == QualificationsFor(bids, lots)
  {
    qs := [];
    var i := 0;
    while i < |bids|
      invariant 0 <= i <= |bids|
      invariant qs == QualificationsFor(bids[..i], lots)
    {
      var b := bids[i];
      assert bids[..i + 1][..i] == bids[..i];
      if b.status != BidDeleted {
        var k := 0;
        while k < |b.lotValues|
          invariant 0 <= k <= |b.lotValues|
          invariant qs == QualificationsFor(bids[..i], lots) + OfferQualifications(b.id, b.lotValues[..k], lots)
        {
          assert b.lotValues[..k + 1][..k] == b.lotValues[..k];
          if ToBeQualified(b.lotValues[k], lots) {
            qs := qs + [Qualification(b.id, b.lotValues[k].relatedLot, QualificationPending)];
          }
          k := k + 1;
        }
        assert b.lotValues[..k] == b.lotValues;
      }
      i := i + 1;
    }
    assert bids[..i] == bids;
  }

  /** A bid whose offers for the lot are set to the status s. */
  function WithOfferStatus(b: Bid, lotId: LotId, s: LotValueStatus): (r: Bid)
    ensures r.id == b.id && r.status == b.status && r.parameters == b.parameters
    ensures |r.lotValues| == |b.lotValues|
    ensures forall k :: 0 <= k < |b.lotValues| ==>
      r.lotValues[k] == (if b.lotValues[k].relatedLot == lotId then b.lotValues[k].(status := s) else b.lotValues[k])
  {
    b.(lotValues := seq(|b.lotValues|, k requires 0 <= k < |b.lotValues| =>
      if b.lotValues[k].relatedLot == lotId then b.lotValues[k].(status := s) else b.lotValues[k]))
  }

  /** Whether every offer of a bid has been turned down. */
  predicate AllOffersRejected(b: Bid) {
    forall k :: 0 <= k < |b.lotValues| ==> b.lotValues[k].status == LotValueUnsuccessful
  }

  /** A bid after the qualification of its offer for a lot was approved: the offer and the bid are active. */
  function ApprovedBid(b: Bid, lotId: LotId): Bid {
    WithOfferStatus(b, lotId, LotValueActive).(status := BidActive)
  }

  /** A bid after the qualification of its offer for a lot was turned down: the offer is unsuccessful, and
      the bid with it once none of its offers is left. */
  function RejectedBid(b: Bid, lotId: LotId): Bid {
    var r := WithOfferStatus(b, lotId, LotValueUnsuccessful);
    if AllOffersRejected(r) then r.(status := BidUnsuccessful) else r
  }

  /**
   * A decision on a qualification touches only the reviewed offer: an approval makes the offers of the
   * bid for that lot active (and so counted at the end of the stand-still) and the bid active; a
   * rejection turns them down, so they stop counting; no offer for another lot changes either way.
   */
  lemma QualificationDecisionEffects(b: Bid, lotId: LotId, otherLot: LotId)
    requires otherLot != lotId
    requires exists k :: 0 <= k < |b.lotValues| && b.lotValues[k].relatedLot == lotId
    requires b.status != BidDeleted
    ensures Competes(ApprovedBid(b, lotId), lotId, EndOfStandStill)
    ensures ApprovedBid(b, lotId).status == BidActive
    ensures !Competes(RejectedBid(b, lotId), lotId, EndOfStandStill)
    ensures !Competes(RejectedBid(b, lotId), lotId, EndOfTendering)
    ensures forall k :: 0 <= k < |b.lotValues| && b.lotValues[k].relatedLot == otherLot ==>
              ApprovedBid(b, lotId).lotValues[k] == b.lotValues[k] && RejectedBid(b, lotId).lotValues[k] == b.lotValues[k]
  {
    var k :| 0 <= k < |b.lotValues| && b.lotValues[k].relatedLot == lotId;
    assert ApprovedBid(b, lotId).lotValues[k].status == LotValueActive;
  }
}
