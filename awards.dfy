/** Awarding a lot to its best qualified offer once its auction is over, and the contracts that follow. */
module Awards {
  import opened Wrappers
  import opened Statuses
  import opened Lots
  import opened Bids

  datatype AwardStatus = AwardPending | AwardActive | AwardUnsuccessful

  /** The proposal to award a lot to one bid, at the amount that bid offered. */
  datatype Award = Award(bidId: string, lotId: LotId, amount: nat, status: AwardStatus)

  datatype ContractStatus = ContractPending | ContractActive

  /** The contract an active award calls for, referring to that award by its position. */
  datatype Contract = Contract(awardIndex: nat, lotId: LotId, status: ContractStatus)

  /** A qualified offer taking part in the awarding of a lot. */
  datatype Offer = Offer(bidId: string, amount: nat, date: nat)

  /** The offer a bid puts into the awarding of a lot: its first offer for the lot, when that offer
      qualified, the bid is active and the bid has not yet been turned down for the lot. */
  function AwardableOffer(b: Bid, lotId: LotId, excluded: set<string>): (r: Option<Offer>)
    ensures r.Some? ==> r.value.bidId == b.id && b.id !in excluded && b.status == BidActive
  {
    if b.status != BidActive || b.id in excluded then None
    else
      match OfferFor(b.lotValues, lotId)
      case Some(lv) => if lv.status == LotValueActive then Some(Offer(b.id, lv.amount, lv.date)) else None
      case None => None
  }

  /** The ranking of the awarding: the lower amount wins, and on equal amounts the earlier offer. */
  predicate Beats(a: Offer, b: Offer) {
    a.amount < b.amount || (a.amount == b.amount && a.date < b.date)
  }

  /**
   * The winning offer for a lot among the bids. A later offer replaces the one kept so far only when it
   * beats it, so on a tie the first one stays.
   */
  function BestOffer(bids: seq<Bid>, lotId: LotId, excluded: set<string>): Option<Offer> {
    if |bids| == 0 then None
    else
      var n := |bids| - 1;
      var prev := BestOffer(bids[..n], lotId, excluded);
      var cand := AwardableOffer(bids[n], lotId, excluded);
      if cand.Some? && (prev.None? || Beats(cand.value, prev.value)) then cand else prev
  }

  /** The winning offer is one of the awardable offers, and there is none exactly when no bid has an
      awardable offer. */
  lemma {:induction false} BestOfferIsAwardable(bids: seq<Bid>, lotId: LotId, excluded: set<string>)
    ensures var r := BestOffer(bids, lotId, excluded);
            && (r.None? <==> forall i :: 0 <= i < |bids| ==> AwardableOffer(bids[i], lotId, excluded).None?)
            && (r.Some? ==> exists i :: 0 <= i < |bids| && AwardableOffer(bids[i], lotId, excluded) == r)
  {
    if |bids| > 0 {
      var n := |bids| - 1;
      var pre := bids[..n];
      BestOfferIsAwardable(pre, lotId, excluded);
      assert forall i :: 0 <= i < n ==> pre[i] == bids[i];
      var r := BestOffer(bids, lotId, excluded);
      var prev := BestOffer(pre, lotId, excluded);
      if r.Some? {
        if r == AwardableOffer(bids[n], lotId, excluded) {
          assert AwardableOffer(bids[n], lotId, excluded) == r;
        } else {
          var i :| 0 <= i < n && AwardableOffer(pre[i], lotId, excluded) == prev;
          assert AwardableOffer(bids[i], lotId, excluded) == r;
        }
      }
    }
  }

  /** No awardable offer beats the winning offer. */
  lemma {:induction false} NothingBeatsBestOffer(bids: seq<Bid>, lotId: LotId, excluded: set<string>)
    ensures var r := BestOffer(bids, lotId, excluded);
            r.Some? ==> forall i :: 0 <= i < |bids| && AwardableOffer(bids[i], lotId, excluded).Some? ==>
                          !Beats(AwardableOffer(bids[i], lotId, excluded).value, r.value)
  {
    var r := BestOffer(bids, lotId, excluded);
    if |bids| > 0 && r.Some? {
      var n := |bids| - 1;
      var pre := bids[..n];
      var prev := BestOffer(pre, lotId, excluded);
      NothingBeatsBestOffer(pre, lotId, excluded);
      BestOfferIsAwardable(pre, lotId, excluded);
      forall i | 0 <= i < |bids| && AwardableOffer(bids[i], lotId, excluded).Some?
        ensures !Beats(AwardableOffer(bids[i], lotId, excluded).value, r.value)
      {
        if i < n {
          assert pre[i] == bids[i];
          assert prev.Some?;
        }
      }
    }
  }

  /** The winning offer for a lot, found in one scan over the bids. */
  method FindBestOffer(bids: seq<Bid>, lotId: LotId, excluded: set<string>) returns (best: Option<Offer>)
    ensures best == BestOffer(bids, lotId, excluded)
  {
    best := None;
    var i := 0;
    while i < |bids|
      invariant 0 <= i <= |bids|
      invariant best == BestOffer(bids[..i], lotId, excluded)
    {
      assert bids[..i + 1][..i] == bids[..i];
      var cand := AwardableOffer(bids[i], lotId, excluded);
      if cand.Some? && (best.None? || Beats(cand.value, best.value)) {
        best := cand;
      }
      i := i + 1;
    }
    assert bids[..i] == bids;
  }

  /** The award that follows the offer, pending the owner's decision. */
  function PendingAward(lotId: LotId, o: Offer): Award {
    Award(o.bidId, lotId, o.amount, AwardPending)
  }

  /** No lot has two awards at once that are not turned down: at most one pending or active award per lot. */
  predicate OneLiveAwardPerLot(awards: seq<Award>) {
    forall j, k :: 0 <= j < k < |awards| && awards[j].lotId == awards[k].lotId ==>
      awards[j].status == AwardUnsuccessful || awards[k].status == AwardUnsuccessful
  }

  /** Whether `a` is the award a lot gets once the auctions are over: the lot is active and `a` is the
      pending award for its winning offer. */
  predicate AwardsLot(a: Award, lot: Lot, bids: seq<Bid>) {
    && lot.status == LotActive
    && BestOffer(bids, lot.id, {}).Some?
    && a == PendingAward(lot.id, BestOffer(bids, lot.id, {}).value)
  }

  /** The awards made when every active lot's auction is over, lot by lot. */
  function FirstAwards(lots: seq<Lot>, bids: seq<Bid>): (r: seq<Award>)
    ensures |r| <= |lots|
  {
    if |lots| == 0 then []
    else
      var n := |lots| - 1;
      var best := BestOffer(bids, lots[n].id, {});
      FirstAwards(lots[..n], bids)
        + (if lots[n].status == LotActive && best.Some? then [PendingAward(lots[n].id, best.value)] else [])
  }

  /** Every active lot that has a winning offer gets a pending award for that offer. */
  lemma {:induction false} FirstAwardsCoverActiveLots(lots: seq<Lot>, bids: seq<Bid>, i: nat)
    requires i < |lots| && lots[i].status == LotActive && BestOffer(bids, lots[i].id, {}).Some?
    ensures PendingAward(lots[i].id, BestOffer(bids, lots[i].id, {}).value) in FirstAwards(lots, bids)
  {
    var n := |lots| - 1;
    var pre := lots[..n];
    var rest := FirstAwards(pre, bids);
    var best := BestOffer(bids, lots[n].id, {});
    var last := if lots[n].status == LotActive && best.Some? then [PendingAward(lots[n].id, best.value)] else [];
    assert FirstAwards(lots, bids) == rest + last;
    if i < n {
      assert pre[i] == lots[i];
      FirstAwardsCoverActiveLots(pre, bids, i);
    } else {
      assert last == [PendingAward(lots[i].id, BestOffer(bids, lots[i].id, {}).value)];
    }
  }

  /** Every first award is the award of an active lot for its winning offer. */
  lemma {:induction false} FirstAwardsComeFromLots(lots: seq<Lot>, bids: seq<Bid>, j: nat)
    requires j < |FirstAwards(lots, bids)|
    ensures exists i :: 0 <= i < |lots| && AwardsLot(FirstAwards(lots, bids)[j], lots[i], bids)
  {
    var n := |lots| - 1;
    var pre := lots[..n];
    var rest := FirstAwards(pre, bids);
    var r := FirstAwards(lots, bids);
    if j < |rest| {
      assert r[j] == rest[j];
      FirstAwardsComeFromLots(pre, bids, j);
      var i :| 0 <= i < n && AwardsLot(rest[j], pre[i], bids);
      assert lots[i] == pre[i];
    } else {
      assert AwardsLot(r[j], lots[n], bids);
    }
  }

  /** With unique lot ids, no lot gets two of the first awards. */
  lemma {:induction false} FirstAwardsOnePerLot(lots: seq<Lot>, bids: seq<Bid>)
    requires UniqueIds(lots)
    ensures forall j, k :: 0 <= j < k < |FirstAwards(lots, bids)| ==>
              FirstAwards(lots, bids)[j].lotId != FirstAwards(lots, bids)[k].lotId
  {
    if |lots| > 0 {
      var n := |lots| - 1;
      var pre := lots[..n];
      var rest := FirstAwards(pre, bids);
      var best := BestOffer(bids, lots[n].id, {});
      var last := if lots[n].status == LotActive && best.Some? then [PendingAward(lots[n].id, best.value)] else [];
      var r := FirstAwards(lots, bids);
      assert r == rest + last;
      assert UniqueIds(pre);
      FirstAwardsOnePerLot(pre, bids);
      forall j, k | 0 <= j < k < |r|
        ensures r[j].lotId != r[k].lotId
      {
        if k >= |rest| {
          assert r[j] == rest[j];
          FirstAwardsComeFromLots(pre, bids, j);
          var i :| 0 <= i < n && AwardsLot(rest[j], pre[i], bids);
          assert lots[i] == pre[i] && rest[j].lotId == lots[i].id;
          assert r[k] == last[0] && last[0].lotId == lots[n].id;
          assert lots[i].id != lots[n].id;
        } else {
          assert r[j] == rest[j] && r[k] == rest[k];
          assert rest[j].lotId != rest[k].lotId;
        }
      }
    }
  }

  /** The first awards leave no lot with two live awards. */
  lemma FirstAwardsOneLivePerLot(lots: seq<Lot>, bids: seq<Bid>)
    requires UniqueIds(lots)
    ensures OneLiveAwardPerLot(FirstAwards(lots, bids))
  {
    FirstAwardsOnePerLot(lots, bids);
  }

  /** The bids already turned down for a lot by an unsuccessful award. */
  function TurnedDown(awards: seq<Award>, lotId: LotId): set<string> {
    set i | 0 <= i < |awards| && awards[i].lotId == lotId && awards[i].status == AwardUnsuccessful :: awards[i].bidId
  }

  /** Whether an award for the lot is still waiting for the owner's decision. */
  predicate AwaitsDecision(awards: seq<Award>, lotId: LotId) {
    exists i :: 0 <= i < |awards| && awards[i].lotId == lotId && awards[i].status == AwardPending
  }

  /** Whether some active lot still has a pending award. */
  predicate AnyPendingAward(awards: seq<Award>, lots: seq<Lot>) {
    exists i :: 0 <= i < |lots| && lots[i].status == LotActive && AwaitsDecision(awards, lots[i].id)
  }

  /**
   * After an award is turned down, the next award goes to the best offer among the bids not yet turned
   * down for the lot, so it never goes back to a bid that was turned down.
   */
  lemma NextAwardSkipsTurnedDown(awards: seq<Award>, bids: seq<Bid>, lotId: LotId)
    requires BestOffer(bids, lotId, TurnedDown(awards, lotId)).Some?
    ensures var o := BestOffer(bids, lotId, TurnedDown(awards, lotId)).value;
            forall i :: 0 <= i < |awards| && awards[i].lotId == lotId && awards[i].status == AwardUnsuccessful ==>
              awards[i].bidId != o.bidId
  {
    var excluded := TurnedDown(awards, lotId);
    var o := BestOffer(bids, lotId, excluded).value;
    BestOfferIsAwardable(bids, lotId, excluded);
    var j :| 0 <= j < |bids| && AwardableOffer(bids[j], lotId, excluded) == Some(o);
    assert o.bidId !in excluded;
  }
}
