/**
 * The tender object of an open (EU) procedure split into lots. It holds the lots, items, features,
 * bids, lot cancellations, qualifications, awards and contracts, and keeps its own value, minimal
 * step and guarantee reconciled with its lots. Every request of the owner, of a bidder, of the clock or
 * of the auction is one method that updates the object in place; a refused request returns its error
 * and changes nothing. Each method is proved to do exactly what the matching step of module
 * TenderModel describes, so the properties proved there hold of the object.
 */
module Tenders {
  import opened Wrappers
  import opened Money
  import opened Statuses
  import opened Errors
  import opened Lots
  import opened Aggregation
  import opened Features
  import opened Bids
  import opened Qualifications
  import opened Awards
  import opened TenderModel

  /** The lots with the tender's currencies and VAT flags pushed down, one lot at a time. */
  method CascadeLots(lots: seq<Lot>, v: Value, st: Value, g: Option<Guarantee>) returns (r: seq<Lot>)
    ensures r == Cascaded(lots, v, st, g)
  {
    r := [];
    var i := 0;
    while i < |lots|
      invariant 0 <= i <= |lots|
      invariant |r| == i
      invariant forall k :: 0 <= k < i ==> r[k] == FollowingTender(lots[k], v, st, g)
    {
      r := r + [FollowingTender(lots[i], v, st, g)];
      i := i + 1;
    }
  }

  /** The lots after the closing pass, lot by lot: the bids competing for each active lot are counted,
      and the lot closes when fewer than two do. */
  method CloseLotsOneByOne(lots: seq<Lot>, bids: seq<Bid>, stage: Stage, now: nat) returns (r: seq<Lot>)
    ensures r == CloseLots(lots, bids, stage, now)
  {
    r := [];
    var i := 0;
    while i < |lots|
      invariant 0 <= i <= |lots|
      invariant |r| == i
      invariant forall k :: 0 <= k < i ==> r[k] == ClosedLot(lots[k], bids, stage, now)
    {
      var lot := lots[i];
      if lot.status == LotActive {
        var n := CountBids(bids, lot.id, stage);
        if n < 2 {
          lot := lot.(status := LotUnsuccessful, date := Some(now));
        }
      }
      r := r + [lot];
      i := i + 1;
    }
  }

  class Tender {
    var status: TenderStatus
    /** The clock reading of the tender's last terminal status change. */
    var date: Option<nat>
    var value: Value
    var minimalStep: Value
    var guarantee: Option<Guarantee>
    var lots: seq<Lot>
    var items: seq<Item>
    var features: seq<Feature>
    var bids: seq<Bid>
    var cancellations: seq<Cancellation>
    var qualifications: seq<Qualification>
    var awards: seq<Award>
    var contracts: seq<Contract>

    /** The tender as a value. */
    ghost function State(): TenderState
      reads this
    {
      TenderState(status, date, value, minimalStep, guarantee, lots, items, features, bids,
                  cancellations, qualifications, awards, contracts)
    }

    /** What holds between requests. */
    ghost predicate Valid()
      reads this
    {
      Coherent(State())
    }

    /** A tender that has just opened for bids, with its own value, minimal step and guarantee. */
    constructor (value: Value, minimalStep: Value, guarantee: Option<Guarantee>)
      ensures Valid()
      ensures State() == TenderState(ActiveTendering, None, value, minimalStep, guarantee, [], [], [], [], [], [], [], [])
    {
      this.status := ActiveTendering;
      this.date := None;
      this.value := value;
      this.minimalStep := minimalStep;
      this.guarantee := guarantee;
      this.lots := [];
      this.items := [];
      this.features := [];
      this.bids := [];
      this.cancellations := [];
      this.qualifications := [];
      this.awards := [];
      this.contracts := [];
    }

    // ---- Derived fields

    /** Recomputes the tender's value, minimal step and guarantee from its lots. */
    method Reconcile()
      modifies this
      ensures State() == Rolled(old(State()), old(lots))
    {
      if |lots| > 0 {
        var total := ComputeValueTotal(lots);
        var least := ComputeMinStep(lots);
        MinStepUnique(lots, least);
        value := value.(amount := total);
        minimalStep := minimalStep.(amount := least);
      }
      if AnyGuarantee(lots) {
        var sum := ComputeGuaranteeTotal(lots);
        var currency := if guarantee.Some? then guarantee.value.currency else FirstGuaranteeCurrency(lots);
        guarantee := Some(Guarantee(sum, currency));
      }
    }

    // ---- Lots

    /** Adds a lot; `freshId` is the id the service generates when the request names none. */
    method AddLot(input: LotInput, freshId: LotId) returns (r: Outcome<Error>)
      requires Valid()
      modifies this
      ensures Valid()
      ensures r == OutcomeOf(AddLotStep(old(State()), input, freshId))
      ensures State() == NextState(old(State()), AddLotStep(old(State()), input, freshId))
    {
      AddLotKeepsCoherent(State(), input, freshId);
      r := WhileTendering(status, "add lot");
      if r.Fail? {
        return;
      }
      var lot := CheckNewLot(lots, input, freshId, value, minimalStep, guarantee);
      if lot.Err? {
        return Fail(lot.error);
      }
      lots := lots + [lot.value];
      Reconcile();
    }

    /** Changes the active lot `id`. */
    method PatchLot(id: LotId, patch: LotPatch) returns (r: Outcome<Error>)
      requires Valid()
      modifies this
      ensures Valid()
      ensures r == OutcomeOf(PatchLotStep(old(State()), id, patch))
      ensures State() == NextState(old(State()), PatchLotStep(old(State()), id, patch))
    {
      ghost var before := State();
      PatchLotKeepsCoherent(before, id, patch);
      r := WhileTendering(status, "update lot");
      if r.Fail? {
        return;
      }
      var k := IndexOf(lots, id);
      if k.None? {
        return Fail(NotFound("lot_id"));
      }
      if lots[k.value].status != LotActive {
        return Fail(LotNotActive("update lot"));
      }
      var lot := PatchedLot(lots[k.value], patch, guarantee);
      if lot.Err? {
        return Fail(lot.error);
      }
      lots := lots[k.value := lot.value];
      assert PatchLotStep(before, id, patch) == Ok(Rolled(before, lots));
      assert State() == before.(lots := lots);
      Reconcile();
    }

    /** Deletes the active lot `id`; a lot that an item is bound to stays. */
    method DeleteLot(id: LotId) returns (r: Outcome<Error>)
      requires Valid()
      modifies this
      ensures Valid()
      ensures r == OutcomeOf(DeleteLotStep(old(State()), id))
      ensures State() == NextState(old(State()), DeleteLotStep(old(State()), id))
    {
      ghost var before := State();
      DeleteLotKeepsCoherent(before, id);
      r := WhileTendering(status, "delete lot");
      if r.Fail? {
        return;
      }
      var k := IndexOf(lots, id);
      if k.None? {
        return Fail(NotFound("lot_id"));
      }
      if lots[k.value].status != LotActive {
        return Fail(LotNotActive("delete lot"));
      }
      if ReferencedByItem(items, id) {
        return Fail(RelatedLotNotFound);
      }
      lots := lots[..k.value] + lots[k.value + 1..];
      assert DeleteLotStep(before, id) == Ok(Rolled(before, lots));
      assert State() == before.(lots := lots);
      Reconcile();
    }

    // ---- The tender's own terms

    /** Replaces the items. */
    method SetItems(newItems: seq<Item>) returns (r: Outcome<Error>)
      requires Valid()
      modifies this
      ensures Valid()
      ensures r == OutcomeOf(SetItemsStep(old(State()), newItems))
      ensures State() == NextState(old(State()), SetItemsStep(old(State()), newItems))
    {
      SetItemsKeepsCoherent(State(), newItems);
      r := WhileTendering(status, "update tender");
      if r.Fail? {
        return;
      }
      if !ItemsReferToLots(newItems, lots) {
        return Fail(RelatedLotNotFound);
      }
      items := newItems;
    }

    /** Replaces the features. */
    method SetFeatures(newFeatures: seq<Feature>) returns (r: Outcome<Error>)
      requires Valid()
      modifies this
      ensures Valid()
      ensures r == OutcomeOf(SetFeaturesStep(old(State()), newFeatures))
      ensures State() == NextState(old(State()), SetFeaturesStep(old(State()), newFeatures))
    {
      SetFeaturesKeepsCoherent(State(), newFeatures);
      r := WhileTendering(status, "update tender");
      if r.Fail? {
        return;
      }
      r := CheckFeatures(newFeatures, items, lots);
      if r.Fail? {
        return;
      }
      features := newFeatures;
    }

    /** Takes new terms, pushes their currencies and VAT flags down to every lot, and recomputes the
        derived amounts. */
    method TakeTerms(v: Value, st: Value, g: Option<Guarantee>)
      modifies this
      ensures State() == Rolled(old(State()).(value := v, minimalStep := st, guarantee := g), Cascaded(old(lots), v, st, g))
    {
      var cascaded := CascadeLots(lots, v, st, g);
      value, minimalStep, guarantee, lots := v, st, g, cascaded;
      assert State() == old(State()).(value := v, minimalStep := st, guarantee := g, lots := cascaded);
      Reconcile();
    }

    /** Changes the tender's value, minimal step and guarantee, and cascades them to the lots. */
    method PatchTender(p: TenderPatch) returns (r: Outcome<Error>)
      requires Valid()
      modifies this
      ensures Valid()
      ensures r == OutcomeOf(PatchTenderStep(old(State()), p))
      ensures State() == NextState(old(State()), PatchTenderStep(old(State()), p))
    {
      PatchTenderKeepsCoherent(State(), p);
      r := WhileTendering(status, "update tender");
      if r.Fail? {
        return;
      }
      var v := PatchedValue(value, p.valueCurrency, p.valueVatIncluded);
      var st := PatchedValue(minimalStep, p.stepCurrency, p.stepVatIncluded);
      if st.currency != v.currency {
        return Fail(TenderCurrencyMismatch);
      }
      if st.vatIncluded != v.vatIncluded {
        return Fail(TenderVatMismatch);
      }
      TakeTerms(v, st, PatchedGuarantee(guarantee, p.guaranteeAmount, p.guaranteeCurrency));
    }

    // ---- Bids

    /** Places a bid; `bidId` is the id the service generates and `now` the clock reading. */
    method AddBid(bidId: string, input: BidInput, now: nat) returns (r: Outcome<Error>)
      requires Valid()
      modifies this
      ensures Valid()
      ensures r == OutcomeOf(AddBidStep(old(State()), bidId, input, now))
      ensures State() == NextState(old(State()), AddBidStep(old(State()), bidId, input, now))
    {
      AddBidKeepsCoherent(State(), bidId, input, now);
      r := WhileTendering(status, "add bid");
      if r.Fail? {
        return;
      }
      r := CheckBid(lots, items, features, input);
      if r.Fail? {
        return;
      }
      bids := bids + [Bid(bidId, BidPending, NewLotValues(input.lotValues, now), input.parameters)];
    }

    /** Replaces the offers of the bid `bidId`; an offer whose amount is unchanged keeps its date. */
    method PatchBidOffers(bidId: string, offers: seq<LotValueInput>, now: nat) returns (r: Outcome<Error>)
      requires Valid()
      modifies this
      ensures Valid()
      ensures r == OutcomeOf(PatchBidStep(old(State()), bidId, offers, now))
      ensures State() == NextState(old(State()), PatchBidStep(old(State()), bidId, offers, now))
    {
      PatchBidKeepsCoherent(State(), bidId, offers, now);
      r := WhileTendering(status, "update bid");
      if r.Fail? {
        return;
      }
      var k := BidIndex(bids, bidId);
      if k.None? {
        return Fail(NotFound("bid_id"));
      }
      var b := bids[k.value];
      r := CheckBid(lots, items, features, BidInput(None, offers, b.parameters));
      if r.Fail? {
        return;
      }
      bids := bids[k.value := b.(lotValues := ReplacedLotValues(b.lotValues, offers, now))];
    }

    /** Withdraws the bid `bidId`: it stays on record as deleted. */
    method DeleteBid(bidId: string) returns (r: Outcome<Error>)
      requires Valid()
      modifies this
      ensures Valid()
      ensures r == OutcomeOf(DeleteBidStep(old(State()), bidId))
      ensures State() == NextState(old(State()), DeleteBidStep(old(State()), bidId))
    {
      DeleteBidKeepsCoherent(State(), bidId);
      r := WhileTendering(status, "delete bid");
      if r.Fail? {
        return;
      }
      var k := BidIndex(bids, bidId);
      if k.None? {
        return Fail(NotFound("bid_id"));
      }
      bids := bids[k.value := bids[k.value].(status := BidDeleted)];
    }

    // ---- The clock

    /** The closing pass: closes every undersubscribed lot, turns down the offers for the closed lots and
        rolls the status up. */
    method CloseUndersubscribedLots(stage: Stage, now: nat, base: TenderStatus)
      modifies this
      ensures State() == Closed(old(State()), stage, now, base)
    {
      var closed := ClosedIds(lots, bids, stage);
      lots := CloseLotsOneByOne(lots, bids, stage, now);
      bids := RejectClosedOffers(bids, closed);
      status := RollupStatus(LotStatuses(lots), base);
      date := StampedDate(status, date, now);
    }

    /** The clock at the end of tendering. */
    method EndTendering(now: nat)
      requires Valid()
      modifies this
      ensures Valid()
      ensures State() == EndTenderingStep(old(State()), now)
    {
      EndTenderingKeepsCoherent(State(), now);
      if status != ActiveTendering {
        return;
      }
      ghost var closed := Closed(State(), EndOfTendering, now, ActivePreQualification);
      CloseUndersubscribedLots(EndOfTendering, now, ActivePreQualification);
      assert State() == closed;
      if !IsTerminal(status) {
        qualifications := GenerateQualifications(bids, lots);
        assert State() == closed.(qualifications := QualificationsFor(closed.bids, closed.lots));
      }
    }

    /** The owner's decision on the qualification at position `index`. */
    method DecideQualification(index: nat, d: Decision) returns (r: Outcome<Error>)
      requires Valid()
      modifies this
      ensures Valid()
      ensures r == OutcomeOf(DecideQualificationStep(old(State()), index, d))
      ensures State() == NextState(old(State()), DecideQualificationStep(old(State()), index, d))
    {
      DecideQualificationKeepsCoherent(State(), index, d);
      if status != ActivePreQualification {
        return Fail(ForbiddenInTenderStatus("update qualification", TenderStatusName(status)));
      }
      if index >= |qualifications| {
        return Fail(NotFound("qualification_id"));
      }
      var q := qualifications[index];
      if q.status != QualificationPending {
        return Fail(AlreadyDecided);
      }
      if d.Approve? && !(d.qualified && d.eligible) {
        return Fail(QualifiedEligibleRequired);
      }
      qualifications := qualifications[index := q.(status := if d.Approve? then QualificationActive else QualificationUnsuccessful)];
      bids := WithDecision(bids, q.bidId, q.lotId, d.Approve?);
      r := Pass;
    }

    /** The owner's switch to the stand-still. */
    method StartStandStill() returns (r: Outcome<Error>)
      requires Valid()
      modifies this
      ensures Valid()
      ensures r == OutcomeOf(StartStandStillStep(old(State())))
      ensures State() == NextState(old(State()), StartStandStillStep(old(State())))
    {
      StartStandStillKeepsCoherent(State());
      if status != ActivePreQualification {
        return Fail(ForbiddenInTenderStatus("switch to active.pre-qualification.stand-still", TenderStatusName(status)));
      }
      if QualificationOutstanding(qualifications, lots) {
        return Fail(QualificationsPending);
      }
      status := ActivePreQualificationStandStill;
      r := Pass;
    }

    /** The clock at the end of the stand-still. */
    method EndStandStill(now: nat)
      requires Valid()
      modifies this
      ensures Valid()
      ensures State() == EndStandStillStep(old(State()), now)
    {
      EndStandStillKeepsCoherent(State(), now);
      if status != ActivePreQualificationStandStill {
        return;
      }
      CloseUndersubscribedLots(EndOfStandStill, now, ActiveAuction);
    }

    // ---- Auctions, awards and contracts

    /** The auction of the lot `lotId` reports its results. */
    method RecordAuction(lotId: LotId) returns (r: Outcome<Error>)
      requires Valid()
      modifies this
      ensures Valid()
      ensures r == OutcomeOf(RecordAuctionStep(old(State()), lotId))
      ensures State() == NextState(old(State()), RecordAuctionStep(old(State()), lotId))
    {
      RecordAuctionKeepsCoherent(State(), lotId);
      if status != ActiveAuction {
        return Fail(ForbiddenInTenderStatus("report auction results", TenderStatusName(status)));
      }
      var k := IndexOf(lots, lotId);
      if k.None? {
        return Fail(NotFound("lot_id"));
      }
      var i := k.value;
      if lots[i].status != LotActive {
        return Fail(LotNotActive("report auction results"));
      }
      if lots[i].auctionEnded {
        return Fail(AlreadyDecided);
      }
      MarkAuctionEnded(i);
      r := Pass;
    }

    /** Records that the auction of the lot at position `i` is over; after the last one, every active
        lot gets a pending award for its winning offer and the awarding begins. */
    method MarkAuctionEnded(i: nat)
      requires i < |lots|
      modifies this
      ensures var ended := old(lots)[i := old(lots)[i].(auctionEnded := true)];
              State() == if AllAuctionsEnded(ended)
                         then old(State()).(lots := ended, status := ActiveQualification, awards := FirstAwards(ended, old(bids)))
                         else old(State()).(lots := ended)
    {
      lots := lots[i := lots[i].(auctionEnded := true)];
      if AllAuctionsEnded(lots) {
        awards := FirstAwards(lots, bids);
        status := ActiveQualification;
      }
    }

    /** Rolls the status up after an awarding step and stamps the date. */
    method RollUpAwarding(now: nat)
      modifies this
      ensures State() == Awarded(old(State()), old(lots), old(awards), old(contracts), now)
    {
      status := AwardingStatus(lots, awards);
      date := StampedDate(status, date, now);
    }

    /** The owner's decision on the award at position `index`. */
    method DecideAward(index: nat, d: Decision, now: nat) returns (r: Outcome<Error>)
      requires Valid()
      modifies this
      ensures Valid()
      ensures r == OutcomeOf(DecideAwardStep(old(State()), index, d, now))
      ensures State() == NextState(old(State()), DecideAwardStep(old(State()), index, d, now))
    {
      DecideAwardKeepsCoherent(State(), index, d, now);
      if status != ActiveQualification && status != ActiveAwarded {
        return Fail(ForbiddenInTenderStatus("update award", TenderStatusName(status)));
      }
      if index >= |awards| {
        return Fail(NotFound("award_id"));
      }
      var a := awards[index];
      if a.status != AwardPending {
        return Fail(AlreadyDecided);
      }
      var k := IndexOf(lots, a.lotId);
      if k.None? || lots[k.value].status != LotActive {
        return Fail(LotNotActive("update award"));
      }
      if d.Approve? {
        if !(d.qualified && d.eligible) {
          return Fail(QualifiedEligibleRequired);
        }
        ApproveAward(index, now);
      } else {
        RejectAward(index, k.value, now);
      }
      r := Pass;
    }

    /** Approves the award at position `index`: it becomes active and calls for a pending contract. */
    method ApproveAward(index: nat, now: nat)
      requires index < |awards|
      modifies this
      ensures var a := old(awards)[index];
              State() == Awarded(old(State()), old(lots), old(awards)[index := a.(status := AwardActive)],
                                 old(contracts) + [Contract(index, a.lotId, ContractPending)], now)
    {
      var a := awards[index];
      awards := awards[index := a.(status := AwardActive)];
      contracts := contracts + [Contract(index, a.lotId, ContractPending)];
      RollUpAwarding(now);
    }

    /** Turns down the award at position `index` for the lot at position `i`: the best offer among the
        bids not yet turned down for the lot gets a pending award, or, when there is none, the lot fails. */
    method RejectAward(index: nat, i: nat, now: nat)
      requires index < |awards| && i < |lots|
      modifies this
      ensures var a := old(awards)[index];
              var rejected := old(awards)[index := a.(status := AwardUnsuccessful)];
              var next := BestOffer(old(bids), a.lotId, TurnedDown(rejected, a.lotId));
              State() == if next.Some? then Awarded(old(State()), old(lots), rejected + [PendingAward(a.lotId, next.value)], old(contracts), now)
                         else Awarded(old(State()), old(lots)[i := old(lots)[i].(status := LotUnsuccessful, date := Some(now))],
                                      rejected, old(contracts), now)
    {
      var a := awards[index];
      awards := awards[index := a.(status := AwardUnsuccessful)];
      var next := FindBestOffer(bids, a.lotId, TurnedDown(awards, a.lotId));
      if next.Some? {
        awards := awards + [PendingAward(a.lotId, next.value)];
      } else {
        lots := lots[i := lots[i].(status := LotUnsuccessful, date := Some(now))];
      }
      RollUpAwarding(now);
    }

    /** Settles the lot at position `i` with `lotStatus`, dated `now`, and rolls the tender up. */
    method Settle(i: nat, lotStatus: LotStatus, now: nat)
      requires i < |lots|
      modifies this
      ensures State() == SettleLot(old(State()), i, lotStatus, now)
    {
      lots := lots[i := lots[i].(status := lotStatus, date := Some(now))];
      status := RollupStatus(LotStatuses(lots), status);
      date := StampedDate(status, date, now);
    }

    /** Signs the contract at position `index`. */
    method SignContract(index: nat, now: nat) returns (r: Outcome<Error>)
      requires Valid()
      modifies this
      ensures Valid()
      ensures r == OutcomeOf(SignContractStep(old(State()), index, now))
      ensures State() == NextState(old(State()), SignContractStep(old(State()), index, now))
    {
      SignContractKeepsCoherent(State(), index, now);
      if status != ActiveQualification && status != ActiveAwarded {
        return Fail(ForbiddenInTenderStatus("update contract", TenderStatusName(status)));
      }
      if index >= |contracts| {
        return Fail(NotFound("contract_id"));
      }
      var c := contracts[index];
      if c.status != ContractPending {
        return Fail(AlreadyDecided);
      }
      var k := IndexOf(lots, c.lotId);
      if k.None? || lots[k.value].status != LotActive {
        return Fail(LotNotActive("update contract"));
      }
      contracts := contracts[index := c.(status := ContractActive)];
      ghost var signed := State();
      assert signed == old(State()).(contracts := contracts);
      Settle(k.value, LotComplete, now);
      r := Pass;
    }

    // ---- Lot cancellations

    /** Adds a cancellation of the lot `lotId`; an active one cancels the lot at once. */
    method AddCancellation(lotId: LotId, activate: bool, now: nat) returns (r: Outcome<Error>)
      requires Valid()
      modifies this
      ensures Valid()
      ensures r == OutcomeOf(AddCancellationStep(old(State()), lotId, activate, now))
      ensures State() == NextState(old(State()), AddCancellationStep(old(State()), lotId, activate, now))
    {
      AddCancellationKeepsCoherent(State(), lotId, activate, now);
      if IsTerminal(status) {
        return Fail(ForbiddenInTenderStatus("add cancellation", TenderStatusName(status)));
      }
      var k := IndexOf(lots, lotId);
      if k.None? {
        return Fail(RelatedLotNotFound);
      }
      if lots[k.value].status != LotActive {
        return Fail(LotNotActive("add cancellation"));
      }
      cancellations := cancellations + [Cancellation(lotId, if activate then CancellationActive else CancellationPending)];
      if activate {
        Settle(k.value, LotCancelled, now);
      }
      r := Pass;
    }

    /** Changes the status of the cancellation at position `index`. */
    method PatchCancellation(index: nat, activate: bool, now: nat) returns (r: Outcome<Error>)
      requires Valid()
      modifies this
      ensures Valid()
      ensures r == OutcomeOf(PatchCancellationStep(old(State()), index, activate, now))
      ensures State() == NextState(old(State()), PatchCancellationStep(old(State()), index, activate, now))
    {
      PatchCancellationKeepsCoherent(State(), index, activate, now);
      if IsTerminal(status) {
        return Fail(ForbiddenInTenderStatus("update cancellation", TenderStatusName(status)));
      }
      if index >= |cancellations| {
        return Fail(NotFound("cancellation_id"));
      }
      var c := cancellations[index];
      var k := IndexOf(lots, c.relatedLot);
      if k.None? || lots[k.value].status != LotActive {
        return Fail(LotNotActive("update cancellation"));
      }
      cancellations := cancellations[index := c.(status := if activate then CancellationActive else CancellationPending)];
      if activate {
        Settle(k.value, LotCancelled, now);
      }
      r := Pass;
    }
  }
}
