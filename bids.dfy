/**
 * Bids on a tender with lots: a bid names, lot by lot, what it offers ("lotValues"), and answers the
 * features that apply to the lots it bids on.
 */
module Bids {
  import opened Wrappers
  import opened Money
  import opened Errors
  import opened Lots
  import opened Features

  datatype LotValueStatus = LotValuePending | LotValueActive | LotValueUnsuccessful

  /** A bid's offer for one lot; `date` is the clock reading of the last change of its amount. */
  datatype LotValue = LotValue(relatedLot: LotId, amount: nat, date: nat, status: LotValueStatus)

  datatype BidStatus = BidPending | BidActive | BidUnsuccessful | BidDeleted

  datatype Bid = Bid(id: string, status: BidStatus, lotValues: seq<LotValue>, parameters: seq<Parameter>)

  /** A bid's offer for one lot as a request states it. */
  datatype LotValueInput = LotValueInput(relatedLot: Option<LotId>, value: ValueInput)

  /** The body of a request that places a bid. */
  datatype BidInput = BidInput(value: Option<ValueInput>, lotValues: seq<LotValueInput>, parameters: seq<Parameter>)

  /** What one offer must satisfy: it names a lot of the tender, does not exceed that lot's value, and
      agrees with it on currency and VAT flag where it states them. */
  predicate LotValueAcceptable(lots: seq<Lot>, e: LotValueInput) {
    && e.relatedLot.Some?
    && HasLot(lots, e.relatedLot.value)
    && forall i :: 0 <= i < |lots| && lots[i].id == e.relatedLot.value ==>
         && e.value.amount <= lots[i].value.amount
         && (e.value.currency.Some? ==> e.value.currency.value == lots[i].value.currency)
         && (e.value.vatIncluded.Some? ==> e.value.vatIncluded.value == lots[i].value.vatIncluded)
  }

  /** The error of one offer, checked in the order the service reports them. */
  function LotValueError(lots: seq<Lot>, e: LotValueInput): (r: Option<Error>)
    requires UniqueIds(lots)
    ensures r.None? <==> LotValueAcceptable(lots, e)
    ensures e.relatedLot.None? ==> r == Some(Required(["relatedLot"]))
    ensures e.relatedLot.Some? && !HasLot(lots, e.relatedLot.value) ==> r == Some(RelatedLotNotFound)
    ensures forall i :: 0 <= i < |lots| && Some(lots[i].id) == e.relatedLot ==>
              && (e.value.amount > lots[i].value.amount ==> r == Some(BidAboveLotValue))
              && (&& e.value.amount <= lots[i].value.amount
                  && e.value.currency.Some? && e.value.currency.value != lots[i].value.currency
                  ==> r == Some(BidCurrencyMismatch))
              && (&& e.value.amount <= lots[i].value.amount
                  && (e.value.currency.Some? ==> e.value.currency.value == lots[i].value.currency)
                  && e.value.vatIncluded.Some? && e.value.vatIncluded.value != lots[i].value.vatIncluded
                  ==> r == Some(BidVatMismatch))
  {
    if e.relatedLot.None? then Some(Required(["relatedLot"]))
    else
      match IndexOf(lots, e.relatedLot.value)
      case None => Some(RelatedLotNotFound)
      case Some(i) =>
        var lot := lots[i];
        if e.value.amount > lot.value.amount then Some(BidAboveLotValue)
        else if e.value.currency.Some? && e.value.currency.value != lot.value.currency then Some(BidCurrencyMismatch)
        else if e.value.vatIncluded.Some? && e.value.vatIncluded.value != lot.value.vatIncluded then Some(BidVatMismatch)
        else None
  }

  /** The error of the first offer that has one. */
  function FirstLotValueError(lots: seq<Lot>, es: seq<LotValueInput>): (r: Option<Error>)
    requires UniqueIds(lots)
    ensures r.None? <==> forall k :: 0 <= k < |es| ==> LotValueAcceptable(lots, es[k])
  {
    if |es| == 0 then None
    else
      var e := LotValueError(lots, es[0]);
      if e.Some? then e
      else
        var rest := FirstLotValueError(lots, es[1..]);
        assert forall k :: 1 <= k < |es| ==> es[k] == es[1..][k - 1];
        rest
  }

  /** The lots a bid request names. */
  function RequestedLots(es: seq<LotValueInput>): set<LotId> {
    set k | 0 <= k < |es| && es[k].relatedLot.Some? :: es[k].relatedLot.value
  }

  /** No two offers of a request name the same lot. */
  predicate DistinctRequestedLots(es: seq<LotValueInput>) {
    forall j, k :: 0 <= j < k < |es| ==> es[j].relatedLot != es[k].relatedLot
  }

  /**
   * What the service demands of a bid on a tender with lots, as a whole: at least one offer, every
   * offer acceptable, at most one offer per lot, no top-level value, and parameters answering exactly
   * the features that apply to the lots it bids on.
   */
  predicate BidAcceptable(lots: seq<Lot>, items: seq<Item>, features: seq<Feature>, input: BidInput) {
    && |input.lotValues| > 0
    && (forall k :: 0 <= k < |input.lotValues| ==> LotValueAcceptable(lots, input.lotValues[k]))
    && DistinctRequestedLots(input.lotValues)
    && input.value.None?
    && ParametersAcceptable(features, items, RequestedLots(input.lotValues), input.parameters)
  }

  /** Validates a bid request; the first failing check decides the error. */
  function CheckBid(lots: seq<Lot>, items: seq<Item>, features: seq<Feature>, input: BidInput): (r: Outcome<Error>)
    requires UniqueIds(lots)
    ensures r.Pass? <==> BidAcceptable(lots, items, features, input)
    ensures |input.lotValues| == 0 ==> r == Fail(Required(["lotValues"]))
    ensures |input.lotValues| > 0 && FirstLotValueError(lots, input.lotValues).None? && !DistinctRequestedLots(input.lotValues)
            ==> r == Fail(BidLotDuplicated)
    ensures (&& |input.lotValues| > 0 && FirstLotValueError(lots, input.lotValues).None?
             && DistinctRequestedLots(input.lotValues) && input.value.Some?)
            ==> r == Fail(BidValueNotPerLot)
    ensures |input.lotValues| > 0 && FirstLotValueError(lots, input.lotValues).Some?
            ==> r == Fail(FirstLotValueError(lots, input.lotValues).value)
    ensures (&& |input.lotValues| > 0 && FirstLotValueError(lots, input.lotValues).None?
             && DistinctRequestedLots(input.lotValues) && input.value.None?)
            ==> r == CheckParameters(features, items, RequestedLots(input.lotValues), input.parameters)
  {
    if |input.lotValues| == 0 then Fail(Required(["lotValues"]))
    else
      var e := FirstLotValueError(lots, input.lotValues);
      if e.Some? then Fail(e.value)
      else if !DistinctRequestedLots(input.lotValues) then Fail(BidLotDuplicated)
      else if input.value.Some? then Fail(BidValueNotPerLot)
      else CheckParameters(features, items, RequestedLots(input.lotValues), input.parameters)
  }

  /** The offers of an accepted request, as stored: each stamped with `now` and pending. */
  function NewLotValues(es: seq<LotValueInput>, now: nat): (r: seq<LotValue>)
    requires forall k :: 0 <= k < |es| ==> es[k].relatedLot.Some?
    ensures |r| == |es|
    ensures forall k :: 0 <= k < |es| ==>
      r[k] == LotValue(es[k].relatedLot.value, es[k].value.amount, now, LotValuePending)
  {
    seq(|es|, k requires 0 <= k < |es| => LotValue(es[k].relatedLot.value, es[k].value.amount, now, LotValuePending))
  }

  /** No two stored offers of a bid name the same lot. */
  predicate OffersNameDistinctLots(lvs: seq<LotValue>) {
    forall j, k :: 0 <= j < k < |lvs| ==> lvs[j].relatedLot != lvs[k].relatedLot
  }

  /** The first stored offer of a bid for the lot `lotId`. */
  function OfferFor(lvs: seq<LotValue>, lotId: LotId): (r: Option<LotValue>)
    ensures r.Some? ==> r.value in lvs && r.value.relatedLot == lotId
    ensures r.None? ==> forall k :: 0 <= k < |lvs| ==> lvs[k].relatedLot != lotId
  {
    if |lvs| == 0 then None
    else if lvs[0].relatedLot == lotId then Some(lvs[0])
    else
      var rest := OfferFor(lvs[1..], lotId);
      assert forall k :: 1 <= k < |lvs| ==> lvs[k] == lvs[1..][k - 1];
      rest
  }

  /** The date a replacing offer gets: the prior one's if the amount for that lot is unchanged, `now` otherwise. */
  function ReplacedDate(prior: seq<LotValue>, lotId: LotId, amount: nat, now: nat): nat {
    var prev := OfferFor(prior, lotId);
    if prev.Some? && prev.value.amount == amount then prev.value.date else now
  }

  /** The offers of a bid after a patch replaces them: only an offer whose amount changed is re-dated. */
  function ReplacedLotValues(prior: seq<LotValue>, es: seq<LotValueInput>, now: nat): (r: seq<LotValue>)
    requires forall k :: 0 <= k < |es| ==> es[k].relatedLot.Some?
    ensures |r| == |es|
    ensures forall k :: 0 <= k < |es| ==>
      && r[k].relatedLot == es[k].relatedLot.value && r[k].amount == es[k].value.amount
      && r[k].status == LotValuePending
  {
    seq(|es|, k requires 0 <= k < |es| =>
      LotValue(es[k].relatedLot.value, es[k].value.amount,
               ReplacedDate(prior, es[k].relatedLot.value, es[k].value.amount, now), LotValuePending))
  }

  /**
   * The date of an offer moves exactly when its amount does: with a clock that has moved on since
   * every prior offer was dated, a replacing offer for a lot the bid already offered on keeps the prior
   * date if and only if it keeps the prior amount.
   */
  lemma {:induction false} DateChangesOnlyWithAmount(prior: seq<LotValue>, es: seq<LotValueInput>, now: nat, k: nat)
    requires forall j :: 0 <= j < |es| ==> es[j].relatedLot.Some?
    requires forall j :: 0 <= j < |prior| ==> prior[j].date < now
    requires k < |es|
    requires OfferFor(prior, es[k].relatedLot.value).Some?
    ensures var prev := OfferFor(prior, es[k].relatedLot.value).value;
            (ReplacedLotValues(prior, es, now)[k].date == prev.date) <==> (es[k].value.amount == prev.amount)
  {
    var prev := OfferFor(prior, es[k].relatedLot.value).value;
    assert prev.date < now;
  }
}
