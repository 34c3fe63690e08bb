/** Lots of a tender: the record, the requests that create and change one, and their validation. */
module Lots {
  import opened Wrappers
  import opened Money
  import opened Statuses
  import opened Errors

  type LotId = string

  /**
   * A lot as the tender stores it. Its currencies and VAT flag always equal the tender's (they are
   * never set from a lot request); `date` is the clock reading of its last status change, and
   * `auctionEnded` records that the auction collaborator has reported results for it.
   */
  datatype Lot = Lot(
    id: LotId,
    title: string,
    value: Value,
    minimalStep: Value,
    guarantee: Option<Guarantee>,
    status: LotStatus,
    date: Option<nat>,
    auctionEnded: bool)

  /** An amount as a request states it; currency and VAT flag may be left out. */
  datatype ValueInput = ValueInput(amount: nat, currency: Option<Currency>, vatIncluded: Option<bool>)

  /** A guarantee as a lot-creation request states it. */
  datatype GuaranteeInput = GuaranteeInput(amount: nat, currency: Option<Currency>)

  /** The body of a request that adds a lot; every field may be missing. */
  datatype LotInput = LotInput(
    id: Option<LotId>,
    title: Option<string>,
    value: Option<ValueInput>,
    minimalStep: Option<ValueInput>,
    guarantee: Option<GuaranteeInput>)

  /** A guarantee as a patch states it: each part may be left out. */
  datatype GuaranteePatch = GuaranteePatch(amount: Option<nat>, currency: Option<Currency>)

  /** The body of a request that changes a lot; a missing field is left as it is. */
  datatype LotPatch = LotPatch(
    title: Option<string>,
    value: Option<ValueInput>,
    minimalStep: Option<ValueInput>,
    guarantee: Option<GuaranteePatch>)

  /** An item of the tender, possibly bound to one lot. */
  datatype Item = Item(id: string, relatedLot: Option<LotId>)

  predicate HasLot(lots: seq<Lot>, id: LotId) {
    exists i :: 0 <= i < |lots| && lots[i].id == id
  }

  /** No two lots of the tender share an id. */
  predicate UniqueIds(lots: seq<Lot>) {
    forall i, j :: 0 <= i < j < |lots| ==> lots[i].id != lots[j].id
  }

  /** Every item bound to a lot is bound to a lot of the tender. */
  predicate ItemsReferToLots(items: seq<Item>, lots: seq<Lot>) {
    forall k :: 0 <= k < |items| && items[k].relatedLot.Some? ==> HasLot(lots, items[k].relatedLot.value)
  }

  /** Some item is bound to the lot `id`. */
  predicate ReferencedByItem(items: seq<Item>, id: LotId) {
    exists k :: 0 <= k < |items| && items[k].relatedLot == Some(id)
  }

  /** The position of the first lot with id `id`, if there is one. */
  function IndexOf(lots: seq<Lot>, id: LotId): (r: Option<nat>)
    ensures r.None? <==> !HasLot(lots, id)
    ensures r.Some? ==> r.value < |lots| && lots[r.value].id == id
    ensures r.Some? ==> forall j :: 0 <= j < r.value ==> lots[j].id != id
  {
    if |lots| == 0 then None
    else if lots[0].id == id then Some(0)
    else
      match IndexOf(lots[1..], id)
      case None => (assert forall i :: 0 < i < |lots| ==> lots[i] == lots[1..][i - 1]; None)
      case Some(k) => Some(k + 1)
  }

  /** The names of the required fields a lot request leaves out, in the order they are reported. */
  function MissingLotFields(input: LotInput): (r: seq<string>)
    ensures |r| == 0 <==> input.title.Some? && input.value.Some? && input.minimalStep.Some?
    ensures "title" in r <==> input.title.None?
    ensures "value" in r <==> input.value.None?
    ensures "minimalStep" in r <==> input.minimalStep.None?
  {
    (if input.minimalStep.None? then ["minimalStep"] else [])
    + (if input.value.None? then ["value"] else [])
    + (if input.title.None? then ["title"] else [])
  }

  /** The id a new lot gets: its own if the request carries one, otherwise a freshly issued one. */
  function NewLotId(input: LotInput, freshId: LotId): LotId {
    input.id.GetOr(freshId)
  }

  /** The currency a requested lot guarantee ends up in: the one it names, or the default. */
  function RequestedGuaranteeCurrency(g: GuaranteeInput): Currency {
    g.currency.GetOr(DefaultCurrency)
  }

  /**
   * What the service demands of a new lot, stated as a whole: title, value and minimal step present;
   * the step not above the value; an id not yet taken; and, when the tender has a guarantee, a lot
   * guarantee in the tender guarantee's currency (a guarantee without a currency is in the default).
   */
  predicate LotAcceptable(lots: seq<Lot>, input: LotInput, freshId: LotId, tGuarantee: Option<Guarantee>) {
    && input.title.Some? && input.value.Some? && input.minimalStep.Some?
    && input.minimalStep.value.amount <= input.value.value.amount
    && !HasLot(lots, NewLotId(input, freshId))
    && (input.guarantee.Some? && tGuarantee.Some? ==>
          RequestedGuaranteeCurrency(input.guarantee.value) == tGuarantee.value.currency)
  }

  /**
   * Validates a request to add a lot and builds the lot. The checks run in the order the service
   * reports them: required fields, the step against the value, id uniqueness, guarantee currency.
   * Currency and VAT flag of the new lot's value and minimal step come from the tender; whatever the
   * request says about them is ignored.
   */
  function CheckNewLot(lots: seq<Lot>, input: LotInput, freshId: LotId,
                       tValue: Value, tMinimalStep: Value, tGuarantee: Option<Guarantee>): (r: Result<Lot, Error>)
    ensures r.Ok? <==> LotAcceptable(lots, input, freshId, tGuarantee)
    ensures r.Err? && |MissingLotFields(input)| > 0 ==> r.error == Required(MissingLotFields(input))
    ensures r.Err? && r.error == LotIdNotUnique ==> HasLot(lots, NewLotId(input, freshId))
    ensures (&& |MissingLotFields(input)| == 0
             && input.minimalStep.value.amount > input.value.value.amount)
            ==> r == Err(LotMinimalStepAboveValue)
    ensures (&& |MissingLotFields(input)| == 0
             && input.minimalStep.value.amount <= input.value.value.amount
             && HasLot(lots, NewLotId(input, freshId)))
            ==> r == Err(LotIdNotUnique)
    ensures (&& |MissingLotFields(input)| == 0
             && input.minimalStep.value.amount <= input.value.value.amount
             && !HasLot(lots, NewLotId(input, freshId))
             && input.guarantee.Some? && tGuarantee.Some?
             && RequestedGuaranteeCurrency(input.guarantee.value) != tGuarantee.value.currency)
            ==> r == Err(LotGuaranteeCurrencyMismatch)
    ensures r.Ok? ==>
      && r.value.id == NewLotId(input, freshId) && !HasLot(lots, r.value.id)
      && r.value.title == input.title.value
      && r.value.value == Value(input.value.value.amount, tValue.currency, tValue.vatIncluded)
      && r.value.minimalStep == Value(input.minimalStep.value.amount, tMinimalStep.currency, tMinimalStep.vatIncluded)
      && r.value.minimalStep.amount <= r.value.value.amount
      && r.value.status == LotActive && r.value.date.None? && !r.value.auctionEnded
      && (input.guarantee.None? ==> r.value.guarantee.None?)
      && (input.guarantee.Some? ==> r.value.guarantee == Some(Guarantee(
            input.guarantee.value.amount, RequestedGuaranteeCurrency(input.guarantee.value))))
      && (r.value.guarantee.Some? && tGuarantee.Some? ==> r.value.guarantee.value.currency == tGuarantee.value.currency)
  {
    var missing := MissingLotFields(input);
    if |missing| > 0 then Err(Required(missing))
    else if input.minimalStep.value.amount > input.value.value.amount then Err(LotMinimalStepAboveValue)
    else if IndexOf(lots, NewLotId(input, freshId)).Some? then Err(LotIdNotUnique)
    else if input.guarantee.Some? && tGuarantee.Some?
         && RequestedGuaranteeCurrency(input.guarantee.value) != tGuarantee.value.currency then
      Err(LotGuaranteeCurrencyMismatch)
    else
      var g := if input.guarantee.None? then None
               else Some(Guarantee(input.guarantee.value.amount, RequestedGuaranteeCurrency(input.guarantee.value)));
      Ok(Lot(NewLotId(input, freshId), input.title.value,
             Value(input.value.value.amount, tValue.currency, tValue.vatIncluded),
             Value(input.minimalStep.value.amount, tMinimalStep.currency, tMinimalStep.vatIncluded),
             g, LotActive, None, false))
  }

  /** The value amount a lot has after a patch. */
  function PatchedValueAmount(lot: Lot, patch: LotPatch): nat {
    if patch.value.Some? then patch.value.value.amount else lot.value.amount
  }

  /** The minimal-step amount a lot has after a patch. */
  function PatchedStepAmount(lot: Lot, patch: LotPatch): nat {
    if patch.minimalStep.Some? then patch.minimalStep.value.amount else lot.minimalStep.amount
  }

  /**
   * Applies a patch to a lot: title and amounts are taken from the patch; the currency and VAT flag
   * of value and minimal step are not (they follow the tender); a guarantee's currency is the tender
   * guarantee's when the tender has one, otherwise the one the patch or the lot already names, or the
   * default. A guarantee patch without an amount on a lot without a guarantee is refused, and so is a
   * patch that leaves the minimal step above the value.
   */
  function PatchedLot(lot: Lot, patch: LotPatch, tGuarantee: Option<Guarantee>): (r: Result<Lot, Error>)
    ensures r.Ok? ==>
      && r.value.id == lot.id && r.value.status == lot.status && r.value.date == lot.date
      && r.value.auctionEnded == lot.auctionEnded
      && r.value.title == patch.title.GetOr(lot.title)
      && r.value.value == lot.value.(amount := PatchedValueAmount(lot, patch))
      && r.value.minimalStep == lot.minimalStep.(amount := PatchedStepAmount(lot, patch))
      && (patch.guarantee.None? ==> r.value.guarantee == lot.guarantee)
      && (patch.guarantee.Some? ==> r.value.guarantee.Some?)
      && (patch.guarantee.Some? && patch.guarantee.value.amount.Some? ==> r.value.guarantee.value.amount == patch.guarantee.value.amount.value)
      && (patch.guarantee.Some? && tGuarantee.Some? ==> r.value.guarantee.value.currency == tGuarantee.value.currency)
      && (patch.guarantee.Some? && tGuarantee.None? ==>
            r.value.guarantee.value.currency == patch.guarantee.value.currency.GetOr(
              if lot.guarantee.Some? then lot.guarantee.value.currency else DefaultCurrency))
      && (patch.guarantee.Some? && patch.guarantee.value.amount.None? ==>
            lot.guarantee.Some? && r.value.guarantee.value.amount == lot.guarantee.value.amount)
      && r.value.minimalStep.amount <= r.value.value.amount
    ensures r.Err? <==>
      || PatchedStepAmount(lot, patch) > PatchedValueAmount(lot, patch)
      || (patch.guarantee.Some? && patch.guarantee.value.amount.None? && lot.guarantee.None?)
  {
    var value := lot.value.(amount := PatchedValueAmount(lot, patch));
    var step := lot.minimalStep.(amount := PatchedStepAmount(lot, patch));
    if step.amount > value.amount then Err(LotMinimalStepAboveValue)
    else if patch.guarantee.None? then
      Ok(lot.(title := patch.title.GetOr(lot.title), value := value, minimalStep := step))
    else
      var gp := patch.guarantee.value;
      if gp.amount.None? && lot.guarantee.None? then Err(Required(["amount"]))
      else
        var amount := if gp.amount.Some? then gp.amount.value else lot.guarantee.value.amount;
        var currency :=
          if tGuarantee.Some? then tGuarantee.value.currency
          else if gp.currency.Some? then gp.currency.value
          else if lot.guarantee.Some? then lot.guarantee.value.currency
          else DefaultCurrency;
        Ok(lot.(title := patch.title.GetOr(lot.title), value := value, minimalStep := step,
                guarantee := Some(Guarantee(amount, currency))))
  }

  /** Removing the lot at position `i` keeps the others, in order, and frees its id. */
  lemma {:induction false} RemoveAtFreesId(lots: seq<Lot>, i: nat)
    requires UniqueIds(lots) && i < |lots|
    ensures UniqueIds(lots[..i] + lots[i + 1..])
    ensures !HasLot(lots[..i] + lots[i + 1..], lots[i].id)
    ensures forall id :: id != lots[i].id ==> (HasLot(lots[..i] + lots[i + 1..], id) <==> HasLot(lots, id))
  {
    var rest := lots[..i] + lots[i + 1..];
    assert forall k :: 0 <= k < |rest| ==> rest[k] == lots[if k < i then k else k + 1];
    forall id | id != lots[i].id && HasLot(lots, id)
      ensures HasLot(rest, id)
    {
      var k :| 0 <= k < |lots| && lots[k].id == id;
      assert rest[if k < i then k else k - 1] == lots[k];
    }
  }
}
