/**
 * The tender of an open (EU) procedure split into lots, as a value, and every request on it as a
 * step from one value to the next. A step either refuses the request with an error, leaving the
 * tender as it was, or gives the tender after the request. The `Tender` object in module Tenders
 * applies these steps in place; the lemmas here state what the steps promise.
 */
module TenderModel {
  import opened Wrappers
  import opened Money
  import opened Statuses
  import opened Errors
  import opened Lots
  import opened Aggregation
  import opened Features
  import opened Bids
  import opened Qualifications
  import opened Awards

  datatype CancellationStatus = CancellationPending | CancellationActive

  /** A cancellation of one lot; once active, the lot is cancelled. */
  datatype Cancellation = Cancellation(relatedLot: LotId, status: CancellationStatus)

  /** The owner's decision on a qualification or an award. */
  datatype Decision = Approve(qualified: bool, eligible: bool) | Reject

  /** The body of a request that changes the tender's own value, minimal step and guarantee;
      a missing field is left as it is. */
  datatype TenderPatch = TenderPatch(
    valueCurrency: Option<Currency>,
    valueVatIncluded: Option<bool>,
    stepCurrency: Option<Currency>,
    stepVatIncluded: Option<bool>,
    guaranteeAmount: Option<nat>,
    guaranteeCurrency: Option<Currency>)

  /** Everything a tender holds. */
  datatype TenderState = TenderState(
    status: TenderStatus,
    date: Option<nat>,
    value: Value,
    minimalStep: Value,
    guarantee: Option<Guarantee>,
    lots: seq<Lot>,
    items: seq<Item>,
    features: seq<Feature>,
    bids: seq<Bid>,
    cancellations: seq<Cancellation>,
    qualifications: seq<Qualification>,
    awards: seq<Award>,
    contracts: seq<Contract>)

  /** The answer to a request: its error, or nothing. */
  function OutcomeOf(step: Result<TenderState, Error>): (r: Outcome<Error>)
    ensures r.Pass? <==> step.Ok?
    ensures r.Fail? ==> r.error == step.error
  {
    if step.Ok? then Pass else Fail(step.error)
  }

  /** The tender after a request: as the step gives it, or unchanged when the request is refused. */
  function NextState(s: TenderState, step: Result<TenderState, Error>): (r: TenderState)
    ensures step.Err? ==> r == s
    ensures step.Ok? ==> r == step.value
  {
    if step.Ok? then step.value else s
  }

  // ---- Invariants

  /** The statuses of the lots, in order. */
  function LotStatuses(lots: seq<Lot>): (r: seq<LotStatus>)
    ensures |r| == |lots| && forall i :: 0 <= i < |lots| ==> r[i] == lots[i].status
  {
    seq(|lots|, i requires 0 <= i < |lots| => lots[i].status)
  }

  /** The date a status change stamps on the tender: `now` when the new status is terminal. */
  function StampedDate(status: TenderStatus, date: Option<nat>, now: nat): (r: Option<nat>)
    ensures IsTerminal(status) ==> r == Some(now)
    ensures !IsTerminal(status) ==> r == date
  {
    if IsTerminal(status) then Some(now) else date
  }

  /** A lot carries the tender's currencies and VAT flags, and its guarantee the tender guarantee's
      currency; its minimal step is within its value. */
  predicate FollowsTender(lot: Lot, value: Value, minimalStep: Value, guarantee: Option<Guarantee>) {
    && lot.minimalStep.amount <= lot.value.amount
    && lot.value.currency == value.currency && lot.value.vatIncluded == value.vatIncluded
    && lot.minimalStep.currency == minimalStep.currency && lot.minimalStep.vatIncluded == minimalStep.vatIncluded
    && (lot.guarantee.Some? && guarantee.Some? ==> lot.guarantee.value.currency == guarantee.value.currency)
  }

  /** Every lot follows the tender. */
  predicate LotsFollowTender(lots: seq<Lot>, value: Value, minimalStep: Value, guarantee: Option<Guarantee>) {
    forall i :: 0 <= i < |lots| ==> FollowsTender(lots[i], value, minimalStep, guarantee)
  }

  /** All lot guarantees are in one currency. */
  predicate GuaranteesAgree(lots: seq<Lot>) {
    forall i, j :: 0 <= i < |lots| && 0 <= j < |lots| && lots[i].guarantee.Some? && lots[j].guarantee.Some? ==>
      lots[i].guarantee.value.currency == lots[j].guarantee.value.currency
  }

  /**
   * What holds between requests: lot ids are unique, items name lots of the tender, the tender's value,
   * minimal step and guarantee agree with its lots, the lots follow the tender's currencies and VAT
   * flags, and a tender in a terminal status carries the date it got there.
   */
  predicate Coherent(s: TenderState) {
    && UniqueIds(s.lots)
    && ItemsReferToLots(s.items, s.lots)
    && Reconciled(s.lots, s.value, s.minimalStep, s.guarantee)
    && LotsFollowTender(s.lots, s.value, s.minimalStep, s.guarantee)
    && (IsTerminal(s.status) ==> s.date.Some?)
  }

  /** A lot cancelled before is still cancelled afterwards, if it is still there. */
  predicate KeepsCancelledLots(before: seq<Lot>, after: seq<Lot>) {
    forall i, j :: 0 <= i < |before| && 0 <= j < |after| && before[i].id == after[j].id && before[i].status == LotCancelled
      ==> after[j].status == LotCancelled
  }

  /** Two sequences of lots that differ at most in the lots' statuses, dates and auction flags. */
  predicate SameLotTerms(a: seq<Lot>, b: seq<Lot>) {
    && |a| == |b|
    && forall i :: 0 <= i < |a| ==>
         && a[i].id == b[i].id && a[i].value == b[i].value
         && a[i].minimalStep == b[i].minimalStep && a[i].guarantee == b[i].guarantee
  }

  /** A change of lot statuses, dates or auction flags finds every lot where it was. */
  lemma {:induction false} SameTermsSameIndex(a: seq<Lot>, b: seq<Lot>)
    requires SameLotTerms(a, b)
    ensures forall id :: IndexOf(a, id) == IndexOf(b, id) && (HasLot(a, id) <==> HasLot(b, id))
  {
    forall id
      ensures IndexOf(a, id) == IndexOf(b, id)
    {
      SameTermsSameIndexOf(a, b, id);
    }
  }

  /** The same, for one id. */
  lemma {:induction false} SameTermsSameIndexOf(a: seq<Lot>, b: seq<Lot>, id: LotId)
    requires SameLotTerms(a, b)
    ensures IndexOf(a, id) == IndexOf(b, id)
  {
    var ia, ib := IndexOf(a, id), IndexOf(b, id);
    if ia.Some? {
      assert b[ia.value].id == id;
    }
    if ib.Some? {
      assert a[ib.value].id == id;
    }
  }

  /** A change of lot statuses, dates or auction flags keeps every lot-related invariant of the tender. */
  lemma {:induction false} SameTermsKeepInvariant(a: seq<Lot>, b: seq<Lot>, items: seq<Item>,
                                                  value: Value, minimalStep: Value, guarantee: Option<Guarantee>)
    requires SameLotTerms(a, b)
    ensures UniqueIds(a) ==> UniqueIds(b)
    ensures ItemsReferToLots(items, a) ==> ItemsReferToLots(items, b)
    ensures Reconciled(a, value, minimalStep, guarantee) ==> Reconciled(b, value, minimalStep, guarantee)
    ensures LotsFollowTender(a, value, minimalStep, guarantee) ==> LotsFollowTender(b, value, minimalStep, guarantee)
    ensures forall id :: IndexOf(a, id) == IndexOf(b, id)
  {
    SameTermsKeepIds(a, b, items);
    SameTermsKeepAmounts(a, b, value, minimalStep, guarantee);
  }

  /** A change of lot statuses, dates or auction flags keeps the ids unique and the items' lots. */
  lemma {:induction false} SameTermsKeepIds(a: seq<Lot>, b: seq<Lot>, items: seq<Item>)
    requires SameLotTerms(a, b)
    ensures UniqueIds(a) ==> UniqueIds(b)
    ensures ItemsReferToLots(items, a) ==> ItemsReferToLots(items, b)
    ensures forall id :: IndexOf(a, id) == IndexOf(b, id)
  {
    SameTermsSameIndex(a, b);
  }

  /** A change of lot statuses, dates or auction flags keeps the tender's sums and terms. */
  lemma {:induction false} SameTermsKeepAmounts(a: seq<Lot>, b: seq<Lot>, value: Value, minimalStep: Value,
                                                guarantee: Option<Guarantee>)
    requires SameLotTerms(a, b)
    ensures Reconciled(a, value, minimalStep, guarantee) ==> Reconciled(b, value, minimalStep, guarantee)
    ensures LotsFollowTender(a, value, minimalStep, guarantee) ==> LotsFollowTender(b, value, minimalStep, guarantee)
  {
    assert SameAmounts(a, b);
    SameAmountsSameRollup(a, b);
  }


  // ---- Derived fields

  /** The tender with new lots and its value, minimal step and guarantee recomputed from them. */
  function Rolled(s: TenderState, lots: seq<Lot>): TenderState {
    s.(lots := lots,
       value := TenderValue(lots, s.value),
       minimalStep := TenderMinimalStep(lots, s.minimalStep),
       guarantee := TenderGuarantee(lots, s.guarantee))
  }

  /** Recomputing the derived fields after a change of lots restores the tender's invariant, as long
      as the lots themselves are in order. */
  lemma {:induction false} RolledCoherent(s: TenderState, lots: seq<Lot>)
    requires UniqueIds(lots) && ItemsReferToLots(s.items, lots)
    requires LotsFollowTender(lots, s.value, s.minimalStep, s.guarantee)
    requires s.guarantee.None? ==> GuaranteesAgree(lots)
    requires IsTerminal(s.status) ==> s.date.Some?
    ensures Coherent(Rolled(s, lots))
  {
    var r := Rolled(s, lots);
    if s.guarantee.None? && AnyGuarantee(lots) {
      var k :| 0 <= k < |lots| && lots[k].guarantee.Some? && lots[k].guarantee.value.currency == r.guarantee.value.currency;
      assert LotsFollowTender(lots, r.value, r.minimalStep, r.guarantee);
    }
  }

  /** Recomputing the derived fields of a tender that is in order changes nothing. */
  lemma RollingCoherentIsIdentity(s: TenderState)
    requires Coherent(s)
    ensures Rolled(s, s.lots) == s
  {
  }

  /** A tender with no lot guarantee has none to agree on. */
  lemma {:induction false} NoGuaranteeBeforeTender(s: TenderState)
    requires Coherent(s) && s.guarantee.None?
    ensures forall i :: 0 <= i < |s.lots| ==> s.lots[i].guarantee.None?
  {
  }

  // ---- Lots

  /** Lots, bids and the tender's terms can change only while the tender is tendering. */
  function WhileTendering(status: TenderStatus, action: string): (r: Outcome<Error>)
    ensures r.Pass? <==> status == ActiveTendering
    ensures r.Fail? ==> r.error == ForbiddenInTenderStatus(action, TenderStatusName(status))
  {
    if status == ActiveTendering then Pass else Fail(ForbiddenInTenderStatus(action, TenderStatusName(status)))
  }

  /** Adding a lot: the lot is validated, appended, and the derived fields recomputed. */
  function AddLotStep(s: TenderState, input: LotInput, freshId: LotId): Result<TenderState, Error> {
    var gate := WhileTendering(s.status, "add lot");
    if gate.Fail? then Err(gate.error)
    else
      match CheckNewLot(s.lots, input, freshId, s.value, s.minimalStep, s.guarantee)
      case Err(e) => Err(e)
      case Ok(lot) => Ok(Rolled(s, s.lots + [lot]))
  }

  /** Appending a lot with a fresh id that follows the tender keeps the lots in order, every lot
      where it was, and every cancelled lot cancelled. */
  lemma {:induction false} AppendFreshLot(lots: seq<Lot>, lot: Lot, items: seq<Item>,
                                          value: Value, minimalStep: Value, guarantee: Option<Guarantee>)
    requires UniqueIds(lots) && !HasLot(lots, lot.id) && lot.status == LotActive
    requires ItemsReferToLots(items, lots) && LotsFollowTender(lots, value, minimalStep, guarantee)
    requires FollowsTender(lot, value, minimalStep, guarantee)
    requires guarantee.None? ==> forall k :: 0 <= k < |lots| ==> lots[k].guarantee.None?
    ensures UniqueIds(lots + [lot]) && ItemsReferToLots(items, lots + [lot])
    ensures LotsFollowTender(lots + [lot], value, minimalStep, guarantee)
    ensures guarantee.None? ==> GuaranteesAgree(lots + [lot])
    ensures KeepsCancelledLots(lots, lots + [lot])
  {
    var after := lots + [lot];
    assert forall k :: 0 <= k < |lots| ==> after[k] == lots[k];
    assert after[|lots|] == lot;
    forall id | HasLot(lots, id)
      ensures HasLot(after, id)
    {
      var k :| 0 <= k < |lots| && lots[k].id == id;
      assert after[k].id == id;
    }
  }

  /**
   * Adding a lot is allowed only while tendering and succeeds exactly when the lot is acceptable; the
   * tender stays in order and no cancelled lot is revived.
   */
  lemma {:induction false} AddLotKeepsCoherent(s: TenderState, input: LotInput, freshId: LotId)
    requires Coherent(s)
    ensures var step := AddLotStep(s, input, freshId);
            && (step.Ok? <==> s.status == ActiveTendering && LotAcceptable(s.lots, input, freshId, s.guarantee))
            && Coherent(NextState(s, step))
            && KeepsCancelledLots(s.lots, NextState(s, step).lots)
  {
    var step := AddLotStep(s, input, freshId);
    if step.Ok? {
      var lot := CheckNewLot(s.lots, input, freshId, s.value, s.minimalStep, s.guarantee).value;
      if s.guarantee.None? {
        NoGuaranteeBeforeTender(s);
      }
      AppendFreshLot(s.lots, lot, s.items, s.value, s.minimalStep, s.guarantee);
      RolledCoherent(s, s.lots + [lot]);
    }
  }

  /**
   * What adding a lot does to the derived fields: the tender value grows by the lot's value and the
   * tender guarantee by the lot's guarantee, and the tender's least step is the smaller of the old one
   * and the lot's. The first lot guarantee replaces whatever guarantee amount the tender declared.
   */
  lemma {:induction false} AddLotRollsUp(s: TenderState, input: LotInput, freshId: LotId)
    requires Coherent(s) && AddLotStep(s, input, freshId).Ok?
    ensures var next := AddLotStep(s, input, freshId).value;
            var lot := next.lots[|next.lots| - 1];
            && next.lots == s.lots + [lot]
            && (|s.lots| > 0 ==> next.value.amount == s.value.amount + lot.value.amount)
            && (|s.lots| > 0 ==>
                  next.minimalStep.amount ==
                  (if lot.minimalStep.amount < s.minimalStep.amount then lot.minimalStep.amount else s.minimalStep.amount))
            && (|s.lots| == 0 ==> next.value.amount == lot.value.amount && next.minimalStep.amount == lot.minimalStep.amount)
            && (AnyGuarantee(s.lots) ==> next.guarantee.value.amount == s.guarantee.value.amount + GuaranteeAmount(lot))
            && (!AnyGuarantee(s.lots) && lot.guarantee.Some? ==> next.guarantee.value.amount == lot.guarantee.value.amount)
  {
    var lot := CheckNewLot(s.lots, input, freshId, s.value, s.minimalStep, s.guarantee).value;
    assert (s.lots + [lot])[|s.lots|] == lot;
    AppendRollsUpValue(s.lots, lot, s.value, s.minimalStep);
    AppendRollsUpGuarantee(s.lots, lot, s.guarantee);
  }

  /** Changing a lot: the lot must exist and be active; the patch is applied, the derived fields
      recomputed. */
  function PatchLotStep(s: TenderState, id: LotId, patch: LotPatch): Result<TenderState, Error> {
    var gate := WhileTendering(s.status, "update lot");
    if gate.Fail? then Err(gate.error)
    else
      match IndexOf(s.lots, id)
      case None => Err(NotFound("lot_id"))
      case Some(i) =>
        if s.lots[i].status != LotActive then Err(LotNotActive("update lot"))
        else
        match PatchedLot(s.lots[i], patch, s.guarantee)
        case Err(e) => Err(e)
        case Ok(lot) => Ok(Rolled(s, s.lots[i := lot]))
  }

  /** Replacing a lot by one with the same id and status that follows the tender keeps the lots in
      order, every lot where it was, and every cancelled lot cancelled. */
  lemma {:induction false} ReplaceFollowingLot(lots: seq<Lot>, i: nat, lot: Lot, items: seq<Item>,
                                               value: Value, minimalStep: Value, guarantee: Option<Guarantee>)
    requires i < |lots| && lot.id == lots[i].id && lot.status == lots[i].status
    requires UniqueIds(lots) && ItemsReferToLots(items, lots) && LotsFollowTender(lots, value, minimalStep, guarantee)
    requires FollowsTender(lot, value, minimalStep, guarantee)
    requires guarantee.None? ==> forall k :: 0 <= k < |lots| && k != i ==> lots[k].guarantee.None?
    ensures UniqueIds(lots[i := lot]) && ItemsReferToLots(items, lots[i := lot])
    ensures LotsFollowTender(lots[i := lot], value, minimalStep, guarantee)
    ensures guarantee.None? ==> GuaranteesAgree(lots[i := lot])
    ensures KeepsCancelledLots(lots, lots[i := lot])
  {
    var after := lots[i := lot];
    forall id | HasLot(lots, id)
      ensures HasLot(after, id)
    {
      var k :| 0 <= k < |lots| && lots[k].id == id;
      assert after[k].id == id;
    }
  }

  /**
   * Changing a lot is allowed only while tendering and only for an active lot of the tender; the
   * tender stays in order and no cancelled lot is revived.
   */
  lemma {:induction false} PatchLotKeepsCoherent(s: TenderState, id: LotId, patch: LotPatch)
    requires Coherent(s)
    ensures var step := PatchLotStep(s, id, patch);
            && (s.status != ActiveTendering ==> step == Err(ForbiddenInTenderStatus("update lot", TenderStatusName(s.status))))
            && (s.status == ActiveTendering && !HasLot(s.lots, id) ==> step == Err(NotFound("lot_id")))
            && (s.status == ActiveTendering && HasLot(s.lots, id) && !LotIsActive(s.lots, id) ==>
                  step == Err(LotNotActive("update lot")))
            && (step.Ok? <==> && s.status == ActiveTendering && LotIsActive(s.lots, id)
                              && PatchedLot(s.lots[IndexOf(s.lots, id).value], patch, s.guarantee).Ok?)
            && (&& s.status == ActiveTendering && LotIsActive(s.lots, id)
                && PatchedLot(s.lots[IndexOf(s.lots, id).value], patch, s.guarantee).Err?
                ==> step == Err(PatchedLot(s.lots[IndexOf(s.lots, id).value], patch, s.guarantee).error))
            && Coherent(NextState(s, step))
            && KeepsCancelledLots(s.lots, NextState(s, step).lots)
  {
    var step := PatchLotStep(s, id, patch);
    if step.Ok? {
      var i := IndexOf(s.lots, id).value;
      var lot := PatchedLot(s.lots[i], patch, s.guarantee).value;
      assert FollowsTender(s.lots[i], s.value, s.minimalStep, s.guarantee);
      if s.guarantee.None? {
        NoGuaranteeBeforeTender(s);
      }
      ReplaceFollowingLot(s.lots, i, lot, s.items, s.value, s.minimalStep, s.guarantee);
      RolledCoherent(s, s.lots[i := lot]);
    }
  }

  /**
   * What changing a lot does to the derived fields: the tender value moves by the change of the lot's
   * value, and while lots carry guarantees the tender guarantee moves by the change of the lot's, so
   * zeroing a lot guarantee lowers the tender guarantee by that much.
   */
  lemma {:induction false} PatchLotRollsUp(s: TenderState, id: LotId, patch: LotPatch)
    requires Coherent(s) && PatchLotStep(s, id, patch).Ok?
    ensures var next := PatchLotStep(s, id, patch).value;
            var i := IndexOf(s.lots, id).value;
            && next.lots == s.lots[i := next.lots[i]]
            && next.value.amount + s.lots[i].value.amount == s.value.amount + next.lots[i].value.amount
            && (AnyGuarantee(s.lots) ==>
                  next.guarantee.value.amount + GuaranteeAmount(s.lots[i]) == s.guarantee.value.amount + GuaranteeAmount(next.lots[i]))
  {
    var i := IndexOf(s.lots, id).value;
    var lot := PatchedLot(s.lots[i], patch, s.guarantee).value;
    var after := s.lots[i := lot];
    SumValuesReplace(s.lots, i, lot);
    SumGuaranteesReplace(s.lots, i, lot);
    if AnyGuarantee(s.lots) {
      var k :| 0 <= k < |s.lots| && s.lots[k].guarantee.Some?;
      assert after[k].guarantee.Some?;
    }
  }

  /**
   * A lot-level change of the currency or VAT flag of a lot's value or minimal step, or of the
   * currency of its guarantee, is accepted and changes nothing: those follow the tender.
   */
  lemma {:induction false} LotTermsPatchIsNoOp(s: TenderState, id: LotId, valueCurrency: Option<Currency>,
                                               valueVat: Option<bool>, stepCurrency: Option<Currency>,
                                               stepVat: Option<bool>, guaranteeCurrency: Option<Currency>)
    requires Coherent(s) && s.status == ActiveTendering && LotIsActive(s.lots, id)
    requires var lot := s.lots[IndexOf(s.lots, id).value];
             guaranteeCurrency.Some? ==> lot.guarantee.Some? && s.guarantee.Some?
    ensures var lot := s.lots[IndexOf(s.lots, id).value];
            var patch := LotPatch(None, Some(ValueInput(lot.value.amount, valueCurrency, valueVat)),
                                  Some(ValueInput(lot.minimalStep.amount, stepCurrency, stepVat)),
                                  if guaranteeCurrency.Some? then Some(GuaranteePatch(None, guaranteeCurrency)) else None);
            PatchLotStep(s, id, patch) == Ok(s)
  {
    var i := IndexOf(s.lots, id).value;
    var lot := s.lots[i];
    assert FollowsTender(lot, s.value, s.minimalStep, s.guarantee);
    assert s.lots[i := lot] == s.lots;
    RollingCoherentIsIdentity(s);
  }

  /** Deleting a lot: the lot must exist and be active, and no item may be bound to it. */
  function DeleteLotStep(s: TenderState, id: LotId): Result<TenderState, Error> {
    var gate := WhileTendering(s.status, "delete lot");
    if gate.Fail? then Err(gate.error)
    else
      match IndexOf(s.lots, id)
      case None => Err(NotFound("lot_id"))
      case Some(i) =>
        if s.lots[i].status != LotActive then Err(LotNotActive("delete lot"))
        else if ReferencedByItem(s.items, id) then Err(RelatedLotNotFound)
        else Ok(Rolled(s, s.lots[..i] + s.lots[i + 1..]))
  }

  /** Removing a lot no item is bound to keeps the others in order and every cancelled lot cancelled. */
  lemma {:induction false} RemoveUnboundLot(lots: seq<Lot>, i: nat, items: seq<Item>,
                                            value: Value, minimalStep: Value, guarantee: Option<Guarantee>)
    requires i < |lots| && !ReferencedByItem(items, lots[i].id)
    requires UniqueIds(lots) && ItemsReferToLots(items, lots) && LotsFollowTender(lots, value, minimalStep, guarantee)
    requires guarantee.None? ==> forall k :: 0 <= k < |lots| ==> lots[k].guarantee.None?
    ensures var rest := lots[..i] + lots[i + 1..];
            && UniqueIds(rest) && ItemsReferToLots(items, rest) && !HasLot(rest, lots[i].id)
            && LotsFollowTender(rest, value, minimalStep, guarantee)
            && (guarantee.None? ==> GuaranteesAgree(rest))
            && KeepsCancelledLots(lots, rest)
  {
    var rest := lots[..i] + lots[i + 1..];
    RemoveAtFreesId(lots, i);
    assert forall k :: 0 <= k < |rest| ==> rest[k] == lots[if k < i then k else k + 1];
    forall k | 0 <= k < |items| && items[k].relatedLot.Some?
      ensures HasLot(rest, items[k].relatedLot.value)
    {
      assert items[k].relatedLot != Some(lots[i].id);
    }
  }

  /**
   * Deleting a lot is allowed only while tendering and only for an active lot of the tender no item is
   * bound to; a bound lot stays where it is. The tender stays in order and no cancelled lot is revived.
   */
  lemma {:induction false} DeleteLotKeepsCoherent(s: TenderState, id: LotId)
    requires Coherent(s)
    ensures var step := DeleteLotStep(s, id);
            && (s.status != ActiveTendering ==> step == Err(ForbiddenInTenderStatus("delete lot", TenderStatusName(s.status))))
            && (s.status == ActiveTendering && !HasLot(s.lots, id) ==> step == Err(NotFound("lot_id")))
            && (s.status == ActiveTendering && HasLot(s.lots, id) && !LotIsActive(s.lots, id) ==>
                  step == Err(LotNotActive("delete lot")))
            && (s.status == ActiveTendering && LotIsActive(s.lots, id) && ReferencedByItem(s.items, id) ==>
                  step == Err(RelatedLotNotFound))
            && (step.Ok? <==> s.status == ActiveTendering && LotIsActive(s.lots, id) && !ReferencedByItem(s.items, id))
            && (step.Ok? ==> !HasLot(step.value.lots, id))
            && Coherent(NextState(s, step))
            && KeepsCancelledLots(s.lots, NextState(s, step).lots)
  {
    var step := DeleteLotStep(s, id);
    if step.Ok? {
      var i := IndexOf(s.lots, id).value;
      if s.guarantee.None? {
        NoGuaranteeBeforeTender(s);
      }
      RemoveUnboundLot(s.lots, i, s.items, s.value, s.minimalStep, s.guarantee);
      RolledCoherent(s, s.lots[..i] + s.lots[i + 1..]);
    }
  }

  /** What deleting a lot does to the derived fields: the value and guarantee sums drop by the lot's. */
  lemma {:induction false} DeleteLotRollsUp(s: TenderState, id: LotId)
    requires Coherent(s) && DeleteLotStep(s, id).Ok?
    ensures var next := DeleteLotStep(s, id).value;
            var lot := s.lots[IndexOf(s.lots, id).value];
            && (|next.lots| > 0 ==> next.value.amount + lot.value.amount == s.value.amount)
            && (AnyGuarantee(next.lots) ==> next.guarantee.value.amount + GuaranteeAmount(lot) == s.guarantee.value.amount)
  {
    RemoveRollsUp(s.lots, IndexOf(s.lots, id).value, s.value, s.guarantee);
  }

  // ---- The tender's own terms

  /** Replacing the items: every item bound to a lot must name a lot of the tender. */
  function SetItemsStep(s: TenderState, items: seq<Item>): Result<TenderState, Error> {
    var gate := WhileTendering(s.status, "update tender");
    if gate.Fail? then Err(gate.error)
    else if !ItemsReferToLots(items, s.lots) then Err(RelatedLotNotFound)
    else Ok(s.(items := items))
  }

  /** Items are accepted exactly when each one bound to a lot names a lot of the tender, and the
      tender stays in order. */
  lemma SetItemsKeepsCoherent(s: TenderState, items: seq<Item>)
    requires Coherent(s)
    ensures var step := SetItemsStep(s, items);
            && (step.Ok? <==> s.status == ActiveTendering && ItemsReferToLots(items, s.lots))
            && (s.status == ActiveTendering && !ItemsReferToLots(items, s.lots) ==> step == Err(RelatedLotNotFound))
            && Coherent(NextState(s, step))
  {
  }

  /** Replacing the features: enum values and per-lot sums are checked against the items and lots. */
  function SetFeaturesStep(s: TenderState, features: seq<Feature>): Result<TenderState, Error> {
    var gate := WhileTendering(s.status, "update tender");
    if gate.Fail? then Err(gate.error)
    else
      var check := CheckFeatures(features, s.items, s.lots);
      if check.Fail? then Err(check.error) else Ok(s.(features := features))
  }

  /** A lot after the tender's currencies and VAT flags have been pushed down to it. */
  function FollowingTender(lot: Lot, value: Value, minimalStep: Value, guarantee: Option<Guarantee>): Lot {
    lot.(value := lot.value.(currency := value.currency, vatIncluded := value.vatIncluded),
         minimalStep := lot.minimalStep.(currency := minimalStep.currency, vatIncluded := minimalStep.vatIncluded),
         guarantee := if lot.guarantee.Some? && guarantee.Some?
                      then Some(lot.guarantee.value.(currency := guarantee.value.currency)) else lot.guarantee)
  }

  /** Every lot after the push-down. */
  function Cascaded(lots: seq<Lot>, value: Value, minimalStep: Value, guarantee: Option<Guarantee>): (r: seq<Lot>)
    ensures |r| == |lots| && forall i :: 0 <= i < |lots| ==> r[i] == FollowingTender(lots[i], value, minimalStep, guarantee)
  {
    seq(|lots|, i requires 0 <= i < |lots| => FollowingTender(lots[i], value, minimalStep, guarantee))
  }

  /**
   * The push-down does what it is for and nothing else: afterwards every lot follows the tender, the
   * lots keep their ids, statuses, amounts and which of them carry a guarantee, and pushing down again
   * changes nothing.
   */
  lemma {:induction false} CascadeFollowsAndKeepsAmounts(lots: seq<Lot>, value: Value, minimalStep: Value, guarantee: Option<Guarantee>)
    requires forall i :: 0 <= i < |lots| ==> lots[i].minimalStep.amount <= lots[i].value.amount
    ensures var after := Cascaded(lots, value, minimalStep, guarantee);
            && LotsFollowTender(after, value, minimalStep, guarantee)
            && SameAmounts(lots, after)
            && (forall i :: 0 <= i < |lots| ==> after[i].id == lots[i].id && after[i].status == lots[i].status
                                                 && after[i].guarantee.Some? == lots[i].guarantee.Some?)
            && Cascaded(after, value, minimalStep, guarantee) == after
  {
  }

  /** The tender's own value or minimal step after a patch. */
  function PatchedValue(v: Value, currency: Option<Currency>, vatIncluded: Option<bool>): Value {
    v.(currency := currency.GetOr(v.currency), vatIncluded := vatIncluded.GetOr(v.vatIncluded))
  }

  /** The tender's own guarantee after a patch; an amount or currency it leaves out is kept. */
  function PatchedGuarantee(g: Option<Guarantee>, amount: Option<nat>, currency: Option<Currency>): Option<Guarantee> {
    if amount.None? && currency.None? then g
    else if g.None? then Some(Guarantee(amount.GetOr(0), currency.GetOr(DefaultCurrency)))
    else Some(Guarantee(amount.GetOr(g.value.amount), currency.GetOr(g.value.currency)))
  }

  /**
   * Changing the tender's value, minimal step and guarantee. The minimal step must keep the value's
   * currency and VAT flag; the currencies and VAT flags then cascade to every lot, and the derived
   * amounts are recomputed from the lots.
   */
  function PatchTenderStep(s: TenderState, p: TenderPatch): Result<TenderState, Error> {
    var gate := WhileTendering(s.status, "update tender");
    var v := PatchedValue(s.value, p.valueCurrency, p.valueVatIncluded);
    var st := PatchedValue(s.minimalStep, p.stepCurrency, p.stepVatIncluded);
    var g := PatchedGuarantee(s.guarantee, p.guaranteeAmount, p.guaranteeCurrency);
    if gate.Fail? then Err(gate.error)
    else if st.currency != v.currency then Err(TenderCurrencyMismatch)
    else if st.vatIncluded != v.vatIncluded then Err(TenderVatMismatch)
    else Ok(Rolled(s.(value := v, minimalStep := st, guarantee := g), Cascaded(s.lots, v, st, g)))
  }

  /** The push-down keeps the lots' invariants: ids stay unique, items still name lots, a cancelled
      lot stays cancelled, and with no tender guarantee no lot gains one. */
  lemma {:induction false} CascadeKeepsLotInvariants(lots: seq<Lot>, items: seq<Item>, value: Value, minimalStep: Value,
                                                     guarantee: Option<Guarantee>)
    requires UniqueIds(lots) && ItemsReferToLots(items, lots)
    requires forall i :: 0 <= i < |lots| ==> lots[i].minimalStep.amount <= lots[i].value.amount
    requires guarantee.None? ==> forall i :: 0 <= i < |lots| ==> lots[i].guarantee.None?
    ensures var after := Cascaded(lots, value, minimalStep, guarantee);
            && UniqueIds(after) && ItemsReferToLots(items, after)
            && LotsFollowTender(after, value, minimalStep, guarantee)
            && (guarantee.None? ==> GuaranteesAgree(after))
            && KeepsCancelledLots(lots, after)
  {
    var after := Cascaded(lots, value, minimalStep, guarantee);
    CascadeFollowsAndKeepsAmounts(lots, value, minimalStep, guarantee);
    forall i, j | 0 <= i < j < |after|
      ensures after[i].id != after[j].id
    {
      assert after[i].id == lots[i].id && after[j].id == lots[j].id;
    }
    forall k | 0 <= k < |items| && items[k].relatedLot.Some?
      ensures HasLot(after, items[k].relatedLot.value)
    {
      var j :| 0 <= j < |lots| && lots[j].id == items[k].relatedLot.value;
      assert after[j].id == lots[j].id;
    }
  }

  /** A change of the tender's terms is refused exactly when it comes outside the tendering period or
      the minimal step would not share the value's currency or VAT flag. */
  lemma PatchTenderRefusals(s: TenderState, p: TenderPatch)
    ensures var step := PatchTenderStep(s, p);
            var v := PatchedValue(s.value, p.valueCurrency, p.valueVatIncluded);
            var st := PatchedValue(s.minimalStep, p.stepCurrency, p.stepVatIncluded);
            && (s.status == ActiveTendering && st.currency != v.currency ==> step == Err(TenderCurrencyMismatch))
            && (step.Ok? <==> s.status == ActiveTendering && st.currency == v.currency && st.vatIncluded == v.vatIncluded)
  {
  }

  /** Taking new terms and pushing them down to the lots keeps the tender in order. */
  lemma {:induction false} CascadedCoherent(s: TenderState, value: Value, minimalStep: Value, guarantee: Option<Guarantee>)
    requires Coherent(s) && (guarantee.None? ==> s.guarantee.None?)
    ensures var lots := Cascaded(s.lots, value, minimalStep, guarantee);
            && Coherent(Rolled(s.(value := value, minimalStep := minimalStep, guarantee := guarantee), lots))
            && KeepsCancelledLots(s.lots, lots) && SameAmounts(s.lots, lots)
  {
    assert forall i :: 0 <= i < |s.lots| ==> FollowsTender(s.lots[i], s.value, s.minimalStep, s.guarantee);
    if guarantee.None? {
      NoGuaranteeBeforeTender(s);
    }
    CascadeFollowsAndKeepsAmounts(s.lots, value, minimalStep, guarantee);
    CascadeKeepsLotInvariants(s.lots, s.items, value, minimalStep, guarantee);
    RolledCoherent(s.(value := value, minimalStep := minimalStep, guarantee := guarantee),
                   Cascaded(s.lots, value, minimalStep, guarantee));
  }

  /** An accepted change of the tender's terms gives every lot the new currencies and VAT flags and
      keeps the tender in order, with no amount and no lot status changed. */
  lemma {:induction false} PatchTenderKeepsCoherent(s: TenderState, p: TenderPatch)
    requires Coherent(s)
    ensures var step := PatchTenderStep(s, p);
            && Coherent(NextState(s, step))
            && KeepsCancelledLots(s.lots, NextState(s, step).lots)
            && (step.Ok? ==> && SameAmounts(s.lots, step.value.lots)
                             && step.value.value.currency == PatchedValue(s.value, p.valueCurrency, p.valueVatIncluded).currency
                             && step.value.minimalStep.currency == PatchedValue(s.minimalStep, p.stepCurrency, p.stepVatIncluded).currency
                             && step.value.value.vatIncluded == p.valueVatIncluded.GetOr(s.value.vatIncluded)
                             && step.value.minimalStep.vatIncluded == p.stepVatIncluded.GetOr(s.minimalStep.vatIncluded)
                             && (PatchedGuarantee(s.guarantee, p.guaranteeAmount, p.guaranteeCurrency).None? ==>
                                   step.value.guarantee.None?)
                             && (PatchedGuarantee(s.guarantee, p.guaranteeAmount, p.guaranteeCurrency).Some? ==>
                                   && step.value.guarantee.Some?
                                   && step.value.guarantee.value.currency
                                      == PatchedGuarantee(s.guarantee, p.guaranteeAmount, p.guaranteeCurrency).value.currency))
  {
    var step := PatchTenderStep(s, p);
    if step.Ok? {
      var v := PatchedValue(s.value, p.valueCurrency, p.valueVatIncluded);
      var st := PatchedValue(s.minimalStep, p.stepCurrency, p.stepVatIncluded);
      var g := PatchedGuarantee(s.guarantee, p.guaranteeAmount, p.guaranteeCurrency);
      CascadedCoherent(s, v, st, g);
    }
  }

  /**
   * While lots carry guarantees, a request setting the tender's guarantee amount is ignored: the
   * amount stays the sum of the lot guarantees. So do the tender's value and minimal step amounts
   * while it has lots.
   */
  lemma {:induction false} PatchTenderKeepsAmounts(s: TenderState, p: TenderPatch)
    requires Coherent(s) && PatchTenderStep(s, p).Ok?
    ensures var next := PatchTenderStep(s, p).value;
            && (|s.lots| > 0 ==> next.value.amount == s.value.amount && next.minimalStep.amount == s.minimalStep.amount)
            && (AnyGuarantee(s.lots) ==> next.guarantee.value.amount == s.guarantee.value.amount)
  {
    var v := PatchedValue(s.value, p.valueCurrency, p.valueVatIncluded);
    var st := PatchedValue(s.minimalStep, p.stepCurrency, p.stepVatIncluded);
    var g := PatchedGuarantee(s.guarantee, p.guaranteeAmount, p.guaranteeCurrency);
    assert forall i :: 0 <= i < |s.lots| ==> FollowsTender(s.lots[i], s.value, s.minimalStep, s.guarantee);
    CascadeFollowsAndKeepsAmounts(s.lots, v, st, g);
    SameAmountsSameRollup(s.lots, Cascaded(s.lots, v, st, g));
  }

  /** Features are accepted exactly while tendering and when every enum value and every lot's sum of
      maximum values (or, without lots, their total) stays within bounds; the lots are untouched, so
      the tender stays in order. */
  lemma SetFeaturesKeepsCoherent(s: TenderState, features: seq<Feature>)
    requires Coherent(s)
    ensures var step := SetFeaturesStep(s, features);
            && (step.Ok? <==> s.status == ActiveTendering && EnumValuesInRange(features)
                              && SumsInRange(features, s.items, s.lots))
            && (s.status == ActiveTendering && !EnumValuesInRange(features) ==> step == Err(FeatureValueTooHigh))
            && Coherent(NextState(s, step)) && NextState(s, step).lots == s.lots
  {
  }

  // ---- Bids

  /** The position of the first bid with the id. */
  function BidIndex(bids: seq<Bid>, id: string): (r: Option<nat>)
    ensures r.None? <==> forall i :: 0 <= i < |bids| ==> bids[i].id != id
    ensures r.Some? ==> r.value < |bids| && bids[r.value].id == id
  {
    if |bids| == 0 then None
    else if bids[0].id == id then Some(0)
    else
      var rest := BidIndex(bids[1..], id);
      assert forall i :: 1 <= i < |bids| ==> bids[i] == bids[1..][i - 1];
      if rest.None? then None else Some(rest.value + 1)
  }

  /** Placing a bid; `bidId` is the id the service generates and `now` the clock reading. */
  function AddBidStep(s: TenderState, bidId: string, input: BidInput, now: nat): Result<TenderState, Error>
    requires UniqueIds(s.lots)
  {
    var gate := WhileTendering(s.status, "add bid");
    if gate.Fail? then Err(gate.error)
    else
      var check := CheckBid(s.lots, s.items, s.features, input);
      if check.Fail? then Err(check.error)
      else Ok(s.(bids := s.bids + [Bid(bidId, BidPending, NewLotValues(input.lotValues, now), input.parameters)]))
  }

  /** Every offer of a bid names a lot of the tender and does not exceed that lot's value. */
  predicate OffersWithinLots(lvs: seq<LotValue>, lots: seq<Lot>) {
    forall k :: 0 <= k < |lvs| ==>
      && HasLot(lots, lvs[k].relatedLot)
      && forall i :: 0 <= i < |lots| && lots[i].id == lvs[k].relatedLot ==> lvs[k].amount <= lots[i].value.amount
  }

  /**
   * A bid is placed exactly while tendering and when the service's checks pass: then it is added as
   * pending, after the bids already there, and none of its offers names a missing lot or exceeds its
   * lot's value, and no two of them name the same lot. Nothing else of the tender changes, so it stays in order.
   */
  lemma {:induction false} AddBidKeepsCoherent(s: TenderState, bidId: string, input: BidInput, now: nat)
    requires Coherent(s)
    ensures var step := AddBidStep(s, bidId, input, now);
            && (step.Ok? <==> s.status == ActiveTendering && BidAcceptable(s.lots, s.items, s.features, input))
            && (s.status == ActiveTendering && |input.lotValues| == 0 ==> step == Err(Required(["lotValues"])))
            && Coherent(NextState(s, step))
            && (step.Ok? ==> && step.value == s.(bids := step.value.bids)
                             && |step.value.bids| == |s.bids| + 1 && step.value.bids[..|s.bids|] == s.bids
                             && var b := step.value.bids[|s.bids|];
                                && b.id == bidId && b.status == BidPending && OffersWithinLots(b.lotValues, s.lots)
                                && OffersNameDistinctLots(b.lotValues))
  {
    var step := AddBidStep(s, bidId, input, now);
    if step.Ok? {
      var b := step.value.bids[|s.bids|];
      assert step.value.bids[..|s.bids|] == s.bids;
      forall k | 0 <= k < |b.lotValues|
        ensures HasLot(s.lots, b.lotValues[k].relatedLot)
      {
        assert LotValueAcceptable(s.lots, input.lotValues[k]);
      }
    }
  }

  /** Replacing the offers of the bid `bidId`; the new offers are checked as a new bid with the bid's
      parameters would be. */
  function PatchBidStep(s: TenderState, bidId: string, offers: seq<LotValueInput>, now: nat): Result<TenderState, Error>
    requires UniqueIds(s.lots)
  {
    var gate := WhileTendering(s.status, "update bid");
    var k := BidIndex(s.bids, bidId);
    if gate.Fail? then Err(gate.error)
    else if k.None? then Err(NotFound("bid_id"))
    else
      var b := s.bids[k.value];
      var check := CheckBid(s.lots, s.items, s.features, BidInput(None, offers, b.parameters));
      if check.Fail? then Err(check.error)
      else Ok(s.(bids := s.bids[k.value := b.(lotValues := ReplacedLotValues(b.lotValues, offers, now))]))
  }

  /**
   * A change of a bid's offers is refused outside tendering and for a bid the tender does not have;
   * an accepted one changes only that bid's offers, each within its lot's value and no two for the
   * same lot, and an offer whose amount is unchanged keeps its date.
   */
  lemma {:induction false} PatchBidKeepsCoherent(s: TenderState, bidId: string, offers: seq<LotValueInput>, now: nat)
    requires Coherent(s)
    ensures var step := PatchBidStep(s, bidId, offers, now);
            && (s.status != ActiveTendering ==> step == Err(ForbiddenInTenderStatus("update bid", TenderStatusName(s.status))))
            && (s.status == ActiveTendering && BidIndex(s.bids, bidId).None? ==> step == Err(NotFound("bid_id")))
            && (step.Ok? <==> && s.status == ActiveTendering && BidIndex(s.bids, bidId).Some?
                              && BidAcceptable(s.lots, s.items, s.features,
                                               BidInput(None, offers, s.bids[BidIndex(s.bids, bidId).value].parameters)))
            && Coherent(NextState(s, step))
            && (step.Ok? ==> && var i := BidIndex(s.bids, bidId).value;
                                var b := step.value.bids[i];
                                && step.value == s.(bids := s.bids[i := b])
                                && b.id == bidId && b.status == s.bids[i].status && OffersWithinLots(b.lotValues, s.lots)
                                && OffersNameDistinctLots(b.lotValues)
                                && forall k :: 0 <= k < |offers| ==>
                                     var prev := OfferFor(s.bids[i].lotValues, b.lotValues[k].relatedLot);
                                     b.lotValues[k].date == (if prev.Some? && prev.value.amount == b.lotValues[k].amount
                                                             then prev.value.date else now))
  {
    var step := PatchBidStep(s, bidId, offers, now);
    if step.Ok? {
      var i := BidIndex(s.bids, bidId).value;
      var b := step.value.bids[i];
      forall k | 0 <= k < |b.lotValues|
        ensures HasLot(s.lots, b.lotValues[k].relatedLot)
      {
        assert LotValueAcceptable(s.lots, offers[k]);
      }
    }
  }

  /** Withdrawing the bid `bidId`: it stays on record as deleted. */
  function DeleteBidStep(s: TenderState, bidId: string): Result<TenderState, Error> {
    var gate := WhileTendering(s.status, "delete bid");
    var k := BidIndex(s.bids, bidId);
    if gate.Fail? then Err(gate.error)
    else if k.None? then Err(NotFound("bid_id"))
    else Ok(s.(bids := s.bids[k.value := s.bids[k.value].(status := BidDeleted)]))
  }

  /** A withdrawal succeeds exactly for a bid of the tender while tendering, and the withdrawn bid then
      competes for no lot at either count; no other bid changes. */
  lemma DeleteBidKeepsCoherent(s: TenderState, bidId: string)
    requires Coherent(s)
    ensures var step := DeleteBidStep(s, bidId);
            && (step.Ok? <==> s.status == ActiveTendering && BidIndex(s.bids, bidId).Some?)
            && Coherent(NextState(s, step))
            && (step.Ok? ==> var i := BidIndex(s.bids, bidId).value;
                             && |step.value.bids| == |s.bids|
                             && (forall j :: 0 <= j < |s.bids| && j != i ==> step.value.bids[j] == s.bids[j])
                             && forall lotId, stage :: !Competes(step.value.bids[i], lotId, stage))
  {
  }

  // ---- The clock: end of tendering and end of the stand-still

  /**
   * The closing pass: every active lot with fewer than two competing bids becomes unsuccessful, dated
   * `now`, the offers for those lots are turned down, and the tender's status rolls up over its lots
   * from `base`, the status the tender moves to while some lot is still active.
   */
  function Closed(s: TenderState, stage: Stage, now: nat, base: TenderStatus): TenderState {
    var lots := CloseLots(s.lots, s.bids, stage, now);
    var status := RollupStatus(LotStatuses(lots), base);
    s.(lots := lots, bids := RejectClosedOffers(s.bids, ClosedIds(s.lots, s.bids, stage)),
       status := status, date := StampedDate(status, s.date, now))
  }

  /** A pass that changes only lot statuses and dates keeps the tender in order. */
  lemma {:induction false} SameTermsKeepCoherent(s: TenderState, lots: seq<Lot>, status: TenderStatus, date: Option<nat>)
    requires Coherent(s) && SameLotTerms(s.lots, lots) && (IsTerminal(status) ==> date.Some?)
    ensures Coherent(s.(lots := lots, status := status, date := date))
  {
    SameTermsKeepInvariant(s.lots, lots, s.items, s.value, s.minimalStep, s.guarantee);
  }

  /** The closing pass changes only lot statuses and dates, never those of a cancelled lot, and leaves
      every active lot with at least two competing bids. */
  lemma {:induction false} ClosingKeepsLotTerms(lots: seq<Lot>, bids: seq<Bid>, stage: Stage, now: nat)
    requires UniqueIds(lots)
    ensures var after := CloseLots(lots, bids, stage, now);
            && SameLotTerms(lots, after)
            && (forall i :: 0 <= i < |lots| && lots[i].status == LotCancelled ==> after[i].status == LotCancelled)
            && forall i :: 0 <= i < |after| && after[i].status == LotActive ==>
                 NumberOfBids(RejectClosedOffers(bids, ClosedIds(lots, bids, stage)), after[i].id, stage) >= 2
  {
    forall i | 0 <= i < |lots|
      ensures CloseLots(lots, bids, stage, now)[i].status == LotActive ==>
                NumberOfBids(RejectClosedOffers(bids, ClosedIds(lots, bids, stage)), lots[i].id, stage) >= 2
    {
      ClosingLeavesCompetedLots(lots, bids, stage, now, i);
    }
  }

  /** Lots that keep their ids and their cancelled statuses keep every cancelled lot cancelled. */
  lemma {:induction false} SameIdsKeepCancelled(before: seq<Lot>, after: seq<Lot>)
    requires UniqueIds(before) && |before| == |after|
    requires forall i :: 0 <= i < |before| ==> after[i].id == before[i].id
    requires forall i :: 0 <= i < |before| && before[i].status == LotCancelled ==> after[i].status == LotCancelled
    ensures KeepsCancelledLots(before, after)
  {
    forall i, j | 0 <= i < |before| && 0 <= j < |after| && before[i].id == after[j].id && before[i].status == LotCancelled
      ensures after[j].status == LotCancelled
    {
      assert before[j].id == before[i].id;
    }
  }

  /**
   * After the closing pass the tender is in order, no cancelled lot came back, and every lot still
   * active has at least two bids competing for it.
   */
  lemma {:induction false} ClosedKeepsCoherent(s: TenderState, stage: Stage, now: nat, base: TenderStatus)
    requires Coherent(s)
    ensures var c := Closed(s, stage, now, base);
            && Coherent(c) && KeepsCancelledLots(s.lots, c.lots)
            && forall i :: 0 <= i < |c.lots| && c.lots[i].status == LotActive ==> NumberOfBids(c.bids, c.lots[i].id, stage) >= 2
  {
    var c := Closed(s, stage, now, base);
    ClosingKeepsLotTerms(s.lots, s.bids, stage, now);
    SameIdsKeepCancelled(s.lots, c.lots);
    SameTermsKeepCoherent(s, c.lots, c.status, c.date);
  }

  /** When every lot of a tender is active and undersubscribed, the closing pass fails them all and
      the tender becomes unsuccessful, dated `now`. */
  lemma {:induction false} NoCompetitionFailsTender(s: TenderState, stage: Stage, now: nat, base: TenderStatus)
    requires |s.lots| > 0
    requires forall i :: 0 <= i < |s.lots| ==> Undersubscribed(s.lots[i], s.bids, stage)
    ensures Closed(s, stage, now, base).status == Unsuccessful && Closed(s, stage, now, base).date == Some(now)
  {
    var ss := LotStatuses(Closed(s, stage, now, base).lots);
    assert ss[0] == LotUnsuccessful;
    assert AllFailed(ss) && AllSettled(ss) && !AllCancelled(ss);
  }

  /**
   * The clock at the end of tendering: lots without competition close; when every lot has failed the
   * tender is unsuccessful, otherwise it moves to pre-qualification with one pending qualification
   * per pending offer, for an active lot, of every bid not withdrawn. In any other status the tick
   * changes nothing.
   */
  function EndTenderingStep(s: TenderState, now: nat): TenderState {
    if s.status != ActiveTendering then s
    else
      var c := Closed(s, EndOfTendering, now, ActivePreQualification);
      if IsTerminal(c.status) then c else c.(qualifications := QualificationsFor(c.bids, c.lots))
  }

  /**
   * The end of tendering puts each offer to qualification once: when the bids have distinct ids and
   * none of them offers twice for a lot, as every accepted bid request ensures, no two of the
   * qualifications generated are for the same bid and the same lot.
   */
  lemma {:induction false} EndTenderingReviewsEachOfferOnce(s: TenderState, now: nat)
    requires s.status == ActiveTendering && DistinctBidIds(s.bids)
    requires forall i :: 0 <= i < |s.bids| ==> OffersNameDistinctLots(s.bids[i].lotValues)
    ensures var next := EndTenderingStep(s, now);
            !IsTerminal(next.status) ==> OnePerOffer(next.qualifications)
  {
    var c := Closed(s, EndOfTendering, now, ActivePreQualification);
    var closed := ClosedIds(s.lots, s.bids, EndOfTendering);
    forall i | 0 <= i < |c.bids|
      ensures OffersNameDistinctLots(c.bids[i].lotValues)
    {
      assert c.bids[i] == WithoutClosedOffers(s.bids[i], closed);
      assert OffersNameDistinctLots(s.bids[i].lotValues);
    }
    assert DistinctBidIds(c.bids);
    QualificationsOnePerOffer(c.bids, c.lots);
  }

  /** The end of tendering keeps the tender in order, and every lot still active afterwards has at
      least two bids. */
  lemma EndTenderingKeepsCoherent(s: TenderState, now: nat)
    requires Coherent(s)
    ensures var next := EndTenderingStep(s, now);
            && Coherent(next) && KeepsCancelledLots(s.lots, next.lots)
            && (s.status == ActiveTendering ==>
                  forall i :: 0 <= i < |next.lots| && next.lots[i].status == LotActive ==>
                    NumberOfBids(next.bids, next.lots[i].id, EndOfTendering) >= 2)
            && (s.status != ActiveTendering ==> next == s)
  {
    if s.status == ActiveTendering {
      ClosedKeepsCoherent(s, EndOfTendering, now, ActivePreQualification);
    } else {
      KeepsOwnCancelledLots(s.lots);
    }
  }

  /** Every tender keeps its own cancelled lots. */
  lemma KeepsOwnCancelledLots(lots: seq<Lot>)
    requires UniqueIds(lots)
    ensures KeepsCancelledLots(lots, lots)
  {
  }

  /** The clock at the end of the stand-still: lots with fewer than two qualified bids close; when
      every lot has failed the tender is unsuccessful, otherwise the auctions begin. */
  function EndStandStillStep(s: TenderState, now: nat): TenderState {
    if s.status != ActivePreQualificationStandStill then s else Closed(s, EndOfStandStill, now, ActiveAuction)
  }

  /** The end of the stand-still keeps the tender in order, and every lot still active afterwards has at
      least two qualified bids. */
  lemma EndStandStillKeepsCoherent(s: TenderState, now: nat)
    requires Coherent(s)
    ensures var next := EndStandStillStep(s, now);
            && Coherent(next) && KeepsCancelledLots(s.lots, next.lots)
            && (s.status == ActivePreQualificationStandStill ==>
                  forall i :: 0 <= i < |next.lots| && next.lots[i].status == LotActive ==>
                    NumberOfBids(next.bids, next.lots[i].id, EndOfStandStill) >= 2)
            && (s.status != ActivePreQualificationStandStill ==> next == s)
  {
    if s.status == ActivePreQualificationStandStill {
      ClosedKeepsCoherent(s, EndOfStandStill, now, ActiveAuction);
    } else {
      KeepsOwnCancelledLots(s.lots);
    }
  }

  // ---- Pre-qualification

  /** The bids with every bid `bidId` after the decision on its offer for the lot. */
  function WithDecision(bids: seq<Bid>, bidId: string, lotId: LotId, approve: bool): (r: seq<Bid>)
    ensures |r| == |bids|
    ensures forall i :: 0 <= i < |bids| && bids[i].id != bidId ==> r[i] == bids[i]
  {
    seq(|bids|, i requires 0 <= i < |bids| =>
      if bids[i].id != bidId then bids[i] else if approve then ApprovedBid(bids[i], lotId) else RejectedBid(bids[i], lotId))
  }

  /** The owner's decision on the qualification at position `index`. */
  function DecideQualificationStep(s: TenderState, index: nat, d: Decision): Result<TenderState, Error> {
    if s.status != ActivePreQualification then
      Err(ForbiddenInTenderStatus("update qualification", TenderStatusName(s.status)))
    else if index >= |s.qualifications| then Err(NotFound("qualification_id"))
    else
      var q := s.qualifications[index];
      if q.status != QualificationPending then Err(AlreadyDecided)
      else if d.Approve? && !(d.qualified && d.eligible) then Err(QualifiedEligibleRequired)
      else
        Ok(s.(qualifications := s.qualifications[index := q.(status := if d.Approve? then QualificationActive
                                                                          else QualificationUnsuccessful)],
              bids := WithDecision(s.bids, q.bidId, q.lotId, d.Approve?)))
  }

  /**
   * A decision is taken exactly on a pending qualification during pre-qualification, and an approval
   * only when the bidder is declared qualified and eligible; an approved offer then counts at the end
   * of the stand-still and a rejected one no longer does. The lots are untouched.
   */
  lemma {:induction false} DecideQualificationKeepsCoherent(s: TenderState, index: nat, d: Decision)
    requires Coherent(s)
    ensures var step := DecideQualificationStep(s, index, d);
            && (step.Ok? <==> && s.status == ActivePreQualification && index < |s.qualifications|
                              && s.qualifications[index].status == QualificationPending
                              && (d.Approve? ==> d.qualified && d.eligible))
            && Coherent(NextState(s, step)) && NextState(s, step).lots == s.lots
    ensures var step := DecideQualificationStep(s, index, d);
            step.Ok? ==>
              var q := s.qualifications[index];
              forall i :: 0 <= i < |s.bids| && s.bids[i].id == q.bidId && s.bids[i].status != BidDeleted
                          && (exists k :: 0 <= k < |s.bids[i].lotValues| && s.bids[i].lotValues[k].relatedLot == q.lotId) ==>
                (Competes(step.value.bids[i], q.lotId, EndOfStandStill) <==> d.Approve?)
  {
    var step := DecideQualificationStep(s, index, d);
    if step.Ok? {
      var q := s.qualifications[index];
      forall i | 0 <= i < |s.bids| && s.bids[i].id == q.bidId && s.bids[i].status != BidDeleted
                 && (exists k :: 0 <= k < |s.bids[i].lotValues| && s.bids[i].lotValues[k].relatedLot == q.lotId)
        ensures Competes(step.value.bids[i], q.lotId, EndOfStandStill) <==> d.Approve?
      {
        QualificationDecisionEffects(s.bids[i], q.lotId, q.lotId + "'");
      }
    }
  }

  /** Whether a qualification for an active lot is still pending. */
  predicate QualificationOutstanding(qs: seq<Qualification>, lots: seq<Lot>) {
    exists i :: 0 <= i < |qs| && qs[i].status == QualificationPending && LotIsActive(lots, qs[i].lotId)
  }

  /** The owner's switch to the stand-still, refused while a qualification for an active lot is pending. */
  function StartStandStillStep(s: TenderState): Result<TenderState, Error> {
    if s.status != ActivePreQualification then
      Err(ForbiddenInTenderStatus("switch to active.pre-qualification.stand-still", TenderStatusName(s.status)))
    else if QualificationOutstanding(s.qualifications, s.lots) then Err(QualificationsPending)
    else Ok(s.(status := ActivePreQualificationStandStill))
  }

  /** The stand-still begins exactly when every qualification for an active lot has been decided. */
  lemma StartStandStillKeepsCoherent(s: TenderState)
    requires Coherent(s)
    ensures var step := StartStandStillStep(s);
            && (step.Ok? <==> s.status == ActivePreQualification && !QualificationOutstanding(s.qualifications, s.lots))
            && (step.Ok? ==> step.value.status == ActivePreQualificationStandStill)
            && Coherent(NextState(s, step)) && NextState(s, step).lots == s.lots
  {
  }

  // ---- Settling a lot

  /** The lot at position `i` settles with `status`, dated `now`, and the tender rolls up over its lots
      from the status it had. */
  function SettleLot(s: TenderState, i: nat, status: LotStatus, now: nat): TenderState
    requires i < |s.lots|
  {
    var lots := s.lots[i := s.lots[i].(status := status, date := Some(now))];
    var rolled := RollupStatus(LotStatuses(lots), s.status);
    s.(lots := lots, status := rolled, date := StampedDate(rolled, s.date, now))
  }

  /** Settling an active lot changes only its status and date, and no cancelled lot. */
  lemma {:induction false} SettlingKeepsLotTerms(lots: seq<Lot>, i: nat, status: LotStatus, now: nat)
    requires UniqueIds(lots) && i < |lots| && lots[i].status == LotActive
    ensures var after := lots[i := lots[i].(status := status, date := Some(now))];
            SameLotTerms(lots, after) && KeepsCancelledLots(lots, after)
  {
    SameIdsKeepCancelled(lots, lots[i := lots[i].(status := status, date := Some(now))]);
  }

  /** Settling an active lot keeps the tender in order and every cancelled lot cancelled. */
  lemma {:induction false} SettleLotKeepsCoherent(s: TenderState, i: nat, status: LotStatus, now: nat)
    requires Coherent(s) && i < |s.lots| && s.lots[i].status == LotActive
    ensures Coherent(SettleLot(s, i, status, now)) && KeepsCancelledLots(s.lots, SettleLot(s, i, status, now).lots)
  {
    var t := SettleLot(s, i, status, now);
    SettlingKeepsLotTerms(s.lots, i, status, now);
    SameTermsKeepCoherent(s, t.lots, t.status, t.date);
  }

  /** While another lot is still active, settling a lot leaves the tender's status as it was. */
  lemma {:induction false} SettlingKeepsStatusWhileALotIsActive(s: TenderState, i: nat, status: LotStatus, now: nat, k: nat)
    requires i < |s.lots| && k < |s.lots| && k != i && s.lots[k].status == LotActive
    ensures SettleLot(s, i, status, now).status == s.status
  {
    var t := SettleLot(s, i, status, now);
    RollupKeepsStatusWhileALotIsActive(LotStatuses(t.lots), s.status, k);
  }

  /** Cancelling the last lot not yet cancelled cancels the tender, dated `now`. */
  lemma {:induction false} CancellingEveryLotCancelsTender(s: TenderState, i: nat, now: nat)
    requires i < |s.lots|
    requires forall j :: 0 <= j < |s.lots| && j != i ==> s.lots[j].status == LotCancelled
    ensures SettleLot(s, i, LotCancelled, now).status == Cancelled && SettleLot(s, i, LotCancelled, now).date == Some(now)
  {
    var ss := LotStatuses(SettleLot(s, i, LotCancelled, now).lots);
    assert AllCancelled(ss);
  }

  /** Completing the last lot when every other lot is complete completes the tender, dated `now`. */
  lemma {:induction false} CompletingEveryLotCompletesTender(s: TenderState, i: nat, now: nat)
    requires i < |s.lots|
    requires forall j :: 0 <= j < |s.lots| && j != i ==> s.lots[j].status == LotComplete
    ensures SettleLot(s, i, LotComplete, now).status == Complete && SettleLot(s, i, LotComplete, now).date == Some(now)
  {
    var ss := LotStatuses(SettleLot(s, i, LotComplete, now).lots);
    assert ss[i] == LotComplete;
    assert !AllFailed(ss) && AllSettled(ss);
  }

  // ---- Auctions

  /** Whether every active lot's auction has reported its results. */
  predicate AllAuctionsEnded(lots: seq<Lot>) {
    forall i :: 0 <= i < |lots| && lots[i].status == LotActive ==> lots[i].auctionEnded
  }

  /** The auction of the lot `lotId` reports its results; once every active lot's auction is over,
      each active lot gets a pending award for its winning offer and the awarding begins. */
  function RecordAuctionStep(s: TenderState, lotId: LotId): Result<TenderState, Error> {
    if s.status != ActiveAuction then Err(ForbiddenInTenderStatus("report auction results", TenderStatusName(s.status)))
    else
      match IndexOf(s.lots, lotId)
      case None => Err(NotFound("lot_id"))
      case Some(i) =>
        if s.lots[i].status != LotActive then Err(LotNotActive("report auction results"))
        else if s.lots[i].auctionEnded then Err(AlreadyDecided)
        else
          var lots := s.lots[i := s.lots[i].(auctionEnded := true)];
          if AllAuctionsEnded(lots) then Ok(s.(lots := lots, status := ActiveQualification, awards := FirstAwards(lots, s.bids)))
          else Ok(s.(lots := lots))
  }

  /** The lots after an auction reports keep their terms, and the active lots stay active. */
  lemma {:induction false} AuctionFlagKeepsLots(lots: seq<Lot>, i: nat)
    requires UniqueIds(lots) && i < |lots|
    ensures var after := lots[i := lots[i].(auctionEnded := true)];
            && SameLotTerms(lots, after) && KeepsCancelledLots(lots, after) && UniqueIds(after)
            && forall j :: 0 <= j < |after| && after[j].status == LotActive ==> LotIsActive(after, after[j].id)
  {
    var after := lots[i := lots[i].(auctionEnded := true)];
    SameIdsKeepCancelled(lots, after);
    SameTermsKeepInvariant(lots, after, [], Value(0, "", false), Value(0, "", false), None);
    forall j | 0 <= j < |after| && after[j].status == LotActive
      ensures LotIsActive(after, after[j].id)
    {
      var k := IndexOf(after, after[j].id).value;
      assert k == j;
    }
  }

  /** An auction reports only during the auction period, once, for an active lot of the tender. */
  lemma RecordAuctionRefusals(s: TenderState, lotId: LotId)
    ensures var step := RecordAuctionStep(s, lotId);
            && (s.status == ActiveAuction && !HasLot(s.lots, lotId) ==> step == Err(NotFound("lot_id")))
            && (step.Ok? <==> && s.status == ActiveAuction && LotIsActive(s.lots, lotId)
                              && !s.lots[IndexOf(s.lots, lotId).value].auctionEnded)
  {
  }

  /** A reported auction keeps the tender in order. */
  lemma {:induction false} RecordAuctionKeepsCoherent(s: TenderState, lotId: LotId)
    requires Coherent(s)
    ensures var step := RecordAuctionStep(s, lotId);
            Coherent(NextState(s, step)) && KeepsCancelledLots(s.lots, NextState(s, step).lots)
  {
    var step := RecordAuctionStep(s, lotId);
    if step.Ok? {
      var i := IndexOf(s.lots, lotId).value;
      var lots := s.lots[i := s.lots[i].(auctionEnded := true)];
      AuctionFlagKeepsLots(s.lots, i);
      SameTermsKeepCoherent(s, lots, s.status, s.date);
      assert Coherent(s.(lots := lots));
      assert step.value.lots == lots && step.value.date == s.date;
    } else {
      KeepsOwnCancelledLots(s.lots);
    }
  }

  /**
   * The awarding begins exactly when the last active lot's auction has reported. Then each active lot
   * with a winning offer has a pending award for that offer, every award is such an award of an active
   * lot, and no lot has two.
   */
  lemma {:induction false} LastAuctionStartsAwarding(s: TenderState, lotId: LotId)
    requires UniqueIds(s.lots) && RecordAuctionStep(s, lotId).Ok?
    ensures var t := RecordAuctionStep(s, lotId).value;
            && (t.status == ActiveQualification <==> AllAuctionsEnded(t.lots))
            && (t.status == ActiveQualification ==>
                  && (forall j :: 0 <= j < |t.lots| && t.lots[j].status == LotActive && BestOffer(s.bids, t.lots[j].id, {}).Some? ==>
                        PendingAward(t.lots[j].id, BestOffer(s.bids, t.lots[j].id, {}).value) in t.awards)
                  && (forall k :: 0 <= k < |t.awards| ==>
                        t.awards[k].status == AwardPending && LotIsActive(t.lots, t.awards[k].lotId))
                  && OneLiveAwardPerLot(t.awards))
  {
    var t := RecordAuctionStep(s, lotId).value;
    AuctionFlagKeepsLots(s.lots, IndexOf(s.lots, lotId).value);
    if t.status == ActiveQualification {
      assert t.awards == FirstAwards(t.lots, s.bids);
      forall j | 0 <= j < |t.lots| && t.lots[j].status == LotActive && BestOffer(s.bids, t.lots[j].id, {}).Some?
        ensures PendingAward(t.lots[j].id, BestOffer(s.bids, t.lots[j].id, {}).value) in t.awards
      {
        FirstAwardsCoverActiveLots(t.lots, s.bids, j);
      }
      forall k | 0 <= k < |t.awards|
        ensures t.awards[k].status == AwardPending && LotIsActive(t.lots, t.awards[k].lotId)
      {
        FirstAwardsComeFromLots(t.lots, s.bids, k);
      }
      FirstAwardsOneLivePerLot(t.lots, s.bids);
    }
  }

  /** A reported auction leaves no lot with two live awards. */
  lemma RecordAuctionKeepsOneLiveAward(s: TenderState, lotId: LotId)
    requires UniqueIds(s.lots) && OneLiveAwardPerLot(s.awards)
    ensures OneLiveAwardPerLot(NextState(s, RecordAuctionStep(s, lotId)).awards)
  {
    if RecordAuctionStep(s, lotId).Ok? {
      LastAuctionStartsAwarding(s, lotId);
    }
  }

  // ---- Awards and contracts

  /** The status the awarding stands at, rolled up over the lots: qualification while some active lot
      waits for a decision on its award, awarded otherwise. */
  function AwardingStatus(lots: seq<Lot>, awards: seq<Award>): TenderStatus {
    RollupStatus(LotStatuses(lots), if AnyPendingAward(awards, lots) then ActiveQualification else ActiveAwarded)
  }

  /** The tender after an awarding step. */
  function Awarded(s: TenderState, lots: seq<Lot>, awards: seq<Award>, contracts: seq<Contract>, now: nat): TenderState {
    var status := AwardingStatus(lots, awards);
    s.(lots := lots, awards := awards, contracts := contracts, status := status, date := StampedDate(status, s.date, now))
  }

  /**
   * The owner's decision on the award at position `index`. An approval calls for a contract; a
   * rejection passes the lot to the best offer among the bids not yet turned down for it or, when there
   * is none, makes the lot unsuccessful.
   */
  function DecideAwardStep(s: TenderState, index: nat, d: Decision, now: nat): Result<TenderState, Error> {
    if s.status != ActiveQualification && s.status != ActiveAwarded then
      Err(ForbiddenInTenderStatus("update award", TenderStatusName(s.status)))
    else if index >= |s.awards| then Err(NotFound("award_id"))
    else
      var a := s.awards[index];
      if a.status != AwardPending then Err(AlreadyDecided)
      else
        match IndexOf(s.lots, a.lotId)
        case None => Err(LotNotActive("update award"))
        case Some(i) =>
          if s.lots[i].status != LotActive then Err(LotNotActive("update award"))
          else if d.Approve? then
            if !(d.qualified && d.eligible) then Err(QualifiedEligibleRequired)
            else Ok(Awarded(s, s.lots, s.awards[index := a.(status := AwardActive)],
                            s.contracts + [Contract(index, a.lotId, ContractPending)], now))
          else
            var rejected := s.awards[index := a.(status := AwardUnsuccessful)];
            var next := BestOffer(s.bids, a.lotId, TurnedDown(rejected, a.lotId));
            if next.Some? then Ok(Awarded(s, s.lots, rejected + [PendingAward(a.lotId, next.value)], s.contracts, now))
            else Ok(Awarded(s, s.lots[i := s.lots[i].(status := LotUnsuccessful, date := Some(now))], rejected, s.contracts, now))
  }

  /** A decision is taken exactly during the awarding, on a pending award of an active lot, and an
      approval needs the bidder found qualified and eligible; each refusal has its own error. */
  lemma DecideAwardRefusals(s: TenderState, index: nat, d: Decision, now: nat)
    ensures var step := DecideAwardStep(s, index, d, now);
            var awarding := s.status == ActiveQualification || s.status == ActiveAwarded;
            && (step.Ok? <==> && awarding
                              && index < |s.awards| && s.awards[index].status == AwardPending
                              && LotIsActive(s.lots, s.awards[index].lotId)
                              && (d.Approve? ==> d.qualified && d.eligible))
            && (!awarding ==> step == Err(ForbiddenInTenderStatus("update award", TenderStatusName(s.status))))
            && (awarding && index >= |s.awards| ==> step == Err(NotFound("award_id")))
            && (awarding && index < |s.awards| && s.awards[index].status != AwardPending ==> step == Err(AlreadyDecided))
            && (&& awarding && index < |s.awards| && s.awards[index].status == AwardPending
                && !LotIsActive(s.lots, s.awards[index].lotId)
                ==> step == Err(LotNotActive("update award")))
            && (&& awarding && index < |s.awards| && s.awards[index].status == AwardPending
                && LotIsActive(s.lots, s.awards[index].lotId) && d.Approve? && !(d.qualified && d.eligible)
                ==> step == Err(QualifiedEligibleRequired))
  {
  }

  /** An awarding step that leaves the lots as they were keeps the tender in order. */
  lemma {:induction false} AwardingKeepsCoherent(s: TenderState, awards: seq<Award>, contracts: seq<Contract>, now: nat)
    requires Coherent(s)
    ensures Coherent(Awarded(s, s.lots, awards, contracts, now)) && KeepsCancelledLots(s.lots, s.lots)
  {
    var t := Awarded(s, s.lots, awards, contracts, now);
    SameTermsKeepCoherent(s, t.lots, t.status, t.date);
    KeepsOwnCancelledLots(s.lots);
  }

  /** An awarding step that fails the active lot at position `i` keeps the tender in order. */
  lemma {:induction false} FailingLotKeepsCoherent(s: TenderState, i: nat, awards: seq<Award>, contracts: seq<Contract>, now: nat)
    requires Coherent(s) && i < |s.lots| && s.lots[i].status == LotActive
    ensures var lots := s.lots[i := s.lots[i].(status := LotUnsuccessful, date := Some(now))];
            Coherent(Awarded(s, lots, awards, contracts, now)) && KeepsCancelledLots(s.lots, lots)
  {
    var lots := s.lots[i := s.lots[i].(status := LotUnsuccessful, date := Some(now))];
    var status := AwardingStatus(lots, awards);
    SettlingKeepsLotTerms(s.lots, i, LotUnsuccessful, now);
    SameTermsKeepCoherent(s, lots, status, StampedDate(status, s.date, now));
  }

  /** A decision on an award keeps the tender in order and every cancelled lot cancelled. */
  lemma {:induction false} DecideAwardKeepsCoherent(s: TenderState, index: nat, d: Decision, now: nat)
    requires Coherent(s)
    ensures var step := DecideAwardStep(s, index, d, now);
            Coherent(NextState(s, step)) && KeepsCancelledLots(s.lots, NextState(s, step).lots)
  {
    var step := DecideAwardStep(s, index, d, now);
    if step.Ok? {
      var a := s.awards[index];
      var i := IndexOf(s.lots, a.lotId).value;
      var rejected := s.awards[index := a.(status := AwardUnsuccessful)];
      var next := BestOffer(s.bids, a.lotId, TurnedDown(rejected, a.lotId));
      if d.Approve? {
        AwardingKeepsCoherent(s, s.awards[index := a.(status := AwardActive)],
                              s.contracts + [Contract(index, a.lotId, ContractPending)], now);
      } else if next.Some? {
        AwardingKeepsCoherent(s, rejected + [PendingAward(a.lotId, next.value)], s.contracts, now);
      } else {
        FailingLotKeepsCoherent(s, i, rejected, s.contracts, now);
      }
    } else {
      KeepsOwnCancelledLots(s.lots);
    }
  }

  /**
   * A decision on an award leaves no lot with two live awards: an approval only turns the pending
   * award active, and a rejection turns it down before the lot passes to a new pending award.
   */
  lemma {:induction false} DecideAwardKeepsOneLiveAward(s: TenderState, index: nat, d: Decision, now: nat)
    requires OneLiveAwardPerLot(s.awards)
    ensures OneLiveAwardPerLot(NextState(s, DecideAwardStep(s, index, d, now)).awards)
  {
    var step := DecideAwardStep(s, index, d, now);
    if step.Ok? {
      var a := s.awards[index];
      var after := step.value.awards;
      var rejected := s.awards[index := a.(status := AwardUnsuccessful)];
      if d.Approve? {
        assert after == s.awards[index := a.(status := AwardActive)];
        forall j, k | 0 <= j < k < |after| && after[j].lotId == after[k].lotId
          ensures after[j].status == AwardUnsuccessful || after[k].status == AwardUnsuccessful
        {
          assert s.awards[j].lotId == s.awards[k].lotId;
        }
      } else {
        assert after[..|rejected|] == rejected;
        forall j | 0 <= j < |rejected| && rejected[j].lotId == a.lotId
          ensures rejected[j].status == AwardUnsuccessful
        {
          if j != index {
            assert s.awards[j].lotId == s.awards[index].lotId;
          }
        }
        forall j, k | 0 <= j < k < |after| && after[j].lotId == after[k].lotId
          ensures after[j].status == AwardUnsuccessful || after[k].status == AwardUnsuccessful
        {
          if k < |rejected| {
            assert after[j] == rejected[j] && after[k] == rejected[k];
            if j != index && k != index {
              assert s.awards[j].lotId == s.awards[k].lotId;
            }
          } else {
            assert after[j] == rejected[j] && after[k].lotId == a.lotId;
          }
        }
      }
    }
  }

  /** An approved award becomes active and calls for a pending contract for its lot; the lots stay as
      they were. */
  lemma ApprovalCallsForContract(s: TenderState, index: nat, d: Decision, now: nat)
    requires DecideAwardStep(s, index, d, now).Ok? && d.Approve?
    ensures var t := DecideAwardStep(s, index, d, now).value;
            && t.lots == s.lots && t.awards == s.awards[index := s.awards[index].(status := AwardActive)]
            && t.contracts == s.contracts + [Contract(index, s.awards[index].lotId, ContractPending)]
  {
  }

  /**
   * A rejected award passes the lot on: either to a new pending award for the best offer among the
   * bids never turned down for the lot (so never back to the rejected bid, and to no offer another
   * remaining offer beats), or, when no such offer is left, the lot fails, dated `now`.
   */
  lemma {:induction false} RejectionPassesLotOn(s: TenderState, index: nat, now: nat)
    requires DecideAwardStep(s, index, Reject, now).Ok?
    ensures var t := DecideAwardStep(s, index, Reject, now).value;
            var a := s.awards[index];
            var rejected := s.awards[index := a.(status := AwardUnsuccessful)];
            var excluded := TurnedDown(rejected, a.lotId);
            && t.awards[..|s.awards|] == rejected
            && (|t.awards| == |s.awards| + 1 ==>
                  var n := t.awards[|s.awards|];
                  && n.lotId == a.lotId && n.status == AwardPending && n.bidId != a.bidId
                  && (forall j :: 0 <= j < |s.awards| && rejected[j].lotId == a.lotId && rejected[j].status == AwardUnsuccessful
                        ==> rejected[j].bidId != n.bidId)
                  && (forall k :: 0 <= k < |s.bids| && AwardableOffer(s.bids[k], a.lotId, excluded).Some? ==>
                        AwardableOffer(s.bids[k], a.lotId, excluded).value.amount >= n.amount))
            && (|t.awards| == |s.awards| ==>
                  && BestOffer(s.bids, a.lotId, excluded).None?
                  && var i := IndexOf(s.lots, a.lotId).value;
                     t.lots == s.lots[i := s.lots[i].(status := LotUnsuccessful, date := Some(now))])
  {
    var a := s.awards[index];
    var rejected := s.awards[index := a.(status := AwardUnsuccessful)];
    var excluded := TurnedDown(rejected, a.lotId);
    var next := BestOffer(s.bids, a.lotId, excluded);
    if next.Some? {
      NextAwardSkipsTurnedDown(rejected, s.bids, a.lotId);
      NothingBeatsBestOffer(s.bids, a.lotId, excluded);
      assert rejected[index].bidId == a.bidId;
    }
  }

  /** Signing the contract at position `index` completes its lot; the tender rolls up over its lots. */
  function SignContractStep(s: TenderState, index: nat, now: nat): Result<TenderState, Error> {
    if s.status != ActiveQualification && s.status != ActiveAwarded then
      Err(ForbiddenInTenderStatus("update contract", TenderStatusName(s.status)))
    else if index >= |s.contracts| then Err(NotFound("contract_id"))
    else
      var c := s.contracts[index];
      if c.status != ContractPending then Err(AlreadyDecided)
      else
        match IndexOf(s.lots, c.lotId)
        case None => Err(LotNotActive("update contract"))
        case Some(i) =>
          if s.lots[i].status != LotActive then Err(LotNotActive("update contract"))
          else Ok(SettleLot(s.(contracts := s.contracts[index := c.(status := ContractActive)]), i, LotComplete, now))
  }

  /** A contract is signed only once, for an active lot, which it completes; the tender stays in order. */
  lemma {:induction false} SignContractKeepsCoherent(s: TenderState, index: nat, now: nat)
    requires Coherent(s)
    ensures var step := SignContractStep(s, index, now);
            var awarding := s.status == ActiveQualification || s.status == ActiveAwarded;
            && (step.Ok? <==> && awarding && index < |s.contracts| && s.contracts[index].status == ContractPending
                              && LotIsActive(s.lots, s.contracts[index].lotId))
            && (!awarding ==> step == Err(ForbiddenInTenderStatus("update contract", TenderStatusName(s.status))))
            && (awarding && index >= |s.contracts| ==> step == Err(NotFound("contract_id")))
            && (awarding && index < |s.contracts| && s.contracts[index].status != ContractPending ==> step == Err(AlreadyDecided))
            && (&& awarding && index < |s.contracts| && s.contracts[index].status == ContractPending
                && !LotIsActive(s.lots, s.contracts[index].lotId)
                ==> step == Err(LotNotActive("update contract")))
            && (step.Ok? ==> step.value.lots[IndexOf(s.lots, s.contracts[index].lotId).value].status == LotComplete)
            && Coherent(NextState(s, step)) && KeepsCancelledLots(s.lots, NextState(s, step).lots)
  {
    var step := SignContractStep(s, index, now);
    if step.Ok? {
      var i := IndexOf(s.lots, s.contracts[index].lotId).value;
      SettleLotKeepsCoherent(s.(contracts := s.contracts[index := s.contracts[index].(status := ContractActive)]), i, LotComplete, now);
    } else {
      KeepsOwnCancelledLots(s.lots);
    }
  }

  // ---- Lot cancellations

  /** Adds a cancellation of the lot `lotId`; an active one cancels the lot at once. Only an active lot
      of a tender not yet finished can be cancelled. */
  function AddCancellationStep(s: TenderState, lotId: LotId, activate: bool, now: nat): Result<TenderState, Error> {
    if IsTerminal(s.status) then Err(ForbiddenInTenderStatus("add cancellation", TenderStatusName(s.status)))
    else
      match IndexOf(s.lots, lotId)
      case None => Err(RelatedLotNotFound)
      case Some(i) =>
        if s.lots[i].status != LotActive then Err(LotNotActive("add cancellation"))
        else
          var t := s.(cancellations := s.cancellations + [Cancellation(lotId, if activate then CancellationActive else CancellationPending)]);
          if activate then Ok(SettleLot(t, i, LotCancelled, now)) else Ok(t)
  }

  /** A cancellation is added only for an active lot of a tender not yet finished; an active one cancels
      the lot. The tender stays in order. */
  lemma {:induction false} AddCancellationKeepsCoherent(s: TenderState, lotId: LotId, activate: bool, now: nat)
    requires Coherent(s)
    ensures var step := AddCancellationStep(s, lotId, activate, now);
            && (step.Ok? <==> !IsTerminal(s.status) && LotIsActive(s.lots, lotId))
            && (!IsTerminal(s.status) && !HasLot(s.lots, lotId) ==> step == Err(RelatedLotNotFound))
            && (step.Ok? && activate ==> step.value.lots[IndexOf(s.lots, lotId).value].status == LotCancelled)
            && Coherent(NextState(s, step)) && KeepsCancelledLots(s.lots, NextState(s, step).lots)
  {
    var step := AddCancellationStep(s, lotId, activate, now);
    if step.Ok? {
      var i := IndexOf(s.lots, lotId).value;
      var t := s.(cancellations := s.cancellations + [Cancellation(lotId, if activate then CancellationActive else CancellationPending)]);
      if activate {
        SettleLotKeepsCoherent(t, i, LotCancelled, now);
      } else {
        KeepsOwnCancelledLots(s.lots);
      }
    } else {
      KeepsOwnCancelledLots(s.lots);
    }
  }

  /** Changes the status of the cancellation at position `index`; only a cancellation of an active lot
      can change, so once its lot is cancelled a cancellation can never be taken back. */
  function PatchCancellationStep(s: TenderState, index: nat, activate: bool, now: nat): Result<TenderState, Error> {
    if IsTerminal(s.status) then Err(ForbiddenInTenderStatus("update cancellation", TenderStatusName(s.status)))
    else if index >= |s.cancellations| then Err(NotFound("cancellation_id"))
    else
      var c := s.cancellations[index];
      match IndexOf(s.lots, c.relatedLot)
      case None => Err(LotNotActive("update cancellation"))
      case Some(i) =>
        if s.lots[i].status != LotActive then Err(LotNotActive("update cancellation"))
        else
          var t := s.(cancellations := s.cancellations[index := c.(status := if activate then CancellationActive else CancellationPending)]);
          if activate then Ok(SettleLot(t, i, LotCancelled, now)) else Ok(t)
  }

  /** A cancellation changes only while its lot is active; activating it cancels the lot. The tender
      stays in order. */
  lemma {:induction false} PatchCancellationKeepsCoherent(s: TenderState, index: nat, activate: bool, now: nat)
    requires Coherent(s)
    ensures var step := PatchCancellationStep(s, index, activate, now);
            && (step.Ok? <==> !IsTerminal(s.status) && index < |s.cancellations|
                              && LotIsActive(s.lots, s.cancellations[index].relatedLot))
            && Coherent(NextState(s, step)) && KeepsCancelledLots(s.lots, NextState(s, step).lots)
  {
    var step := PatchCancellationStep(s, index, activate, now);
    if step.Ok? {
      var c := s.cancellations[index];
      var i := IndexOf(s.lots, c.relatedLot).value;
      var t := s.(cancellations := s.cancellations[index := c.(status := if activate then CancellationActive else CancellationPending)]);
      if activate {
        SettleLotKeepsCoherent(t, i, LotCancelled, now);
      } else {
        KeepsOwnCancelledLots(s.lots);
      }
    } else {
      KeepsOwnCancelledLots(s.lots);
    }
  }

  /** A cancelled lot cannot be cancelled again, nor can a cancellation of it change. */
  lemma CancelledLotStaysCancelled(s: TenderState, i: nat, index: nat, activate: bool, now: nat)
    requires UniqueIds(s.lots) && i < |s.lots| && s.lots[i].status == LotCancelled && !IsTerminal(s.status)
    ensures AddCancellationStep(s, s.lots[i].id, activate, now) == Err(LotNotActive("add cancellation"))
    ensures index < |s.cancellations| && s.cancellations[index].relatedLot == s.lots[i].id ==>
              PatchCancellationStep(s, index, activate, now) == Err(LotNotActive("update cancellation"))
  {
    assert IndexOf(s.lots, s.lots[i].id) == Some(i);
  }

  /** Once a tender is unsuccessful, every change to its lots and bids is refused, naming the status. */
  lemma UnsuccessfulTenderRefuses(s: TenderState, input: LotInput, freshId: LotId, id: LotId, patch: LotPatch,
                                  bidId: string, bid: BidInput, offers: seq<LotValueInput>, now: nat)
    requires s.status == Unsuccessful && UniqueIds(s.lots)
    ensures AddLotStep(s, input, freshId) == Err(ForbiddenInTenderStatus("add lot", "unsuccessful"))
    ensures PatchLotStep(s, id, patch) == Err(ForbiddenInTenderStatus("update lot", "unsuccessful"))
    ensures DeleteLotStep(s, id) == Err(ForbiddenInTenderStatus("delete lot", "unsuccessful"))
    ensures AddBidStep(s, bidId, bid, now) == Err(ForbiddenInTenderStatus("add bid", "unsuccessful"))
    ensures PatchBidStep(s, bidId, offers, now) == Err(ForbiddenInTenderStatus("update bid", "unsuccessful"))
  {
  }
}
