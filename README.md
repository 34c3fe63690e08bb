# Lot-partitioned tender of the open (EU) procedure

This project models, in Dafny, a tender of the open EU procedure that is split into lots. The
behaviour is the one pinned down by the lot tests of `openprocurement.tender.openeu`. The tender
holds:

- lots, items, features and bids;
- lot cancellations, qualifications, awards and contracts;
- its own value, minimal step and guarantee, which are derived from the lots.

Every request drives the tender one step: an owner's edit, a bid, a chronograph tick, an auction
result, or a decision on a qualification, an award or a contract. A step either refuses the request
with the error the service reports and leaves the tender as it was, or gives the tender after the
request.

The project has two layers:

- **Values and rules** (modules `Money`, `Statuses`, `Errors`, `Lots`, `Aggregation`, `Features`,
  `Bids`, `Qualifications`, `Awards`, `TenderModel`). Lots, bids, features and the rest are
  datatypes. The validators and rollups are functions. Each request is a step function over a
  `TenderState` value, with lemmas saying what each step promises. The invariant `Coherent` says:
  - lot ids are unique;
  - items name lots;
  - the tender's value, minimal step and guarantee agree with the lots;
  - the lots carry the tender's currencies and VAT flags;
  - a tender in a terminal status carries a date.

  Every step is proved to keep `Coherent` and never to revive a cancelled lot.
- **The tender object** (module `Tenders`). `Tender` is a class whose fields the requests update in
  place. There is one method per request. Each method is proved to leave the object in exactly the
  state that the matching step function gives, and to keep `Valid()`. The loops of the service are
  methods with loop invariants, each proved equal to the function that specifies it:
  - summing the lots;
  - taking their minimum;
  - pushing the tender's currencies down to every lot;
  - counting the bids per lot;
  - closing the lots without competition;
  - generating qualifications;
  - finding the best offer.

Money amounts are natural numbers. Feature values are whole hundredths, so 0.3 is 30. The clock
is a `now: nat` parameter of every step that stamps a date. An id the service generates is a
parameter too.

The model reads the tests as follows:

- **Guarantee overwrites.** The tender's own guarantee amount is overwritten by the sum of its lots'
  guarantees, not added to it. A tender guarantee of 100 plus one lot guarantee of 20 gives 20
  (lot.py:529-550). A direct patch of the amount is accepted and has no effect (lot.py:585-587); it is
  not refused.
- **A bid may equal the lot value.** A bid offer equal to the lot value is accepted; only a larger one
  is refused (lot.py:708-714, 740-747, which bids 500 on a lot of value 500).
- **Sums run over all lots.** The tender value and minimal step are the sum and the minimum over
  the lots (lot.py:622-628). The tests show this with active lots only; counting lots of every status
  is this model's choice (see "## Left out").
- **Default guarantee currency.** A lot guarantee that states no currency is in UAH (lot.py:165-173,
  217-221).

## Model

Paths are relative to the repository root; all cited lines are in the lot tests.

| member | source | states |
|---|---|---|
| Lots.MissingLotFields | openprocurement/tender/openeu/tests/lot.py:64-72 | the fields reported missing are exactly those among title, value and minimalStep that the request lacks; none are missing iff all three are given |
| Lots.CheckNewLot | openprocurement/tender/openeu/tests/lot.py:64-202 | a new lot is accepted iff it is acceptable (all fields, minimal step not above value, fresh id, guarantee currency equal to the tender guarantee's); the first failing check names the error: missing fields as Required, then a minimal step above the value, then a taken id, then a guarantee in another currency; an accepted lot carries the tender's currencies and VAT flags whatever the request says, its own amounts and guarantee, is active and undated |
| Lots.PatchedLot | openprocurement/tender/openeu/tests/lot.py:204-225 | a lot patch keeps id, status and currencies and takes the new title and amounts; a guarantee patch sets the amount or keeps the lot's own, and its currency is the tender guarantee's, or without one the patch's, else the lot's, else UAH; it is refused iff the minimal step would exceed the value or a guarantee without amount is added to a lot that has none |
| Lots.RemoveAtFreesId | openprocurement/tender/openeu/tests/lot.py:465-476 | removing a lot keeps ids unique, frees its id and keeps every other lot |
| Aggregation.MinStep | openprocurement/tender/openeu/tests/lot.py:628 | the minimal step of the lots is at most every lot's minimal step and equal to one of them |
| Aggregation.TenderValue | openprocurement/tender/openeu/tests/lot.py:622-627 | with lots, the tender value amount is the sum of the lots' values in the tender's currency and VAT flag; without lots it is the tender's own |
| Aggregation.TenderMinimalStep | openprocurement/tender/openeu/tests/lot.py:622-628 | with lots, the tender minimal step is the least lot minimal step; without lots it is the tender's own |
| Aggregation.TenderGuarantee | openprocurement/tender/openeu/tests/lot.py:527-615 | once some lot has a guarantee, the tender guarantee amount is the sum of the lot guarantees, in the tender guarantee's currency; otherwise the tender's own guarantee stays |
| Aggregation.FirstGuaranteeCurrency | openprocurement/tender/openeu/tests/lot.py:129-157 | a tender that had no guarantee takes the currency of a lot guarantee |
| Aggregation.SumValuesAppend | openprocurement/tender/openeu/tests/lot.py:1220-1225 | adding a lot adds its value to the sum |
| Aggregation.SumValuesRemove | openprocurement/tender/openeu/tests/lot.py:465-476 | removing a lot takes its value off the sum |
| Aggregation.SumValuesReplace | openprocurement/tender/openeu/tests/lot.py:204-213 | replacing a lot changes the sum by the difference of the two values |
| Aggregation.SumGuaranteesAppend | openprocurement/tender/openeu/tests/lot.py:552-560 | adding a lot adds its guarantee (zero when it has none) to the sum |
| Aggregation.SumGuaranteesRemove | openprocurement/tender/openeu/tests/lot.py:608-615 | removing a lot takes its guarantee off the sum |
| Aggregation.SumGuaranteesReplace | openprocurement/tender/openeu/tests/lot.py:589-606 | replacing a lot changes the guarantee sum by the difference of the two guarantees |
| Aggregation.SameAmountsSameRollup | openprocurement/tender/openeu/tests/lot.py:261-332 | lots that differ only in currencies, VAT flags, statuses or dates have the same sums, minimum and guarantee presence |
| Aggregation.MinStepAtMostTotal | openprocurement/tender/openeu/tests/lot.py:93-104 | when every lot's minimal step is within its value, the tender minimal step is within the tender value |
| Aggregation.LotGuaranteeWithinSum | openprocurement/tender/openeu/tests/lot.py:582 | every lot's guarantee is at most the tender guarantee |
| Aggregation.AppendRollsUpValue | openprocurement/tender/openeu/tests/lot.py:622-628 | after a lot is added, the tender value is the old value plus the lot's, and the minimal step the smaller of the two |
| Aggregation.AppendRollsUpGuarantee | openprocurement/tender/openeu/tests/lot.py:538-582 | after a lot is added, the tender guarantee is the old sum plus the lot's guarantee; the first lot guarantee replaces the tender's own amount and keeps its currency |
| Aggregation.RemoveRollsUp | openprocurement/tender/openeu/tests/lot.py:608-615 | after a lot is removed, the tender value and guarantee drop by the lot's value and guarantee |
| Aggregation.NoGuaranteeSumsToZero | openprocurement/tender/openeu/tests/lot.py:129-138 | lots without guarantees sum to zero |
| Aggregation.GuaranteeOverwrittenNotAdded | openprocurement/tender/openeu/tests/lot.py:529-550 | a tender guarantee of 100 with one lot guarantee of 20 becomes 20 |
| Aggregation.ComputeValueTotal | openprocurement/tender/openeu/tests/lot.py:627 | the loop sums the lot values |
| Aggregation.ComputeGuaranteeTotal | openprocurement/tender/openeu/tests/lot.py:582 | the loop sums the lot guarantees |
| Aggregation.ComputeMinStep | openprocurement/tender/openeu/tests/lot.py:628 | the loop finds a lot minimal step that no lot's is below |
| Aggregation.MinStepUnique | openprocurement/tender/openeu/tests/lot.py:628 | any amount that is at most every lot minimal step and equal to one of them is the minimal step |
| Features.MaxEnum | openprocurement/tender/openeu/tests/lot.py:660-669 | a feature's maximum value bounds all its values and is one of them (zero for no values) |
| Features.AllEnumsInRange | openprocurement/tender/openeu/tests/lot.py:653-659 | the scan is true iff every feature value is at most 30 hundredths |
| Features.AllLotSumsInRange | openprocurement/tender/openeu/tests/lot.py:660-675 | the scan is true iff for every lot the maximum values of the features that apply to it add up to at most 30 hundredths |
| Features.CheckFeatures | openprocurement/tender/openeu/tests/lot.py:630-675 | features pass iff every value is within 30 and the sums are: each lot's sum with lots, the total without; a value above 30 is reported first, then an excessive lot sum or total |
| Features.LotSumAtMostTotal | openprocurement/tender/openeu/tests/lot.py:660-675 | a lot's sum of maximum values is at most the sum over all features, and equal to it when every feature is a tenderer feature |
| Features.FirstParameterError | openprocurement/tender/openeu/tests/lot.py:923-943 | no error iff every parameter names a feature code and one of that feature's values; at the first parameter that does not, an unknown code gives ParameterCodeUnknown and a known code with a value its feature does not offer gives ParameterValueUnknown |
| Features.CheckParameters | openprocurement/tender/openeu/tests/lot.py:899-943 | parameters pass iff they are acceptable: known codes and values, no code twice, exactly the codes of the features that apply to the bid's lots; the first unknown code or value is reported first, then a repeated code, then an incomplete set |
| Features.DistinctCodesCount | openprocurement/tender/openeu/tests/lot.py:849-943 | parameters with distinct codes have as many codes as entries |
| Features.AcceptedParametersCount | openprocurement/tender/openeu/tests/lot.py:849-943 | an accepted bid answers exactly as many parameters as features apply to it |
| Features.MissingParameterRefused | openprocurement/tender/openeu/tests/lot.py:905-921 | a bid that leaves out an applicable feature is refused |
| Bids.LotValueError | openprocurement/tender/openeu/tests/lot.py:692-730 | an offer has no error iff it is acceptable; a missing relatedLot is Required and an unknown lot is not found; for the named lot, an amount above its value, then a different currency, then a different VAT flag each get their own error |
| Bids.FirstLotValueError | openprocurement/tender/openeu/tests/lot.py:692-730 | no error iff every offer is acceptable |
| Bids.CheckBid | openprocurement/tender/openeu/tests/lot.py:682-738 | a bid passes iff it is acceptable (offers, each valid, no two for one lot, no top-level value, parameters); an empty lotValues is Required; otherwise the first offer's error is passed through, then two offers for one lot are refused as duplicated, then a top-level value is refused, and otherwise the parameters' verdict is the bid's |
| Bids.OfferFor | openprocurement/tender/openeu/tests/lot.py:749-765 | the found offer is one of the bid's for the lot; none iff the bid has no offer for it |
| Bids.ReplacedLotValues | openprocurement/tender/openeu/tests/lot.py:755-765 | replacing offers keeps the requested lots and amounts and leaves them pending |
| Bids.DateChangesOnlyWithAmount | openprocurement/tender/openeu/tests/lot.py:749-765 | a replacing offer keeps its prior date iff it keeps its prior amount |
| Statuses.RollupStatus | openprocurement/tender/openeu/tests/lot.py:1513-1569 | all lots cancelled gives cancelled, all failed gives unsuccessful, all settled gives complete, otherwise the status stays |
| Statuses.RollupIdempotent | openprocurement/tender/openeu/tests/lot.py:1541-1569 | rolling up twice is rolling up once |
| Statuses.RollupKeepsStatusWhileALotIsActive | openprocurement/tender/openeu/tests/lot.py:1571-1600 | while one lot is active the tender status does not change |
| Statuses.RollupTerminalIffSettled | openprocurement/tender/openeu/tests/lot.py:1686-1827 | a non-terminal tender becomes terminal iff every lot is settled |
| Qualifications.SomeBidIffPositive | openprocurement/tender/openeu/tests/lot.py:978-1034 | the bid count of a lot is positive iff some bid competes for it |
| Qualifications.TwoBidsIffTwoCompetitors | openprocurement/tender/openeu/tests/lot.py:1009-1086 | the count reaches two iff two different bids compete for the lot |
| Qualifications.TwoBidsGiveTwoCompetitors | openprocurement/tender/openeu/tests/lot.py:1009-1034 | a count of two or more comes from two different competing bids |
| Qualifications.TwoCompetitorsGiveTwoBids | openprocurement/tender/openeu/tests/lot.py:1089-1113 | two different competing bids give a count of two or more |
| Qualifications.FindCompetingOffer | openprocurement/tender/openeu/tests/lot.py:1256-1282 | the scan finds a counting offer iff the bid competes (a withdrawn bid never does) |
| Qualifications.CountBids | openprocurement/tender/openeu/tests/lot.py:1036-1086 | the loop counts the competing bids |
| Qualifications.RejectingClosedOffersKeepsOtherCounts | openprocurement/tender/openeu/tests/lot.py:1627-1674 | turning down offers for closed lots leaves the count of every other lot unchanged |
| Qualifications.ClosingLeavesCompetedLots | openprocurement/tender/openeu/tests/lot.py:994-1001 | after the closing pass every active lot has two competing bids; a lot that changed was active and is now unsuccessful with a date; amounts and ids stay |
| Qualifications.OfferQualificationsMembers | openprocurement/tender/openeu/tests/lot.py:1719-1724 | a bid's qualifications are exactly those of its pending offers for active lots |
| Qualifications.QualificationsForMembers | openprocurement/tender/openeu/tests/lot.py:1668-1724 | a qualification is generated iff some non-withdrawn bid has a pending offer for an active lot that it reviews |
| Qualifications.OfferQualificationsOnePerLot | openprocurement/tender/openeu/tests/lot.py:1719-1724 | a bid whose offers name distinct lots gets at most one qualification per lot |
| Qualifications.QualificationsOnePerOffer | openprocurement/tender/openeu/tests/lot.py:1668-1724 | with distinct bid ids and offers for distinct lots, no two qualifications are for the same bid and lot, so there is exactly one per offer to be qualified |
| Qualifications.GenerateQualifications | openprocurement/tender/openeu/tests/lot.py:1283-1290 | the nested loop generates exactly those qualifications |
| Qualifications.QualificationDecisionEffects | openprocurement/tender/openeu/tests/lot.py:1384-1424 | approval makes the bid active and competing for the lot at the end of stand-still; rejection stops it competing; offers for other lots do not change |
| Awards.AwardableOffer | openprocurement/tender/openeu/tests/lot.py:1384-1488 | only an active bid not turned down for the lot puts in an offer |
| Awards.BestOfferIsAwardable | openprocurement/tender/openeu/tests/lot.py:1182-1188 | there is no winning offer iff no bid has an awardable offer; otherwise the winner is one of the awardable offers |
| Awards.NothingBeatsBestOffer | openprocurement/tender/openeu/tests/lot.py:1182-1188 | no awardable offer beats the winner (lower amount, or equal amount and earlier date) |
| Awards.FindBestOffer | openprocurement/tender/openeu/tests/lot.py:1182-1188 | the scan finds the winning offer |
| Awards.FirstAwardsCoverActiveLots | openprocurement/tender/openeu/tests/lot.py:1770-1777 | every active lot with a winning offer gets a pending award for that offer |
| Awards.FirstAwardsComeFromLots | openprocurement/tender/openeu/tests/lot.py:1770-1777 | every first award is the pending award of an active lot for its winning offer |
| Awards.FirstAwardsOnePerLot | openprocurement/tender/openeu/tests/lot.py:1770-1798 | with unique lot ids no lot gets two first awards |
| Awards.FirstAwardsOneLivePerLot | openprocurement/tender/openeu/tests/lot.py:1770-1798 | the first awards leave at most one pending or active award per lot |
| Awards.NextAwardSkipsTurnedDown | openprocurement/tender/openeu/tests/lot.py:1799-1807 | the next award never goes to a bid already turned down for the lot |
| TenderModel.SameTermsSameIndex | openprocurement/tender/openeu/tests/lot.py:1536-1537 | changing lot statuses or dates keeps every lot at its place |
| TenderModel.SameTermsKeepInvariant | openprocurement/tender/openeu/tests/lot.py:1536-1537 | changing lot statuses or dates keeps unique ids, item references, the rollup and the currencies |
| TenderModel.RolledCoherent | openprocurement/tender/openeu/tests/lot.py:622-628 | recomputing the derived fields after a lot change restores the invariant |
| TenderModel.RollingCoherentIsIdentity | openprocurement/tender/openeu/tests/lot.py:585-587 | recomputing an already reconciled tender changes nothing |
| TenderModel.NoGuaranteeBeforeTender | openprocurement/tender/openeu/tests/lot.py:129-138 | a tender without a guarantee has no lot with one |
| TenderModel.WhileTendering | openprocurement/tender/openeu/tests/lot.py:250-259 | edits pass only during tendering and are otherwise refused with the status in the message |
| TenderModel.AppendFreshLot | openprocurement/tender/openeu/tests/lot.py:129-202 | appending a lot with a fresh id that follows the tender keeps ids unique, items valid, currencies aligned and cancelled lots cancelled |
| TenderModel.AddLotKeepsCoherent | openprocurement/tender/openeu/tests/lot.py:129-202 | adding a lot succeeds iff the tender is tendering and the lot acceptable, and keeps the invariant |
| TenderModel.AddLotRollsUp | openprocurement/tender/openeu/tests/lot.py:552-582 | after a lot is added, the tender value grows by the lot value, the minimal step is the smaller one, and the guarantee grows by the lot guarantee or becomes it |
| TenderModel.ReplaceFollowingLot | openprocurement/tender/openeu/tests/lot.py:204-225 | replacing a lot by one with the same id and status keeps the lot invariants |
| TenderModel.PatchLotKeepsCoherent | openprocurement/tender/openeu/tests/lot.py:204-259 | a lot patch outside tendering is refused with the status; an unknown lot is Not Found; a lot that is no longer active is refused; the patch is accepted iff it comes while tendering for an active lot and the patched lot is valid, whose error is passed through otherwise; the invariant holds |
| TenderModel.PatchLotRollsUp | openprocurement/tender/openeu/tests/lot.py:589-606 | a lot patch changes the tender value and guarantee by the difference of the old and new lot |
| TenderModel.LotTermsPatchIsNoOp | openprocurement/tender/openeu/tests/lot.py:300-332 | a patch of an active lot with only currencies, VAT flags and guarantee currency leaves the tender exactly as it was |
| TenderModel.RemoveUnboundLot | openprocurement/tender/openeu/tests/lot.py:465-476 | removing a lot no item names keeps the lot invariants and frees the id |
| TenderModel.DeleteLotKeepsCoherent | openprocurement/tender/openeu/tests/lot.py:465-525 | deletion succeeds iff tendering, the lot exists and is active, and no item names it; each refusal has its error; the invariant holds |
| TenderModel.DeleteLotRollsUp | openprocurement/tender/openeu/tests/lot.py:608-615 | deleting a lot takes its value and guarantee off the tender's |
| TenderModel.SetItemsKeepsCoherent | openprocurement/tender/openeu/tests/lot.py:121-127 | new items are accepted iff tendering and each names a lot; otherwise relatedLot is reported |
| TenderModel.CascadeFollowsAndKeepsAmounts | openprocurement/tender/openeu/tests/lot.py:283-298 | the cascade makes every lot follow the tender's currencies, keeps amounts, ids and statuses, and is idempotent |
| TenderModel.CascadeKeepsLotInvariants | openprocurement/tender/openeu/tests/lot.py:334-394 | the cascade keeps ids unique, items valid and cancelled lots cancelled |
| TenderModel.PatchTenderRefusals | openprocurement/tender/openeu/tests/lot.py:271-281 | a tender patch passes iff tendering and the minimal step agrees with the value on currency and VAT; a currency mismatch is reported |
| TenderModel.CascadedCoherent | openprocurement/tender/openeu/tests/lot.py:283-298 | cascading and recomputing keeps the invariant and the amounts |
| TenderModel.PatchTenderKeepsCoherent | openprocurement/tender/openeu/tests/lot.py:261-394 | a tender patch keeps the invariant and the lot amounts, and sets the requested currencies and VAT flags of value and minimal step; the tender guarantee, when there is one, is in the patched currency (UAH for a new guarantee that names none) |
| TenderModel.PatchTenderKeepsAmounts | openprocurement/tender/openeu/tests/lot.py:585-587 | a tender patch on a tender with lots keeps its value, minimal step and guarantee amounts |
| TenderModel.SetFeaturesKeepsCoherent | openprocurement/tender/openeu/tests/lot.py:630-675 | features are accepted iff tendering, every value is within 30 and the lot sums (or, without lots, the total) are; an excessive value is reported; the lots do not change |
| TenderModel.BidIndex | openprocurement/tender/openeu/tests/lot.py:740-765 | the found bid has the id; none iff no bid has it |
| TenderModel.AddBidKeepsCoherent | openprocurement/tender/openeu/tests/lot.py:682-738 | a bid is accepted iff tendering and acceptable; it is appended pending with offers for existing lots, no two for the same lot; nothing else changes |
| TenderModel.PatchBidKeepsCoherent | openprocurement/tender/openeu/tests/lot.py:740-778 | a bid patch outside tendering is refused with the status and an unknown bid is Not Found; it is accepted iff it comes while tendering for a bid of the tender and the new offers make an acceptable bid; it changes only that bid, whose offers stay within their lots and name distinct lots; an offer keeps its date iff its amount is unchanged |
| TenderModel.DeleteBidKeepsCoherent | openprocurement/tender/openeu/tests/lot.py:1280 | a withdrawn bid competes for no lot and the other bids are untouched |
| TenderModel.SameTermsKeepCoherent | openprocurement/tender/openeu/tests/lot.py:994-1001 | a change of lot statuses, tender status and dates keeps the invariant |
| TenderModel.ClosingKeepsLotTerms | openprocurement/tender/openeu/tests/lot.py:1513-1539 | the closing pass changes only statuses and dates, keeps cancelled lots, and leaves two competitors on each active lot |
| TenderModel.SameIdsKeepCancelled | openprocurement/tender/openeu/tests/lot.py:1541-1569 | a change that keeps ids and cancelled statuses keeps cancelled lots cancelled |
| TenderModel.ClosedKeepsCoherent | openprocurement/tender/openeu/tests/lot.py:994-1034 | closing keeps the invariant and leaves each active lot with two competing bids |
| TenderModel.NoCompetitionFailsTender | openprocurement/tender/openeu/tests/lot.py:994-1001 | when no lot has enough bids, the tender becomes unsuccessful, dated now |
| TenderModel.EndTenderingReviewsEachOfferOnce | openprocurement/tender/openeu/tests/lot.py:1668-1724 | with distinct bid ids and no bid offering twice for a lot, the end of tendering generates no two qualifications for the same bid and lot |
| TenderModel.EndTenderingKeepsCoherent | openprocurement/tender/openeu/tests/lot.py:1009-1034 | the end of tendering keeps the invariant and leaves only lots with two bids active; outside tendering it changes nothing |
| TenderModel.EndStandStillKeepsCoherent | openprocurement/tender/openeu/tests/lot.py:1081-1086 | the end of stand-still keeps the invariant and leaves only lots with two qualified bids active |
| TenderModel.WithDecision | openprocurement/tender/openeu/tests/lot.py:1064-1074 | a decision leaves other bids untouched |
| TenderModel.DecideQualificationKeepsCoherent | openprocurement/tender/openeu/tests/lot.py:1064-1079 | a qualification decision succeeds iff pre-qualification, the qualification is pending, and an approval is qualified and eligible; the bid then competes at the end of stand-still iff approved |
| TenderModel.StartStandStillKeepsCoherent | openprocurement/tender/openeu/tests/lot.py:1075-1079 | stand-still starts iff no qualification of an active lot is pending |
| TenderModel.SettlingKeepsLotTerms | openprocurement/tender/openeu/tests/lot.py:1209-1210 | settling an active lot changes only its status and date |
| TenderModel.SettleLotKeepsCoherent | openprocurement/tender/openeu/tests/lot.py:1204-1212 | settling an active lot keeps the invariant |
| TenderModel.SettlingKeepsStatusWhileALotIsActive | openprocurement/tender/openeu/tests/lot.py:1597-1600 | settling one lot while another is active leaves the tender status |
| TenderModel.CancellingEveryLotCancelsTender | openprocurement/tender/openeu/tests/lot.py:1541-1569 | cancelling the last lot cancels the tender, dated now |
| TenderModel.CompletingEveryLotCompletesTender | openprocurement/tender/openeu/tests/lot.py:1820-1827 | completing the last lot completes the tender, dated now |
| TenderModel.AuctionFlagKeepsLots | openprocurement/tender/openeu/tests/lot.py:1182 | marking a lot's auction over changes no lot term |
| TenderModel.RecordAuctionRefusals | openprocurement/tender/openeu/tests/lot.py:1180-1182 | an auction result is accepted iff in auction, the lot is active and its auction not yet over; an unknown lot is Not Found |
| TenderModel.RecordAuctionKeepsCoherent | openprocurement/tender/openeu/tests/lot.py:1180-1182 | recording an auction keeps the invariant |
| TenderModel.LastAuctionStartsAwarding | openprocurement/tender/openeu/tests/lot.py:1764-1777 | the tender enters qualification iff every active lot's auction is over; then each active lot with a winning offer has a pending award for it, every award is pending and for an active lot, and no lot has two |
| TenderModel.RecordAuctionKeepsOneLiveAward | openprocurement/tender/openeu/tests/lot.py:1764-1777 | an auction result keeps at most one pending or active award per lot |
| TenderModel.DecideAwardRefusals | openprocurement/tender/openeu/tests/lot.py:1186-1188 | an award decision passes iff it comes during the awarding, for a pending award of an active lot, and an approval says qualified and eligible; each other case is refused with its own error (status, Not Found, already decided, lot not active, qualified and eligible required) |
| TenderModel.AwardingKeepsCoherent | openprocurement/tender/openeu/tests/lot.py:1186-1192 | new awards and contracts keep the invariant |
| TenderModel.FailingLotKeepsCoherent | openprocurement/tender/openeu/tests/lot.py:1799-1800 | a lot failed for want of awardable offers keeps the invariant |
| TenderModel.DecideAwardKeepsCoherent | openprocurement/tender/openeu/tests/lot.py:1770-1810 | every award decision keeps the invariant and cancelled lots |
| TenderModel.DecideAwardKeepsOneLiveAward | openprocurement/tender/openeu/tests/lot.py:1770-1810 | an award decision keeps at most one pending or active award per lot |
| TenderModel.ApprovalCallsForContract | openprocurement/tender/openeu/tests/lot.py:1188-1192 | an approved award becomes active and a pending contract for it is appended |
| TenderModel.RejectionPassesLotOn | openprocurement/tender/openeu/tests/lot.py:1799-1807 | a turned-down award is followed by a pending award for the best remaining offer, never a turned-down bid, else the lot fails |
| TenderModel.SignContractKeepsCoherent | openprocurement/tender/openeu/tests/lot.py:1203-1212 | signing passes iff it comes during the awarding for a pending contract of an active lot, and each other case is refused with its own error; a signature completes that lot and keeps the invariant |
| TenderModel.AddCancellationKeepsCoherent | openprocurement/tender/openeu/tests/lot.py:1558-1600 | a cancellation is accepted iff the tender is not terminal and the lot is active; an active one cancels the lot; an unknown lot is refused |
| TenderModel.PatchCancellationKeepsCoherent | openprocurement/tender/openeu/tests/lot.py:1602-1611 | a cancellation can be updated only while its lot is active |
| TenderModel.CancelledLotStaysCancelled | openprocurement/tender/openeu/tests/lot.py:1602-1625 | for a cancelled lot, both a new cancellation and an update of an old one are refused |
| TenderModel.UnsuccessfulTenderRefuses | openprocurement/tender/openeu/tests/lot.py:1001-1007 | an unsuccessful tender refuses to add, update or delete lots and to add or update bids |
| Tenders.CascadeLots | openprocurement/tender/openeu/tests/lot.py:283-298 | the loop pushes the tender's currencies and VAT flags down to every lot |
| Tenders.CloseLotsOneByOne | openprocurement/tender/openeu/tests/lot.py:1513-1539 | the loop closes exactly the undersubscribed lots |
| Tenders.Tender.constructor | openprocurement/tender/openeu/tests/lot.py:981-983 | a new tender is tendering, has no lots or bids, and is valid |
| Tenders.Tender.Reconcile | openprocurement/tender/openeu/tests/lot.py:622-628 | the derived fields are recomputed from the lots |
| Tenders.Tender.AddLot | openprocurement/tender/openeu/tests/lot.py:129-202 | the object becomes the state the add-lot step gives, and stays valid |
| Tenders.Tender.PatchLot | openprocurement/tender/openeu/tests/lot.py:204-259 | the object becomes the state the patch-lot step gives |
| Tenders.Tender.DeleteLot | openprocurement/tender/openeu/tests/lot.py:465-525 | the object becomes the state the delete-lot step gives |
| Tenders.Tender.SetItems | openprocurement/tender/openeu/tests/lot.py:121-127 | the object becomes the state the set-items step gives |
| Tenders.Tender.SetFeatures | openprocurement/tender/openeu/tests/lot.py:630-675 | the object becomes the state the set-features step gives |
| Tenders.Tender.PatchTender | openprocurement/tender/openeu/tests/lot.py:261-394 | the object becomes the state the tender-patch step gives |
| Tenders.Tender.AddBid | openprocurement/tender/openeu/tests/lot.py:682-738 | the object becomes the state the add-bid step gives |
| Tenders.Tender.PatchBidOffers | openprocurement/tender/openeu/tests/lot.py:740-778 | the object becomes the state the patch-bid step gives |
| Tenders.Tender.DeleteBid | openprocurement/tender/openeu/tests/lot.py:1280 | the object becomes the state the delete-bid step gives |
| Tenders.Tender.EndTendering | openprocurement/tender/openeu/tests/lot.py:1027-1034 | the object becomes the state at the end of tendering |
| Tenders.Tender.DecideQualification | openprocurement/tender/openeu/tests/lot.py:1064-1074 | the object becomes the state the qualification decision gives |
| Tenders.Tender.StartStandStill | openprocurement/tender/openeu/tests/lot.py:1075-1079 | the object becomes the state the stand-still switch gives |
| Tenders.Tender.EndStandStill | openprocurement/tender/openeu/tests/lot.py:1081-1086 | the object becomes the state at the end of stand-still |
| Tenders.Tender.RecordAuction | openprocurement/tender/openeu/tests/lot.py:1180-1182 | the object becomes the state the auction result gives |
| Tenders.Tender.DecideAward | openprocurement/tender/openeu/tests/lot.py:1186-1188 | the object becomes the state the award decision gives |
| Tenders.Tender.SignContract | openprocurement/tender/openeu/tests/lot.py:1203-1212 | the object becomes the state the contract signature gives |
| Tenders.Tender.AddCancellation | openprocurement/tender/openeu/tests/lot.py:1558-1569 | the object becomes the state the add-cancellation step gives |
| Tenders.Tender.PatchCancellation | openprocurement/tender/openeu/tests/lot.py:1602-1611 | the object becomes the state the cancellation update gives |

The methods of `Tenders.Tender` without a row (`TakeTerms`, `CloseUndersubscribedLots`,
`MarkAuctionEnded`, `RollUpAwarding`, `ApproveAward`, `RejectAward`, `Settle`) are parts of the
methods above: each states the state it leaves and serves one or two of them.

## Left out

- HTTP transport, content types, JSON decoding, rogue fields and type-coercion messages
  (lot.py:15-91): they belong to the request layer, not to the tender.
- Authentication, roles and access tokens: every request is taken as made by whoever may make it.
- Wall-clock time and periods: the clock is a `now` parameter, and the chronograph ticks are the
  methods `EndTendering` and `EndStandStill`. Tender and auction periods, the stand-still length and
  complaint periods are not modelled; lot.py:1195-1202 edits complaint periods directly in the
  database.
- The auction service: auction URLs, participation URLs and the amounts posted back. An auction
  result is only "this lot's auction is over". Awards use the offered amounts, not amounts changed
  by the auction.
- Projections: lot.py:407-415, 773 and 1477 hide some fields from some readers.
- Tender-level cancellation, complaints and the cancellation of qualifications: the lot tests do not
  exercise them.
- The draft status and the creation of a tender with its validation: the model starts from a
  tender that is already tendering.
- Floating-point amounts and feature weights: amounts are naturals and feature values are hundredths.
- Invalidation of bids when lots change after bidding: the lot tests do not exercise it.
- Titles, descriptions, tenderers, item details and error locations: they carry no rule the tests
  check, apart from the lot title being required.
- Error messages are reconstructed from the tests where a test shows them. The messages for the
  refusals the tests do not show are this model's own wording (`Errors.Message`).
- Lots.CheckNewLot: a minimal step equal to the lot value is accepted and only a larger one refused.
  The tests refuse only a minimal step of 500 on a value of 100 (lot.py:93-104); where equality falls
  is this model's choice. Lots.PatchedLot makes the same choice.
- Features.CheckFeatures: a feature value of exactly 0.3 is accepted and only a larger one refused.
  The tests refuse 0.5 with a message saying values must be below 0.3 (lot.py:653-659), and accept
  lot sums of exactly 0.3 (lot.py:670-675); where a single value of 0.3 falls is this model's choice.
  The bound on the total of a tender without lots is not exercised by the lot tests.
- Qualifications.QualificationsOnePerOffer: bid ids are generated by the service and taken as distinct.
  The model does not check them, so this lemma and
  TenderModel.EndTenderingReviewsEachOfferOnce assume distinct ids.
- Awards.OneLiveAwardPerLot: the invariant is proved for the two steps that change awards (an auction
  result and an award decision), not folded into `Coherent`; every other step leaves awards alone.
- Awards.BestOfferIsAwardable: the ranking inside Awards.BestOffer is the model's own. The tests show only that the lot's award is pending, not which bid it goes
  to. The model ranks by lower amount, then by earlier offer, and keeps the first bid on a tie.
  That is its reading of award by lowest price; the tests do not pin it down.
- Aggregation.TenderValue: the sum, and the minimum in Aggregation.TenderMinimalStep, take in
  cancelled and unsuccessful lots as well as active ones. The tests sum active lots only
  (lot.py:622-628), so how other lots count is not shown.
- Tenders.Tender.EndTendering: the move to pre-qualification is modelled as one tick; the time
  condition that triggers it is left out with the rest of time.
