/**
 * Features (non-price criteria) of a tender and the parameters a bid answers them with. Feature
 * values are whole hundredths, so 0.3 is 30.
 */
module Features {
  import opened Wrappers
  import opened Lots
  import opened Errors

  /** The largest value a feature may offer, and the largest sum of maximum values per lot: 0.3. */
  const MaxFeatureValue: nat := 30

  datatype FeatureOf = OfTenderer | OfLot | OfItem

  /** A criterion; `relatedItem` names a lot (for a lot feature) or an item (for an item feature). */
  datatype Feature = Feature(code: string, featureOf: FeatureOf, relatedItem: string, enum: seq<nat>)

  /** A bid's answer to the feature with code `code`. */
  datatype Parameter = Parameter(code: string, value: nat)

  /** The largest value a feature offers (0 when it offers none). */
  function MaxEnum(enum: seq<nat>): (m: nat)
    ensures forall i :: 0 <= i < |enum| ==> enum[i] <= m
    ensures |enum| > 0 ==> exists i :: 0 <= i < |enum| && enum[i] == m
    ensures |enum| == 0 ==> m == 0
  {
    if |enum| == 0 then 0
    else
      var rest := MaxEnum(enum[1..]);
      assert forall i :: 1 <= i < |enum| ==> enum[i] == enum[1..][i - 1];
      if enum[0] >= rest then enum[0] else rest
  }

  /** The item `itemId` is bound to the lot `lotId`. */
  predicate ItemOfLot(items: seq<Item>, itemId: string, lotId: LotId) {
    exists k :: 0 <= k < |items| && items[k].id == itemId && items[k].relatedLot == Some(lotId)
  }

  /** A feature weighs on a lot: tenderer features weigh on every lot, the others on their own lot. */
  predicate AppliesToLot(f: Feature, items: seq<Item>, lotId: LotId) {
    || f.featureOf == OfTenderer
    || (f.featureOf == OfLot && f.relatedItem == lotId)
    || (f.featureOf == OfItem && ItemOfLot(items, f.relatedItem, lotId))
  }

  /** The sum of the maximum values of the features that weigh on a lot. */
  function LotFeatureSum(features: seq<Feature>, items: seq<Item>, lotId: LotId): nat {
    if |features| == 0 then 0
    else (if AppliesToLot(features[0], items, lotId) then MaxEnum(features[0].enum) else 0)
         + LotFeatureSum(features[1..], items, lotId)
  }

  predicate EnumValuesInRange(features: seq<Feature>) {
    forall i, j :: 0 <= i < |features| && 0 <= j < |features[i].enum| ==> features[i].enum[j] <= MaxFeatureValue
  }

  predicate LotSumsInRange(features: seq<Feature>, items: seq<Item>, lots: seq<Lot>) {
    forall l :: 0 <= l < |lots| ==> LotFeatureSum(features, items, lots[l].id) <= MaxFeatureValue
  }

  /** Every value of every feature is at most 0.3. */
  function AllEnumsInRange(features: seq<Feature>): (b: bool)
    ensures b <==> EnumValuesInRange(features)
  {
    if |features| == 0 then true
    else
      var rest := AllEnumsInRange(features[1..]);
      assert forall i :: 1 <= i < |features| ==> features[i] == features[1..][i - 1];
      MaxEnum(features[0].enum) <= MaxFeatureValue && rest
  }

  /** The sum of the maximum values of all the features. */
  function TotalFeatureSum(features: seq<Feature>): nat {
    if |features| == 0 then 0 else MaxEnum(features[0].enum) + TotalFeatureSum(features[1..])
  }

  /** Every lot's sum is bounded; the features of a tender without lots share one bound. */
  predicate SumsInRange(features: seq<Feature>, items: seq<Item>, lots: seq<Lot>) {
    if |lots| == 0 then TotalFeatureSum(features) <= MaxFeatureValue else LotSumsInRange(features, items, lots)
  }

  /** Every feature weighs on some lot once there is one, so each lot's sum is at most the total. */
  lemma {:induction false} LotSumAtMostTotal(features: seq<Feature>, items: seq<Item>, lotId: LotId)
    ensures LotFeatureSum(features, items, lotId) <= TotalFeatureSum(features)
    ensures (forall i :: 0 <= i < |features| ==> features[i].featureOf == OfTenderer) ==>
              LotFeatureSum(features, items, lotId) == TotalFeatureSum(features)
  {
    if |features| > 0 {
      LotSumAtMostTotal(features[1..], items, lotId);
      assert forall i :: 1 <= i < |features| ==> features[i] == features[1..][i - 1];
    }
  }

  /** No lot's applicable features add up to more than 0.3. */
  function AllLotSumsInRange(features: seq<Feature>, items: seq<Item>, lots: seq<Lot>): (b: bool)
    ensures b <==> LotSumsInRange(features, items, lots)
  {
    if |lots| == 0 then true
    else
      var rest := AllLotSumsInRange(features, items, lots[1..]);
      assert forall l :: 1 <= l < |lots| ==> lots[l] == lots[1..][l - 1];
      LotFeatureSum(features, items, lots[0].id) <= MaxFeatureValue && rest
  }

  /**
   * Validates the features of a tender: first every single value, then, lot by lot, the sum of the
   * maximum values of the features that weigh on it, or, without lots, the sum over all features.
   */
  function CheckFeatures(features: seq<Feature>, items: seq<Item>, lots: seq<Lot>): (r: Outcome<Error>)
    ensures r.Pass? <==> EnumValuesInRange(features) && SumsInRange(features, items, lots)
    ensures r == Fail(FeatureValueTooHigh) <==> !EnumValuesInRange(features)
    ensures r == Fail(FeatureSumTooHigh) <==>
              EnumValuesInRange(features) && |lots| > 0 && !LotSumsInRange(features, items, lots)
    ensures r == Fail(FeatureTotalTooHigh) <==>
              EnumValuesInRange(features) && |lots| == 0 && TotalFeatureSum(features) > MaxFeatureValue
  {
    if !AllEnumsInRange(features) then Fail(FeatureValueTooHigh)
    else if |lots| == 0 then
      if TotalFeatureSum(features) > MaxFeatureValue then Fail(FeatureTotalTooHigh) else Pass
    else if !AllLotSumsInRange(features, items, lots) then Fail(FeatureSumTooHigh)
    else Pass
  }

  // ---- Parameters of a bid

  /** A feature concerns a bid on the lots `bidLots`. */
  predicate AppliesToBid(f: Feature, items: seq<Item>, bidLots: set<LotId>) {
    || f.featureOf == OfTenderer
    || (f.featureOf == OfLot && f.relatedItem in bidLots)
    || (f.featureOf == OfItem &&
          exists k :: 0 <= k < |items| && items[k].id == f.relatedItem
                      && items[k].relatedLot.Some? && items[k].relatedLot.value in bidLots)
  }

  /** The codes a bid on the lots `bidLots` must answer, each exactly those of the applicable features. */
  function ApplicableCodes(features: seq<Feature>, items: seq<Item>, bidLots: set<LotId>): set<string> {
    set i | 0 <= i < |features| && AppliesToBid(features[i], items, bidLots) :: features[i].code
  }

  predicate IsFeatureCode(features: seq<Feature>, code: string) {
    exists i :: 0 <= i < |features| && features[i].code == code
  }

  /** `value` is among the values of a feature with code `code`. */
  predicate IsFeatureValue(features: seq<Feature>, code: string, value: nat) {
    exists i :: 0 <= i < |features| && features[i].code == code && value in features[i].enum
  }

  function ParameterCodes(params: seq<Parameter>): set<string> {
    set i | 0 <= i < |params| :: params[i].code
  }

  /** The parameter names a feature and one of that feature's values. */
  predicate ParameterKnown(features: seq<Feature>, p: Parameter) {
    IsFeatureCode(features, p.code) && IsFeatureValue(features, p.code, p.value)
  }

  /** The first parameter error in list order: an unknown code, else a value its feature does not offer. */
  function FirstParameterError(features: seq<Feature>, params: seq<Parameter>): (r: Option<Error>)
    ensures r.None? <==> forall i :: 0 <= i < |params| ==>
              IsFeatureCode(features, params[i].code) && IsFeatureValue(features, params[i].code, params[i].value)
    ensures r.Some? ==> r.value == ParameterCodeUnknown || r.value == ParameterValueUnknown
    ensures forall i :: 0 <= i < |params| && (forall k :: 0 <= k < i ==> ParameterKnown(features, params[k])) ==>
              && (!IsFeatureCode(features, params[i].code) ==> r == Some(ParameterCodeUnknown))
              && (IsFeatureCode(features, params[i].code) && !IsFeatureValue(features, params[i].code, params[i].value)
                  ==> r == Some(ParameterValueUnknown))
  {
    if |params| == 0 then None
    else if !IsFeatureCode(features, params[0].code) then Some(ParameterCodeUnknown)
    else if !IsFeatureValue(features, params[0].code, params[0].value) then Some(ParameterValueUnknown)
    else
      var rest := FirstParameterError(features, params[1..]);
      assert forall i :: 1 <= i < |params| ==> params[i] == params[1..][i - 1];
      rest
  }

  /** No two parameters answer the same feature. */
  predicate DistinctCodes(params: seq<Parameter>) {
    forall i, j :: 0 <= i < j < |params| ==> params[i].code != params[j].code
  }

  /** What a bid's parameters must satisfy: known codes, offered values, each code once, and exactly
      the applicable codes. */
  predicate ParametersAcceptable(features: seq<Feature>, items: seq<Item>, bidLots: set<LotId>, params: seq<Parameter>) {
    && (forall i :: 0 <= i < |params| ==>
          IsFeatureCode(features, params[i].code) && IsFeatureValue(features, params[i].code, params[i].value))
    && DistinctCodes(params)
    && ParameterCodes(params) == ApplicableCodes(features, items, bidLots)
  }

  /** Validates a bid's parameters: each one on its own first, then that no code repeats, then the set
      of codes answered. */
  function CheckParameters(features: seq<Feature>, items: seq<Item>, bidLots: set<LotId>, params: seq<Parameter>): (r: Outcome<Error>)
    ensures r.Pass? <==> ParametersAcceptable(features, items, bidLots, params)
    ensures FirstParameterError(features, params).Some? ==> r == Fail(FirstParameterError(features, params).value)
    ensures FirstParameterError(features, params).None? && !DistinctCodes(params) ==> r == Fail(ParameterCodeNotUnique)
    ensures (r.Fail? && ParameterCodes(params) != ApplicableCodes(features, items, bidLots)
             && FirstParameterError(features, params).None? && DistinctCodes(params)) ==> r.error == ParametersIncomplete
  {
    var e := FirstParameterError(features, params);
    if e.Some? then Fail(e.value)
    else if !DistinctCodes(params) then Fail(ParameterCodeNotUnique)
    else if ParameterCodes(params) != ApplicableCodes(features, items, bidLots) then Fail(ParametersIncomplete)
    else Pass
  }

  /** With each code answered once, a bid answers exactly as many parameters as features apply to it. */
  lemma {:induction false} AcceptedParametersCount(features: seq<Feature>, items: seq<Item>, bidLots: set<LotId>, params: seq<Parameter>)
    requires ParametersAcceptable(features, items, bidLots, params)
    ensures |params| == |ApplicableCodes(features, items, bidLots)|
  {
    DistinctCodesCount(params);
  }

  /** Parameters with distinct codes have as many codes as entries. */
  lemma {:induction false} DistinctCodesCount(params: seq<Parameter>)
    requires DistinctCodes(params)
    ensures |ParameterCodes(params)| == |params|
  {
    if |params| > 0 {
      var n := |params| - 1;
      DistinctCodesCount(params[..n]);
      assert ParameterCodes(params) == ParameterCodes(params[..n]) + {params[n].code};
      assert params[n].code !in ParameterCodes(params[..n]);
    }
  }

  /** A bid that leaves out the parameter of an applicable feature is refused. */
  lemma MissingParameterRefused(features: seq<Feature>, items: seq<Item>, bidLots: set<LotId>,
                                params: seq<Parameter>, k: nat)
    requires k < |features| && AppliesToBid(features[k], items, bidLots)
    requires forall i :: 0 <= i < |params| ==> params[i].code != features[k].code
    ensures CheckParameters(features, items, bidLots, params).Fail?
  {
    assert features[k].code in ApplicableCodes(features, items, bidLots);
    assert features[k].code !in ParameterCodes(params);
  }
}
