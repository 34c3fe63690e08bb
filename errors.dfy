/** The refusals a tender request can meet, each with the message it is reported with. */
module Errors {

  datatype Error =
      /** Fields a request must carry and does not, in the order they are reported. */
    | Required(fields: seq<string>)
      /** A lot whose minimal step is larger than its value. */
    | LotMinimalStepAboveValue
      /** A new lot whose id is already taken by a lot of the tender. */
    | LotIdNotUnique
      /** A lot guarantee in a currency other than the tender guarantee's. */
    | LotGuaranteeCurrencyMismatch
      /** A reference (of an item, a bid entry or a cancellation) to no lot of the tender. */
    | RelatedLotNotFound
      /** A tender whose minimal step is in a currency other than its value's. */
    | TenderCurrencyMismatch
      /** A tender whose minimal step disagrees with its value about VAT. */
    | TenderVatMismatch
      /** A bid entry above the value of its lot. */
    | BidAboveLotValue
      /** A bid entry in a currency other than its lot's. */
    | BidCurrencyMismatch
      /** A bid entry that disagrees with its lot about VAT. */
    | BidVatMismatch
      /** A bid with two offers for the same lot. */
    | BidLotDuplicated
      /** A bid with a top-level value on a tender with lots. */
    | BidValueNotPerLot
      /** A bid parameter whose code is no feature's code. */
    | ParameterCodeUnknown
      /** A bid parameter whose value is not among its feature's values. */
    | ParameterValueUnknown
      /** A bid that answers the same feature twice. */
    | ParameterCodeNotUnique
      /** A bid that does not answer exactly the features that apply to its lots. */
    | ParametersIncomplete
      /** A feature value above 30 hundredths. */
    | FeatureValueTooHigh
      /** A lot whose applicable features' maximum values add up to more than 30 hundredths. */
    | FeatureSumTooHigh
      /** A tender without lots whose features' maximum values add up to more than 30 hundredths. */
    | FeatureTotalTooHigh
      /** An operation that the tender's current status does not allow. */
    | ForbiddenInTenderStatus(action: string, status: string)
      /** An operation on something that belongs to a lot which is no longer active. */
    | LotNotActive(action: string)
      /** An id that names nothing of the tender. */
    | NotFound(name: string)
      /** A decision on a qualification, award, contract or lot auction that is already decided. */
    | AlreadyDecided
      /** An activation without both the qualified and the eligible confirmation. */
    | QualifiedEligibleRequired
      /** A switch to stand-still while some qualification is still pending. */
    | QualificationsPending

  /** The description an error is reported with. */
  function Message(e: Error): string {
    match e
    case Required(_) => "This field is required."
    case LotMinimalStepAboveValue => "value should be less than value of lot"
    case LotIdNotUnique => "Lot id should be uniq for all lots"
    case LotGuaranteeCurrencyMismatch => "lot guarantee currency should be identical to tender guarantee currency"
    case RelatedLotNotFound => "relatedLot should be one of lots"
    case TenderCurrencyMismatch => "currency should be identical to currency of value of tender"
    case TenderVatMismatch => "valueAddedTaxIncluded should be identical to valueAddedTaxIncluded of value of tender"
    case BidAboveLotValue => "value of bid should be less than value of lot"
    case BidCurrencyMismatch => "currency of bid should be identical to currency of value of lot"
    case BidVatMismatch => "valueAddedTaxIncluded of bid should be identical to valueAddedTaxIncluded of value of lot"
    case BidLotDuplicated => "bids don't allow duplicated proposals"
    case BidValueNotPerLot => "value should be posted for each lot of bid"
    case ParameterCodeUnknown => "code should be one of feature code."
    case ParameterValueUnknown => "value should be one of feature value."
    case ParameterCodeNotUnique => "Parameter code should be uniq for all parameters"
    case ParametersIncomplete => "All features parameters is required."
    case FeatureValueTooHigh => "Float value should be less than 0.3."
    case FeatureSumTooHigh => "Sum of max value of all features for lot should be less then or equal to 30%"
    case FeatureTotalTooHigh => "Sum of max value of all features should be less then or equal to 30%"
    case ForbiddenInTenderStatus(action, status) => "Can't " + action + " in current (" + status + ") tender status"
    case LotNotActive(action) => "Can " + action + " only in active lot status"
    case NotFound(_) => "Not Found"
    case AlreadyDecided => "Can't update decided record"
    case QualifiedEligibleRequired => "qualified and eligible are required to activate"
    case QualificationsPending => "Can't switch to 'active.pre-qualification.stand-still' while not all bids are qualified"
  }
}
