/**
 * Derived tender fields. While a tender has lots, its value is the sum of the lots' values, its
 * minimal step the least of their minimal steps, and its guarantee the sum of the guarantees the
 * lots carry; the tender keeps its own currency and VAT flag.
 */
module Aggregation {
  import opened Wrappers
  import opened Money
  import opened Lots

  /** The sum of the lots' value amounts. */
  function SumValues(lots: seq<Lot>): nat {
    if |lots| == 0 then 0 else lots[0].value.amount + SumValues(lots[1..])
  }

  /** The least minimal-step amount of a non-empty sequence of lots. */
  function MinStep(lots: seq<Lot>): (m: nat)
    requires |lots| > 0
    ensures forall i :: 0 <= i < |lots| ==> m <= lots[i].minimalStep.amount
    ensures exists i :: 0 <= i < |lots| && m == lots[i].minimalStep.amount
  {
    if |lots| == 1 then lots[0].minimalStep.amount
    else
      var rest := MinStep(lots[1..]);
      assert forall i :: 1 <= i < |lots| ==> lots[i] == lots[1..][i - 1];
      if lots[0].minimalStep.amount <= rest then lots[0].minimalStep.amount else rest
  }

  /** What a lot adds to the tender guarantee: its own guarantee amount, or nothing. */
  function GuaranteeAmount(lot: Lot): nat {
    if lot.guarantee.Some? then lot.guarantee.value.amount else 0
  }

  /** The sum of the guarantees the lots carry; a lot without one contributes nothing. */
  function SumGuarantees(lots: seq<Lot>): nat {
    if |lots| == 0 then 0 else GuaranteeAmount(lots[0]) + SumGuarantees(lots[1..])
  }

  predicate AnyGuarantee(lots: seq<Lot>) {
    exists i :: 0 <= i < |lots| && lots[i].guarantee.Some?
  }

  /** The currency of the first lot guarantee. */
  function FirstGuaranteeCurrency(lots: seq<Lot>): (c: Currency)
    requires AnyGuarantee(lots)
    ensures exists i :: 0 <= i < |lots| && lots[i].guarantee.Some? && lots[i].guarantee.value.currency == c
  {
    if lots[0].guarantee.Some? then lots[0].guarantee.value.currency
    else
      assert forall i :: 1 <= i < |lots| ==> lots[i] == lots[1..][i - 1];
      assert AnyGuarantee(lots[1..]) by {
        var i :| 0 <= i < |lots| && lots[i].guarantee.Some?;
        assert lots[1..][i - 1] == lots[i];
      }
      FirstGuaranteeCurrency(lots[1..])
  }

  /** The tender value: the lots' sum while there are lots, the tender's own value otherwise. */
  function TenderValue(lots: seq<Lot>, own: Value): (v: Value)
    ensures v.currency == own.currency && v.vatIncluded == own.vatIncluded
    ensures |lots| > 0 ==> v.amount == SumValues(lots)
    ensures |lots| == 0 ==> v == own
  {
    if |lots| == 0 then own else own.(amount := SumValues(lots))
  }

  /** The tender minimal step: the lots' least step while there are lots, the tender's own otherwise. */
  function TenderMinimalStep(lots: seq<Lot>, own: Value): (v: Value)
    ensures v.currency == own.currency && v.vatIncluded == own.vatIncluded
    ensures |lots| > 0 ==> forall i :: 0 <= i < |lots| ==> v.amount <= lots[i].minimalStep.amount
    ensures |lots| > 0 ==> exists i :: 0 <= i < |lots| && v.amount == lots[i].minimalStep.amount
    ensures |lots| == 0 ==> v == own
  {
    if |lots| == 0 then own else own.(amount := MinStep(lots))
  }

  /**
   * The tender guarantee. As soon as one lot carries a guarantee, the amount is the sum of the lot
   * guarantees and REPLACES the tender's own amount; the currency is the tender's own, or, when the
   * tender has none, the first lot guarantee's. Without lot guarantees the tender's own stands.
   */
  function TenderGuarantee(lots: seq<Lot>, own: Option<Guarantee>): (g: Option<Guarantee>)
    ensures AnyGuarantee(lots) ==> g.Some? && g.value.amount == SumGuarantees(lots)
    ensures AnyGuarantee(lots) && own.Some? ==> g.value.currency == own.value.currency
    ensures !AnyGuarantee(lots) ==> g == own
  {
    if !AnyGuarantee(lots) then own
    else Some(Guarantee(SumGuarantees(lots),
                        if own.Some? then own.value.currency else FirstGuaranteeCurrency(lots)))
  }

  /** The derived fields agree with the lots. */
  predicate Reconciled(lots: seq<Lot>, value: Value, minimalStep: Value, guarantee: Option<Guarantee>) {
    && (|lots| > 0 ==> value.amount == SumValues(lots) && minimalStep.amount == MinStep(lots))
    && (AnyGuarantee(lots) ==> guarantee.Some? && guarantee.value.amount == SumGuarantees(lots))
  }

  /** Two sequences of lots that agree, lot by lot, on every amount and on which lots carry a guarantee. */
  predicate SameAmounts(a: seq<Lot>, b: seq<Lot>) {
    && |a| == |b|
    && forall i :: 0 <= i < |a| ==>
         && a[i].value.amount == b[i].value.amount
         && a[i].minimalStep.amount == b[i].minimalStep.amount
         && a[i].guarantee.Some? == b[i].guarantee.Some?
         && GuaranteeAmount(a[i]) == GuaranteeAmount(b[i])
  }

  // ---- Lemmas

  /** Appending a lot raises the value sum by the lot's value. */
  lemma {:induction false} SumValuesAppend(lots: seq<Lot>, lot: Lot)
    ensures SumValues(lots + [lot]) == SumValues(lots) + lot.value.amount
  {
    if |lots| > 0 {
      assert (lots + [lot])[1..] == lots[1..] + [lot];
      SumValuesAppend(lots[1..], lot);
    }
  }

  /** Removing the lot at position `i` lowers the value sum by exactly that lot's value. */
  lemma {:induction false} SumValuesRemove(lots: seq<Lot>, i: nat)
    requires i < |lots|
    ensures SumValues(lots[..i] + lots[i + 1..]) + lots[i].value.amount == SumValues(lots)
  {
    if i > 0 {
      assert (lots[..i] + lots[i + 1..])[1..] == lots[1..][..i - 1] + lots[1..][i..];
      SumValuesRemove(lots[1..], i - 1);
    } else {
      assert lots[..0] + lots[1..] == lots[1..];
    }
  }

  /** Appending a lot raises the guarantee sum by what the lot carries (nothing, if no guarantee). */
  lemma {:induction false} SumGuaranteesAppend(lots: seq<Lot>, lot: Lot)
    ensures SumGuarantees(lots + [lot]) == SumGuarantees(lots) + GuaranteeAmount(lot)
  {
    if |lots| > 0 {
      assert (lots + [lot])[1..] == lots[1..] + [lot];
      SumGuaranteesAppend(lots[1..], lot);
    }
  }

  /** Removing the lot at position `i` lowers the guarantee sum by exactly what it carried. */
  lemma {:induction false} SumGuaranteesRemove(lots: seq<Lot>, i: nat)
    requires i < |lots|
    ensures SumGuarantees(lots[..i] + lots[i + 1..]) + GuaranteeAmount(lots[i]) == SumGuarantees(lots)
  {
    if i > 0 {
      assert (lots[..i] + lots[i + 1..])[1..] == lots[1..][..i - 1] + lots[1..][i..];
      SumGuaranteesRemove(lots[1..], i - 1);
    } else {
      assert lots[..0] + lots[1..] == lots[1..];
    }
  }

  /** Replacing one lot changes the guarantee sum by the difference of what the two lots carry. */
  lemma {:induction false} SumGuaranteesReplace(lots: seq<Lot>, i: nat, lot: Lot)
    requires i < |lots|
    ensures SumGuarantees(lots[i := lot]) + GuaranteeAmount(lots[i]) == SumGuarantees(lots) + GuaranteeAmount(lot)
  {
    if i > 0 {
      assert lots[i := lot][1..] == lots[1..][i - 1 := lot];
      SumGuaranteesReplace(lots[1..], i - 1, lot);
    } else {
      assert lots[0 := lot][1..] == lots[1..];
    }
  }

  /** Replacing one lot changes the value sum by the difference of the two lots' values. */
  lemma {:induction false} SumValuesReplace(lots: seq<Lot>, i: nat, lot: Lot)
    requires i < |lots|
    ensures SumValues(lots[i := lot]) + lots[i].value.amount == SumValues(lots) + lot.value.amount
  {
    if i > 0 {
      assert lots[i := lot][1..] == lots[1..][i - 1 := lot];
      SumValuesReplace(lots[1..], i - 1, lot);
    } else {
      assert lots[0 := lot][1..] == lots[1..];
    }
  }

  /** Sequences of lots with the same amounts have the same sums and the same least step. */
  lemma {:induction false} SameAmountsSameRollup(a: seq<Lot>, b: seq<Lot>)
    requires SameAmounts(a, b)
    ensures SumValues(a) == SumValues(b)
    ensures SumGuarantees(a) == SumGuarantees(b)
    ensures AnyGuarantee(a) == AnyGuarantee(b)
    ensures |a| > 0 ==> MinStep(a) == MinStep(b)
  {
    if |a| > 0 {
      assert SameAmounts(a[1..], b[1..]) by {
        assert forall i :: 0 <= i < |a| - 1 ==> a[1..][i] == a[i + 1] && b[1..][i] == b[i + 1];
      }
      SameAmountsSameRollup(a[1..], b[1..]);
      if AnyGuarantee(a) {
        var i :| 0 <= i < |a| && a[i].guarantee.Some?;
        assert b[i].guarantee.Some?;
      }
      if AnyGuarantee(b) {
        var i :| 0 <= i < |b| && b[i].guarantee.Some?;
        assert a[i].guarantee.Some?;
      }
    }
  }

  /** With every lot's step within its value, the tender's least step is within the tender's total. */
  lemma {:induction false} MinStepAtMostTotal(lots: seq<Lot>)
    requires |lots| > 0
    requires forall i :: 0 <= i < |lots| ==> lots[i].minimalStep.amount <= lots[i].value.amount
    ensures MinStep(lots) <= SumValues(lots)
  {
    assert MinStep(lots) <= lots[0].minimalStep.amount;
  }

  /** The sum of the lot guarantees is at least any one lot's guarantee. */
  lemma {:induction false} LotGuaranteeWithinSum(lots: seq<Lot>, i: nat)
    requires i < |lots|
    ensures GuaranteeAmount(lots[i]) <= SumGuarantees(lots)
  {
    if i > 0 {
      assert lots[1..][i - 1] == lots[i];
      LotGuaranteeWithinSum(lots[1..], i - 1);
    }
  }

  /**
   * Appending a lot to lots the tender is reconciled with: the tender value grows by the lot's value,
   * or is the lot's value for a first lot, and the least step is the smaller of the old one and the
   * lot's.
   */
  lemma {:induction false} AppendRollsUpValue(lots: seq<Lot>, lot: Lot, value: Value, minimalStep: Value)
    requires |lots| > 0 ==> value.amount == SumValues(lots) && minimalStep.amount == MinStep(lots)
    ensures TenderValue(lots + [lot], value).amount == (if |lots| > 0 then value.amount else 0) + lot.value.amount
    ensures TenderMinimalStep(lots + [lot], minimalStep).amount ==
              (if |lots| > 0 && minimalStep.amount <= lot.minimalStep.amount then minimalStep.amount else lot.minimalStep.amount)
  {
    var after := lots + [lot];
    SumValuesAppend(lots, lot);
    assert after[|lots|] == lot;
    assert forall k :: 0 <= k < |lots| ==> after[k] == lots[k];
    if |lots| > 0 {
      var k :| 0 <= k < |lots| && MinStep(lots) == lots[k].minimalStep.amount;
      var m := if minimalStep.amount <= lot.minimalStep.amount then minimalStep.amount else lot.minimalStep.amount;
      assert m == after[k].minimalStep.amount || m == after[|lots|].minimalStep.amount;
      MinStepUnique(after, m);
    } else {
      assert SumValues(lots) == 0;
      MinStepUnique(after, lot.minimalStep.amount);
    }
  }

  /**
   * Appending a lot to lots the tender guarantee is reconciled with: while lots carry guarantees the
   * tender guarantee grows by the lot's; the first lot guarantee replaces the tender's declared amount,
   * keeping the tender's currency if it had one; without any lot guarantee the tender's stays.
   */
  lemma {:induction false} AppendRollsUpGuarantee(lots: seq<Lot>, lot: Lot, guarantee: Option<Guarantee>)
    requires AnyGuarantee(lots) ==> guarantee.Some? && guarantee.value.amount == SumGuarantees(lots)
    ensures AnyGuarantee(lots) ==>
              TenderGuarantee(lots + [lot], guarantee) == Some(guarantee.value.(amount := guarantee.value.amount + GuaranteeAmount(lot)))
    ensures !AnyGuarantee(lots) && lot.guarantee.Some? ==>
              TenderGuarantee(lots + [lot], guarantee) ==
              Some(Guarantee(lot.guarantee.value.amount,
                             if guarantee.Some? then guarantee.value.currency else lot.guarantee.value.currency))
    ensures !AnyGuarantee(lots) && lot.guarantee.None? ==> TenderGuarantee(lots + [lot], guarantee) == guarantee
  {
    var after := lots + [lot];
    SumGuaranteesAppend(lots, lot);
    assert after[|lots|] == lot;
    assert forall k :: 0 <= k < |lots| ==> after[k] == lots[k];
    if AnyGuarantee(lots) {
      var k :| 0 <= k < |lots| && lots[k].guarantee.Some?;
      assert after[k].guarantee.Some?;
    } else if lot.guarantee.Some? {
      assert AnyGuarantee(after);
      assert SumGuarantees(lots) == 0 by { NoGuaranteeSumsToZero(lots); }
      var k :| 0 <= k < |after| && after[k].guarantee.Some? && after[k].guarantee.value.currency == FirstGuaranteeCurrency(after);
      assert k == |lots|;
    } else {
      assert forall k :: 0 <= k < |after| ==> after[k].guarantee.None?;
    }
  }

  /** Removing a lot from lots the tender is reconciled with lowers the value and guarantee by the lot's. */
  lemma {:induction false} RemoveRollsUp(lots: seq<Lot>, i: nat, value: Value, guarantee: Option<Guarantee>)
    requires i < |lots|
    requires value.amount == SumValues(lots)
    requires AnyGuarantee(lots) ==> guarantee.Some? && guarantee.value.amount == SumGuarantees(lots)
    ensures var rest := lots[..i] + lots[i + 1..];
            && (|rest| > 0 ==> TenderValue(rest, value).amount + lots[i].value.amount == value.amount)
            && (AnyGuarantee(rest) ==> TenderGuarantee(rest, guarantee).value.amount + GuaranteeAmount(lots[i]) == guarantee.value.amount)
  {
    var rest := lots[..i] + lots[i + 1..];
    SumValuesRemove(lots, i);
    SumGuaranteesRemove(lots, i);
    if AnyGuarantee(rest) {
      var k :| 0 <= k < |rest| && rest[k].guarantee.Some?;
      assert rest[k] == lots[if k < i then k else k + 1];
    }
  }

  /** Lots without guarantees add up to no guarantee. */
  lemma {:induction false} NoGuaranteeSumsToZero(lots: seq<Lot>)
    requires !AnyGuarantee(lots)
    ensures SumGuarantees(lots) == 0
  {
    if |lots| > 0 {
      assert forall k :: 0 <= k < |lots| - 1 ==> lots[1..][k] == lots[k + 1];
      NoGuaranteeSumsToZero(lots[1..]);
    }
  }

  /**
   * The guarantee rollup overwrites: a tender that declared its own guarantee of 100 and then gets a
   * single lot guaranteeing 20 reports 20, not 120.
   */
  lemma GuaranteeOverwrittenNotAdded(lot: Lot, currency: Currency)
    requires lot.guarantee == Some(Guarantee(20, currency))
    ensures TenderGuarantee([lot], Some(Guarantee(100, currency))) == Some(Guarantee(20, currency))
  {
    assert AnyGuarantee([lot]) by { assert [lot][0].guarantee.Some?; }
    assert [lot][1..] == [];
    assert SumGuarantees([lot]) == 20;
  }

  // ---- Computations of the derived fields, as the reconciliation pass runs them

  /** Adds up the lots' values, one lot at a time. */
  method ComputeValueTotal(lots: seq<Lot>) returns (total: nat)
    ensures total == SumValues(lots)
  {
    total := 0;
    var i := 0;
    while i < |lots|
      invariant 0 <= i <= |lots|
      invariant total == SumValues(lots[..i])
    {
      assert lots[..i + 1] == lots[..i] + [lots[i]];
      SumValuesAppend(lots[..i], lots[i]);
      total := total + lots[i].value.amount;
      i := i + 1;
    }
    assert lots[..|lots|] == lots;
  }

  /** Adds up the lots' guarantees, one lot at a time. */
  method ComputeGuaranteeTotal(lots: seq<Lot>) returns (total: nat)
    ensures total == SumGuarantees(lots)
  {
    total := 0;
    var i := 0;
    while i < |lots|
      invariant 0 <= i <= |lots|
      invariant total == SumGuarantees(lots[..i])
    {
      assert lots[..i + 1] == lots[..i] + [lots[i]];
      SumGuaranteesAppend(lots[..i], lots[i]);
      if lots[i].guarantee.Some? {
        total := total + lots[i].guarantee.value.amount;
      }
      i := i + 1;
    }
    assert lots[..|lots|] == lots;
  }

  /** Finds the least minimal step of a non-empty sequence of lots. */
  method ComputeMinStep(lots: seq<Lot>) returns (m: nat)
    requires |lots| > 0
    ensures forall i :: 0 <= i < |lots| ==> m <= lots[i].minimalStep.amount
    ensures exists i :: 0 <= i < |lots| && m == lots[i].minimalStep.amount
  {
    m := lots[0].minimalStep.amount;
    var i := 1;
    while i < |lots|
      invariant 1 <= i <= |lots|
      invariant forall k :: 0 <= k < i ==> m <= lots[k].minimalStep.amount
      invariant exists k :: 0 <= k < i && m == lots[k].minimalStep.amount
    {
      if lots[i].minimalStep.amount < m {
        m := lots[i].minimalStep.amount;
      }
      i := i + 1;
    }
  }

  /** The least step is unique: anything at most every step and equal to one of them is MinStep. */
  lemma MinStepUnique(lots: seq<Lot>, m: nat)
    requires |lots| > 0
    requires forall i :: 0 <= i < |lots| ==> m <= lots[i].minimalStep.amount
    requires exists i :: 0 <= i < |lots| && m == lots[i].minimalStep.amount
    ensures m == MinStep(lots)
  {
  }
}
