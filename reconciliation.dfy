/** The price / volume / total reconciliation of the two cash-priority forms
    (Nota-SPBU-Generator_v4.00.Arial.jsx and NotaPertamina.jsx carry the same
    code), the figures the receipt prints and the volume input it drives. Stored
    numbers are reals: the starting amounts are literals and every later one
    comes out of `parseFloat(..) || 0`, so none is NaN, and `parseFloat(n) || 0`
    gives `n` back. */
module Reconciliation {
  import opened JsNumbers
  import opened Transactions

  /** `{ calculatedVolume, finalPrice, isVolumeCalculated }`. */
  datatype Derived = Derived(calculatedVolume: real, finalPrice: real, isVolumeCalculated: bool)

  /** The reconciliation as a table of its three cases: a positive cash amount
      fixes the volume, otherwise a positive volume fixes the total, otherwise
      nothing is shown. */
  function Derive(price: real, volume: real, cash: real): (r: Derived)
    ensures r.calculatedVolume >= 0.0 && r.finalPrice >= 0.0
    ensures r.isVolumeCalculated ==> r.finalPrice == cash
  {
    if cash > 0.0 && price > 0.0 then
      assert cash / price > 0.0;
      Derived(cash / price, cash, true)
    else if volume > 0.0 && price > 0.0 then
      NonNegativeProduct(volume, price);
      Derived(volume, volume * price, false)
    else Derived(0.0, 0.0, false)
  }

  /** The reconciliation of a stored transaction. */
  function DeriveOf(t: TransactionData): (r: Derived)
    ensures r.calculatedVolume >= 0.0 && r.finalPrice >= 0.0
    ensures r.isVolumeCalculated <==> t.cashAmount > 0.0 && t.pricePerLiter > 0.0
  {
    Derive(t.pricePerLiter, t.volume, t.cashAmount)
  }

  /** The body of the `useMemo` (and of the inline block in NotaPertamina.jsx):
      the three results start from the stored volume and the cash amount and are
      reassigned by whichever branch applies. The division is guarded by a
      positive price. */
  method Reconcile(pricePerLiter: real, volume: real, cashAmount: real)
    returns (calculatedVolume: real, finalPrice: real, isVolumeCalculated: bool)
    ensures Derived(calculatedVolume, finalPrice, isVolumeCalculated) == Derive(pricePerLiter, volume, cashAmount)
  {
    var pL := pricePerLiter;
    var nominalBeli := cashAmount;
    calculatedVolume := volume;
    finalPrice := nominalBeli;
    isVolumeCalculated := false;
    if nominalBeli > 0.0 && pL > 0.0 {
      calculatedVolume := nominalBeli / pL;
      isVolumeCalculated := true;
      finalPrice := nominalBeli;
    } else if calculatedVolume > 0.0 && pL > 0.0 {
      finalPrice := calculatedVolume * pL;
    } else {
      calculatedVolume := 0.0;
      finalPrice := 0.0;
    }
  }

  /** The volume is derived exactly when cash and price are both positive; the
      derived volume is then the one that costs the cash amount. */
  lemma {:induction false} CashDriven(price: real, volume: real, cash: real)
    ensures Derive(price, volume, cash).isVolumeCalculated <==> cash > 0.0 && price > 0.0
    ensures Derive(price, volume, cash).isVolumeCalculated ==>
      Derive(price, volume, cash).calculatedVolume * price == cash == Derive(price, volume, cash).finalPrice
  {
    if cash > 0.0 && price > 0.0 {
      assert (cash / price) * price == cash;
    }
  }

  /** In every case the total is the shown volume times the price. */
  lemma {:induction false} TotalIsVolumeTimesPrice(price: real, volume: real, cash: real)
    ensures Derive(price, volume, cash).finalPrice == Derive(price, volume, cash).calculatedVolume * price
  {
    CashDriven(price, volume, cash);
  }

  /** With a positive price and cash, the stored volume is ignored. */
  lemma {:induction false} CashPriority(price: real, volume1: real, volume2: real, cash: real)
    requires cash > 0.0 && price > 0.0
    ensures Derive(price, volume1, cash) == Derive(price, volume2, cash)
    ensures Derive(price, volume1, cash).finalPrice == cash
  {
  }

  /** A cash amount that does not drive the volume acts as no cash at all. */
  lemma {:induction false} IdleCashIgnored(price: real, volume: real, cash: real)
    requires !(cash > 0.0 && price > 0.0)
    ensures Derive(price, volume, cash) == Derive(price, volume, 0.0)
  {
  }

  /** Whatever was typed (negative numbers included), shown volume and total are
      never negative, and a price that is not positive shows nothing. */
  lemma {:induction false} DerivedNonNegative(price: real, volume: real, cash: real)
    ensures Derive(price, volume, cash).calculatedVolume >= 0.0
    ensures Derive(price, volume, cash).finalPrice >= 0.0
    ensures price <= 0.0 ==> Derive(price, volume, cash) == Derived(0.0, 0.0, false)
  {
    if cash > 0.0 && price > 0.0 {
      assert cash / price > 0.0;
    } else if volume > 0.0 && price > 0.0 {
      assert volume * price > 0.0;
    }
  }

  /** The starting transaction (10 000 per litre, 10 litres, 100 000 cash) is cash driven. */
  lemma {:induction false} InitialIsCashDriven(noTrans: string, date: string, time: string)
    ensures DeriveOf(Initial(noTrans, date, time)) == Derived(10.0, 100000.0, true)
  {
  }

  /** The two receipt figures: `calculatedVolume || volume` and `finalPrice || cashAmount`. */
  datatype Shown = Shown(volume: real, total: real)

  function ReceiptFigures(t: TransactionData): (s: Shown)
    ensures DeriveOf(t).calculatedVolume != 0.0 ==> s.volume == DeriveOf(t).calculatedVolume
    ensures DeriveOf(t).calculatedVolume == 0.0 ==> s.volume == t.volume
    ensures DeriveOf(t).finalPrice != 0.0 ==> s.total == DeriveOf(t).finalPrice
    ensures DeriveOf(t).finalPrice == 0.0 ==> s.total == t.cashAmount
  {
    var d := DeriveOf(t);
    Shown(OrElse(d.calculatedVolume, t.volume), OrElse(d.finalPrice, t.cashAmount))
  }

  /** With no positive price the receipt still prints the cash amount as the total
      and the stored volume as the volume. */
  lemma {:induction false} ReceiptWithoutPrice(t: TransactionData)
    requires t.pricePerLiter <= 0.0
    ensures ReceiptFigures(t) == Shown(t.volume, t.cashAmount)
  {
    DerivedNonNegative(t.pricePerLiter, t.volume, t.cashAmount);
  }

  /** With neither a positive volume nor a positive cash amount (a negative
      volume typed into NotaPertamina.jsx, say) the receipt prints the stored
      figures as they are, whatever the price. */
  lemma {:induction false} ReceiptOfUnreconciled(t: TransactionData)
    requires t.volume <= 0.0 && t.cashAmount <= 0.0
    ensures ReceiptFigures(t) == Shown(t.volume, t.cashAmount)
  {
  }

  /** A reconciled transaction prints its derived figures unchanged. */
  lemma {:induction false} ReceiptOfReconciled(t: TransactionData)
    requires t.pricePerLiter > 0.0 && (t.cashAmount > 0.0 || t.volume > 0.0)
    ensures ReceiptFigures(t) == Shown(DeriveOf(t).calculatedVolume, DeriveOf(t).finalPrice)
  {
    DerivedNonNegative(t.pricePerLiter, t.volume, t.cashAmount);
    if t.cashAmount > 0.0 {
      assert t.cashAmount / t.pricePerLiter > 0.0;
    } else {
      assert t.volume * t.pricePerLiter > 0.0;
    }
  }

  /** The volume box is disabled while cash drives the volume, so a volume can be
      typed while a positive cash amount is stored only when the price is not
      positive: only then does a volume edit reset the cash. */
  lemma {:induction false} CashResetNeedsNoPrice(t: TransactionData)
    requires !DeriveOf(t).isVolumeCalculated && t.cashAmount > 0.0
    ensures t.pricePerLiter <= 0.0
    ensures VolumeInput(t) == (if t.volume == 0.0 then None else Some(NumberValue(t.volume)))
  {
  }

  /** The volume input: disabled and showing the `toFixed(2)` text of the derived
      volume while cash drives it, otherwise the stored volume. */
  function VolumeInput(t: TransactionData): (shown: Option<InputValue>)
    ensures DeriveOf(t).isVolumeCalculated ==> shown == Some(FixedTwo(DeriveOf(t).calculatedVolume))
    ensures !DeriveOf(t).isVolumeCalculated ==> (shown.None? <==> t.volume == 0.0)
    ensures shown.Some? && !DeriveOf(t).isVolumeCalculated ==> shown.value == NumberValue(t.volume)
  {
    var d := DeriveOf(t);
    var value := if d.isVolumeCalculated then FixedTwo(d.calculatedVolume) else NumberValue(t.volume);
    ZeroHidden(value, d.isVolumeCalculated)
  }
}
