/** NotaGenerator.jsx: no cash priority (the total is volume times price and
    cash only fills the "paid" line), a formatter that does not round, an
    `HH : MM : SS` clock and a default width of 300. */
module Generator {
  import opened JsNumbers
  import opened Formats
  import opened Transactions
  import opened Templates

  const DefaultWidth: int := 300
  const DefaultFooter: string := "Terimakasih dan selamat jalan"

  /** `initialSpbuConfig`; `generateId()` is a parameter. */
  function InitialConfig(freshId: string): (c: SpbuConfig)
    ensures c.footerNote == DefaultFooter && c.receiptWidth == DefaultWidth
    ensures c.id == freshId && c.logoBase64 == None && c.name != ""
  {
    SpbuConfig("SPBU PERTAMINA 00.000.00", "ALAMAT SPBU LENGKAP", DefaultFooter, DefaultWidth, freshId, None)
  }

  /** `formatTime`: `HH : MM : SS`. */
  function FormatTime(d: DateTime): (r: string)
    ensures |r| == 12 && r[2..5] == " : " && r[7..10] == " : "
    ensures AllRadixDigits(r[..2], 10) && DigitsValue(r[..2], 10) == d.hours
    ensures AllRadixDigits(r[5..7], 10) && DigitsValue(r[5..7], 10) == d.minutes
    ensures AllRadixDigits(r[10..], 10) && DigitsValue(r[10..], 10) == d.seconds
    ensures r[0] == '0' <==> d.hours < 10
    ensures r[5] == '0' <==> d.minutes < 10
    ensures r[10] == '0' <==> d.seconds < 10
  {
    var hh, mm, ss := Pad2(d.hours), Pad2(d.minutes), Pad2(d.seconds);
    var r := hh + " : " + mm + " : " + ss;
    assert r[..2] == hh && r[2..5] == " : " && r[5..7] == mm && r[7..10] == " : " && r[10..] == ss;
    r
  }

  /** `formatRupiah` without rounding: `number.toString()` grouped by dots. Only
      whole numbers are modelled. */
  function FormatRupiah(x: Number): (r: string)
    requires x.Finite? ==> x.value == x.value.Floor as real
    ensures x.NaN? ==> r == "0"
    ensures x.Finite? ==> RemoveDots(r) == IntString(x.value.Floor)
    ensures x.Finite? ==> (r[0] == '-' <==> x.value < 0.0)
    ensures |Unsigned(r)| >= 1 && WellGrouped(Unsigned(r)) && IsDigit(Unsigned(r)[0])
  {
    match x
    case NaN => "0"
    case Finite(v) => GroupInteger(v.Floor)
  }

  /** On whole numbers it prints what the rounding formatter of the other two forms prints. */
  lemma {:induction false} FormatRupiahAgrees(x: Number)
    requires x.Finite? ==> x.value == x.value.Floor as real
    ensures FormatRupiah(x) == Formats.FormatRupiah(x)
  {
    if x.Finite? {
      RoundUnique(x.value, x.value.Floor);
    }
  }

  /** What `handleTransactionChange` hands back: the named field set to
      `parseFloat(value) || 0` or to the typed text, and nothing else. */
  function Edit(prev: TransactionData, name: Field, value: string): (r: TransactionData)
    ensures name.Numeric? ==> r.Number(name.numeric) == ParseFloatOrZero(value)
    ensures name.Numeric? ==> forall g :: g != name.numeric ==> r.Number(g) == prev.Number(g)
    ensures name.Numeric? ==> forall t :: r.TextOf(t) == prev.TextOf(t)
    ensures name.Text? ==> r.TextOf(name.text) == value
    ensures name.Text? ==> forall t :: t != name.text ==> r.TextOf(t) == prev.TextOf(t)
    ensures name.Text? ==> forall g :: r.Number(g) == prev.Number(g)
  {
    match name
    case Numeric(f) => prev.WithNumber(f, ParseFloatOrZero(value))
    case Text(t) => prev.WithText(t, value)
  }

  /** `totalPrice`: `(parseFloat(volume) || 0) * (parseFloat(pricePerLiter) || 0)`. */
  function TotalPrice(t: TransactionData): (r: real)
    ensures r == 0.0 <==> t.volume == 0.0 || t.pricePerLiter == 0.0
    ensures t.volume >= 0.0 && t.pricePerLiter >= 0.0 ==> r >= 0.0
    ensures t.pricePerLiter > 0.0 ==> (r > 0.0 <==> t.volume > 0.0)
  {
    t.volume * t.pricePerLiter
  }

  /** The cash amount is never reset and never enters the total. */
  lemma {:induction false} CashIndependent(prev: TransactionData, name: Field, value: string)
    ensures name != Numeric(CashAmount) ==> Edit(prev, name, value).cashAmount == prev.cashAmount
    ensures name != Numeric(PricePerLiter) && name != Numeric(Volume) ==>
      TotalPrice(Edit(prev, name, value)) == TotalPrice(prev)
  {
    match name
    case Text(t) =>
      var r := Edit(prev, name, value);
      assert r.cashAmount == r.Number(CashAmount) == prev.Number(CashAmount);
      assert r.volume == r.Number(Volume) == prev.Number(Volume);
      assert r.pricePerLiter == r.Number(PricePerLiter) == prev.Number(PricePerLiter);
      assert TotalPrice(r) == TotalPrice(prev);
    case Numeric(f) =>
      var v := ParseFloatOrZero(value);
      var r := prev.WithNumber(f, v);
      assert Edit(prev, name, value) == r;
      prev.WithNumberFields(f, v);
      if f == CashAmount {
        assert r.volume == prev.volume && r.pricePerLiter == prev.pricePerLiter;
        assert TotalPrice(r) == TotalPrice(prev);
      }
  }

  /** The two amounts on the receipt: `finalPrice = totalPrice || volume * price`
      and `cash = parseFloat(cashAmount) || finalPrice`. */
  datatype Amounts = Amounts(finalPrice: real, cash: real)

  function ReceiptAmounts(t: TransactionData): (a: Amounts)
    ensures a.finalPrice == TotalPrice(t)
    ensures t.cashAmount != 0.0 ==> a.cash == t.cashAmount
    ensures t.cashAmount == 0.0 ==> a.cash == TotalPrice(t)
  {
    var totalPrice := TotalPrice(t);
    var finalPrice := OrElse(totalPrice, t.volume * t.pricePerLiter);
    Amounts(finalPrice, OrElse(t.cashAmount, finalPrice))
  }

  /** `handleSpbuChange`: every field is editable; the width falls back to 300. */
  function EditTemplate(cfg: SpbuConfig, field: SpbuField, value: string): (r: SpbuConfig)
    ensures r == SetField(cfg, field, value, DefaultWidth)
    ensures field == ReceiptWidth ==> r.receiptWidth != 0
  {
    SetField(cfg, field, value, DefaultWidth)
  }
}
