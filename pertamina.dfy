/** NotaPertamina.jsx: the cash-priority reconciliation without a character
    filter on numeric input, an `HH : MM` clock, all address lines on the receipt,
    a default width of 450 and an AI reply that fills the address and footer. */
module Pertamina {
  import opened JsNumbers
  import opened Formats
  import opened Lines
  import opened Transactions
  import opened Reconciliation
  import opened Templates

  const DefaultWidth: int := 450
  const DefaultFooter: string := "Terimakasih dan selamat jalan"

  /** `initialSpbuConfig`; `generateId()` is a parameter. */
  function InitialConfig(freshId: string): (c: SpbuConfig)
    ensures c.footerNote == DefaultFooter && c.receiptWidth == DefaultWidth
    ensures c.id == freshId && c.logoBase64 == None && c.name != ""
  {
    SpbuConfig("SPBU PERTAMINA 00.000.00", "ALAMAT SPBU LENGKAP", DefaultFooter, DefaultWidth, freshId, None)
  }

  /** `formatTime`: `HH : MM`. */
  function FormatTime(d: DateTime): (r: string)
    ensures |r| == 7 && r[2..5] == " : "
    ensures AllRadixDigits(r[..2], 10) && DigitsValue(r[..2], 10) == d.hours
    ensures AllRadixDigits(r[5..], 10) && DigitsValue(r[5..], 10) == d.minutes
    ensures r[0] == '0' <==> d.hours < 10
    ensures r[5] == '0' <==> d.minutes < 10
  {
    var hh, mm := Pad2(d.hours), Pad2(d.minutes);
    var r := hh + " : " + mm;
    assert r[..2] == hh && r[2..5] == " : " && r[5..] == mm;
    r
  }

  /** What `handleTransactionChange` hands back: `parseFloat(value) || 0` for a
      numeric field, the text as typed otherwise, and the cash amount zeroed when
      the volume is edited while cash is set. */
  function Edit(prev: TransactionData, name: Field, value: string): (r: TransactionData)
    ensures name.Text? ==> r == prev.WithText(name.text, value)
    ensures name.Numeric? ==> r.Number(name.numeric) == ParseFloatOrZero(value)
    ensures name.Numeric? ==> forall t :: r.TextOf(t) == prev.TextOf(t)
    ensures name == Numeric(Volume) && prev.cashAmount > 0.0 ==>
      r == prev.WithNumber(Volume, ParseFloatOrZero(value)).WithNumber(CashAmount, 0.0)
    ensures name == Numeric(Volume) && prev.cashAmount > 0.0 ==> r.cashAmount == 0.0
    ensures name == Numeric(Volume) ==> r.pricePerLiter == prev.pricePerLiter
    ensures name.Numeric? && !(name == Numeric(Volume) && prev.cashAmount > 0.0) ==>
      r == prev.WithNumber(name.numeric, ParseFloatOrZero(value))
  {
    match name
    case Numeric(f) =>
      var newTrans := prev.WithNumber(f, ParseFloatOrZero(value));
      if f == Volume && newTrans.cashAmount > 0.0 then newTrans.WithNumber(CashAmount, 0.0) else newTrans
    case Text(t) => prev.WithText(t, value)
  }

  /** `handleTransactionChange`: `newTrans` is the copy `{ ...prev, [name]: newValue }`,
      whose cash amount is then zeroed for a volume edit while cash is set. */
  method HandleTransactionChange(prev: TransactionData, name: Field, value: string) returns (newTrans: Transaction)
    ensures fresh(newTrans)
    ensures newTrans.Data() == Edit(prev, name, value)
  {
    newTrans := new Transaction(prev);
    match name
    case Numeric(f) =>
      var newValue := ParseFloatOrZero(value);
      newTrans.SetNumber(f, newValue);
      if f == Volume && newTrans.cashAmount > 0.0 {
        newTrans.SetNumber(CashAmount, 0.0);
      }
    case Text(t) =>
      newTrans.SetText(t, value);
  }

  /** After a volume edit the reconciliation is never cash driven. */
  lemma {:induction false} VolumeEditIsVolumeDriven(prev: TransactionData, value: string)
    ensures !DeriveOf(Edit(prev, Numeric(Volume), value)).isVolumeCalculated
  {
    var r := Edit(prev, Numeric(Volume), value);
    assert r.cashAmount <= 0.0 by {
      assert prev.cashAmount == prev.Number(CashAmount);
      assert r.cashAmount == r.Number(CashAmount);
    }
  }

  /** Without a filter a typed negative number is stored as it is, and a cash
      amount or price that is not positive never drives the volume. */
  lemma {:induction false} NegativeEntryStored(prev: TransactionData, f: NumericField, i: int)
    requires i < 0
    ensures Edit(prev, Numeric(f), IntString(i)).Number(f) == i as real
    ensures f != Volume ==> !DeriveOf(Edit(prev, Numeric(f), IntString(i))).isVolumeCalculated
  {
    assert ParseFloatOrZero(IntString(i)) == i as real by {
      ParseFloatIntString(i);
    }
    NegativeParsedStored(prev, f, IntString(i));
  }

  /** A text that parses to a negative number is stored as parsed, and as a
      price or cash amount it never drives the volume. */
  lemma {:induction false} NegativeParsedStored(prev: TransactionData, f: NumericField, s: string)
    requires ParseFloatOrZero(s) < 0.0
    ensures Edit(prev, Numeric(f), s).Number(f) == ParseFloatOrZero(s)
    ensures f != Volume ==> !DeriveOf(Edit(prev, Numeric(f), s)).isVolumeCalculated
  {
    var r := Edit(prev, Numeric(f), s);
    if f != Volume {
      CashDriven(r.pricePerLiter, r.volume, r.cashAmount);
      assert r.pricePerLiter == r.Number(PricePerLiter) && r.cashAmount == r.Number(CashAmount);
    }
  }

  /** The receipt volume falls back to the stored volume and the total to the
      cash amount; so with no price a positive cash amount is printed as the total. */
  lemma {:induction false} ReceiptTotalWithoutPrice(t: TransactionData)
    requires t.pricePerLiter == 0.0 && t.cashAmount > 0.0
    ensures ReceiptFigures(t).total == t.cashAmount
  {
    ReceiptWithoutPrice(t);
  }

  /** The receipt prints every address line: `address.split('\n')`. */
  function AddressLines(address: string): (lines: seq<string>)
    ensures |lines| >= 1
    ensures Join(lines) == address
    ensures forall k :: 0 <= k < |lines| ==> '\n' !in lines[k]
  {
    JoinSplit(address);
    Split(address)
  }

  /** `handleSpbuChange`: every field is editable; the width falls back to 450. */
  function EditTemplate(cfg: SpbuConfig, field: SpbuField, value: string): (r: SpbuConfig)
    ensures r == SetField(cfg, field, value, DefaultWidth)
    ensures field == ReceiptWidth ==> r.receiptWidth != 0
  {
    SetField(cfg, field, value, DefaultWidth)
  }

  /** The AI reply: `address: result.address || prev.address, footerNote:
      result.footerNote || prev.footerNote`; a missing field is the empty text. */
  function MergeAiResult(prev: SpbuConfig, address: string, footerNote: string): (r: SpbuConfig)
    ensures r.address == (if address != "" then address else prev.address)
    ensures r.footerNote == (if footerNote != "" then footerNote else prev.footerNote)
    ensures r == prev.(address := r.address, footerNote := r.footerNote)
  {
    prev.(address := if address != "" then address else prev.address,
          footerNote := if footerNote != "" then footerNote else prev.footerNote)
  }

  /** An empty reply changes nothing, and applying the same reply twice is applying it once. */
  lemma {:induction false} MergeAiResultLaws(prev: SpbuConfig, address: string, footerNote: string)
    ensures MergeAiResult(prev, "", "") == prev
    ensures MergeAiResult(MergeAiResult(prev, address, footerNote), address, footerNote)
            == MergeAiResult(prev, address, footerNote)
  {
  }

  /** After a delete the sync shows the template the new selection names. */
  lemma {:induction false} DeleteThenSync(list: seq<SpbuConfig>, cur: SpbuConfig, initial: SpbuConfig)
    requires cur.id != "" && Remaining(list, cur.id) != []
    ensures var rem := Remaining(list, cur.id);
      SyncSelection(rem, DeletePress(list, cur, "", true).selection, initial) == Synced(rem[0], rem[0].id)
  {
    FindFirst(Remaining(list, cur.id));
  }

  /** `updateDateTime`: date and time from one clock reading, nothing else changes. */
  function UpdateDateTime(t: TransactionData, now: DateTime): (u: TransactionData)
    ensures u.date == FormatDate(now) && u.time == FormatTime(now)
    ensures forall g :: u.Number(g) == t.Number(g)
    ensures forall f :: f != Date && f != Time ==> u.TextOf(f) == t.TextOf(f)
  {
    t.WithText(Date, FormatDate(now)).WithText(Time, FormatTime(now))
  }
}
