/** Nota-SPBU-Generator_v4.00.Arial.jsx: the variant with a locked receipt
    footer, a sanitising numeric edit, a two-line address and a logo resized to
    at most 204 pixels wide. */
module SpbuV4 {
  import opened JsNumbers
  import opened Formats
  import opened Lines
  import opened Transactions
  import opened Reconciliation
  import opened Templates

  const LogoMaxWidth: real := 204.0
  const DefaultWidth: int := 275
  const Rule: string := "____________________________"

  /** `LOCKED_FOOTER_TEXT`: a greeting line, five ruled lines, and a final line feed. */
  const LockedFooter: string := " TERIMAKASIH ATAS KUNJUNGAN ANDA \n" + Rule + "\n" + Rule + "\n" + Rule + "\n" + Rule + "\n" + Rule + "\n"

  /** `initialSpbuConfig`; `generateId()` is a parameter. */
  function InitialConfig(freshId: string): (c: SpbuConfig)
    ensures c.footerNote == LockedFooter && c.receiptWidth == DefaultWidth
    ensures c.id == freshId && c.logoBase64 == None && c.name != ""
  {
    SpbuConfig("SPBU PERTAMINA 00.000.00", "ALAMAT SPBU LENGKAP", LockedFooter, DefaultWidth, freshId, None)
  }

  /** `formatTime`: `HH:MM`. */
  function FormatTime(d: DateTime): (r: string)
    ensures |r| == 5 && r[2] == ':'
    ensures AllRadixDigits(r[..2], 10) && DigitsValue(r[..2], 10) == d.hours
    ensures AllRadixDigits(r[3..], 10) && DigitsValue(r[3..], 10) == d.minutes
    ensures r[0] == '0' <==> d.hours < 10
    ensures r[3] == '0' <==> d.minutes < 10
  {
    var hh, mm := Pad2(d.hours), Pad2(d.minutes);
    var r := hh + ":" + mm;
    assert r[..2] == hh && r[3..] == mm;
    r
  }

  /** A character the numeric sanitiser keeps. */
  predicate IsNumeral(c: char) {
    IsDigit(c) || c == '.'
  }

  /** `value.replace(/[^0-9.]/g, '')`. */
  function Sanitize(s: string): (r: string)
    ensures forall i :: 0 <= i < |r| ==> IsNumeral(r[i])
    ensures |r| <= |s|
  {
    if s == [] then [] else (if IsNumeral(s[0]) then [s[0]] else []) + Sanitize(s[1..])
  }

  /** The sanitiser works character by character, so it keeps the order of what it keeps. */
  lemma {:induction false} SanitizeAppend(a: string, b: string)
    ensures Sanitize(a + b) == Sanitize(a) + Sanitize(b)
  {
    if a != [] {
      assert (a + b)[0] == a[0];
      assert (a + b)[1..] == a[1..] + b;
      SanitizeAppend(a[1..], b);
    } else {
      assert a + b == b;
    }
  }

  /** Any other character is deleted. With `SanitizeAppend` and
      `SanitizeKeepsNumerals` this fixes the result on every string. */
  lemma {:induction false} SanitizeDropsOther(c: char)
    requires !IsNumeral(c)
    ensures Sanitize([c]) == []
  {
    assert [c][1..] == [];
  }

  /** "1a5" becomes "15": the letter is deleted, not replaced. */
  lemma {:induction false} SanitizeExample()
    ensures Sanitize("1a5") == "15"
  {
    SanitizeAppend("1a", "5");
    SanitizeAppend("1", "a");
    SanitizeDropsOther('a');
    SanitizeKeepsNumerals("1");
    SanitizeKeepsNumerals("5");
    assert "1a5" == "1a" + "5" && "1a" == "1" + "a";
  }

  /** A string of digits and dots is left as it is. */
  lemma {:induction false} SanitizeKeepsNumerals(s: string)
    requires forall i :: 0 <= i < |s| ==> IsNumeral(s[i])
    ensures Sanitize(s) == s
  {
    if s != [] {
      SanitizeKeepsNumerals(s[1..]);
    }
  }

  lemma {:induction false} SanitizeIdempotent(s: string)
    ensures Sanitize(Sanitize(s)) == Sanitize(s)
  {
    SanitizeKeepsNumerals(Sanitize(s));
  }

  /** After sanitising no minus sign is left, so the parsed value is never negative. */
  lemma {:induction false} SanitizedNeverNegative(s: string)
    ensures ParseFloatOrZero(Sanitize(s)) >= 0.0
  {
    assert '-' !in Sanitize(s) by {
      assert !IsNumeral('-');
    }
  }

  /** What `handleTransactionChange` hands back for one change event. */
  function Edit(prev: TransactionData, name: Field, value: string): (r: TransactionData)
    ensures name.Text? ==> r.TextOf(name.text) == value
    ensures name.Text? ==> forall g :: r.Number(g) == prev.Number(g)
    ensures name.Text? ==> forall t :: t != name.text ==> r.TextOf(t) == prev.TextOf(t)
    ensures name.Numeric? ==> r.Number(name.numeric) == ParseFloatOrZero(Sanitize(value))
    ensures name.Numeric? ==> forall t :: r.TextOf(t) == prev.TextOf(t)
    ensures name == Numeric(Volume) && prev.cashAmount > 0.0 ==> r.cashAmount == 0.0
    ensures name.Numeric? && !(name == Numeric(Volume) && prev.cashAmount > 0.0) ==>
      forall g :: g != name.numeric ==> r.Number(g) == prev.Number(g)
    ensures name == Numeric(Volume) && prev.cashAmount > 0.0 ==>
      r == prev.WithNumber(Volume, ParseFloatOrZero(Sanitize(value))).WithNumber(CashAmount, 0.0)
    ensures name == Numeric(Volume) ==> r.pricePerLiter == prev.pricePerLiter
  {
    match name
    case Numeric(f) =>
      var update := prev.WithNumber(f, ParseFloatOrZero(Sanitize(value)));
      if f == Volume && prev.cashAmount > 0.0 then update.WithNumber(CashAmount, 0.0) else update
    case Text(t) => prev.WithText(t, value)
  }

  /** `handleTransactionChange`: copy the previous record, assign the named field
      (sanitised and parsed when numeric), and zero the cash amount when the
      volume is edited while cash is set. */
  method HandleTransactionChange(prev: TransactionData, name: Field, value: string) returns (update: Transaction)
    ensures fresh(update)
    ensures update.Data() == Edit(prev, name, value)
  {
    update := new Transaction(prev);
    match name
    case Numeric(f) =>
      var newValue := Sanitize(value);
      var floatValue := ParseFloatOrZero(newValue);
      update.SetNumber(f, floatValue);
      if f == Volume && prev.cashAmount > 0.0 {
        update.SetNumber(CashAmount, 0.0);
      }
    case Text(t) =>
      update.SetText(t, value);
  }

  /** After a volume edit the reconciliation is never cash driven: either the cash
      was reset to 0, or it was not positive to begin with. */
  lemma {:induction false} VolumeEditIsVolumeDriven(prev: TransactionData, value: string)
    ensures !DeriveOf(Edit(prev, Numeric(Volume), value)).isVolumeCalculated
  {
    var r := Edit(prev, Numeric(Volume), value);
    assert r.cashAmount <= 0.0 by {
      assert prev.cashAmount == prev.Number(CashAmount);
      assert r.cashAmount == r.Number(CashAmount);
    }
  }

  /** Editing the price or the cash amount changes that field and nothing else. */
  lemma {:induction false} PriceOrCashEditIsLocal(prev: TransactionData, f: NumericField, value: string)
    requires f != Volume
    ensures Edit(prev, Numeric(f), value) == prev.WithNumber(f, ParseFloatOrZero(Sanitize(value)))
  {
  }

  /** Stored numbers stay non-negative under every edit. */
  lemma {:induction false} EditKeepsNonNegative(prev: TransactionData, name: Field, value: string)
    requires prev.NonNegative()
    ensures Edit(prev, name, value).NonNegative()
  {
    var r := Edit(prev, name, value);
    SanitizedNeverNegative(value);
    assert r.pricePerLiter == r.Number(PricePerLiter) && r.volume == r.Number(Volume) && r.cashAmount == r.Number(CashAmount);
    assert prev.pricePerLiter == prev.Number(PricePerLiter) && prev.volume == prev.Number(Volume) && prev.cashAmount == prev.Number(CashAmount);
  }

  /** A typed whole number is stored as that number. */
  lemma {:induction false} EditStoresTypedNumber(prev: TransactionData, f: NumericField, n: nat)
    ensures Edit(prev, Numeric(f), DecimalString(n)).Number(f) == n as real
  {
    var s := DecimalString(n);
    forall i | 0 <= i < |s| ensures IsNumeral(s[i]) {
      assert IsDigit(s[i]);
    }
    SanitizeKeepsNumerals(s);
    ParseFloatDecimalString(n);
  }

  /** A typed minus sign is dropped, not read: "-n" is stored as n. */
  lemma {:induction false} MinusSignDropped(prev: TransactionData, f: NumericField, n: nat)
    ensures Edit(prev, Numeric(f), "-" + DecimalString(n)).Number(f) == n as real
  {
    var s := DecimalString(n);
    assert Sanitize("-" + s) == Sanitize(s) by {
      SanitizeAppend("-", s);
      assert Sanitize("-") == [] by {
        assert !IsNumeral('-');
        assert "-"[1..] == [];
      }
    }
    calc {
      Edit(prev, Numeric(f), "-" + s).Number(f);
      ParseFloatOrZero(Sanitize("-" + s));
      ParseFloatOrZero(Sanitize(s));
      Edit(prev, Numeric(f), s).Number(f);
      { EditStoresTypedNumber(prev, f, n); }
      n as real;
    }
  }

  /** The sanitiser keeps every dot, so in "a.f.g" the second dot ends the number:
      the field stores a plus the fraction f. */
  lemma {:induction false} SecondDotEndsNumber(prev: TransactionData, f: NumericField, ds: string, fs: string, gs: string)
    requires |ds| >= 1 && AllDigits(ds) && AllDigits(fs) && AllDigits(gs)
    ensures Edit(prev, Numeric(f), ds + "." + fs + "." + gs).Number(f) == Mantissa(ds, fs)
  {
    var s := ds + "." + fs + "." + gs;
    SanitizeTwoDots(ds, fs, gs);
    assert AllRadixDigits(ds, 10) && AllRadixDigits(fs, 10) by {
      assert forall i :: 0 <= i < |ds| ==> IsDigit(ds[i]);
      assert forall i :: 0 <= i < |fs| ==> IsDigit(fs[i]);
    }
    assert s == ds + "." + fs + ("." + gs);
    ParseFloatFraction(ds, fs, "." + gs);
  }

  /** Digits and two dots pass the sanitiser unchanged. */
  lemma SanitizeTwoDots(ds: string, fs: string, gs: string)
    requires AllDigits(ds) && AllDigits(fs) && AllDigits(gs)
    ensures Sanitize(ds + "." + fs + "." + gs) == ds + "." + fs + "." + gs
  {
    SanitizeKeepsNumerals(ds);
    SanitizeKeepsNumerals(".");
    SanitizeKeepsNumerals(fs);
    SanitizeKeepsNumerals(gs);
    SanitizeAppend(ds + "." + fs + ".", gs);
    SanitizeAppend(ds + "." + fs, ".");
    SanitizeAppend(ds + ".", fs);
    SanitizeAppend(ds, ".");
  }

  /** From the starting transaction (cash driven: 10 litres for 100 000), typing 5
      into the volume gives 5 litres for 50 000, driven by the volume. */
  lemma VolumeEditScenario(noTrans: string, date: string, time: string)
    ensures DeriveOf(Edit(Initial(noTrans, date, time), Numeric(Volume), "5")) == Derived(5.0, 50000.0, false)
  {
    assert DecimalString(5) == "5";
    EditStoresTypedNumber(Initial(noTrans, date, time), Volume, 5);
    var r := Edit(Initial(noTrans, date, time), Numeric(Volume), "5");
    assert r.volume == r.Number(Volume) == 5.0;
    assert r.cashAmount == r.Number(CashAmount) == 0.0;
    assert r.pricePerLiter == r.Number(PricePerLiter) == 10000.0;
  }

  /** The snapshot listener's re-selection:
      `isCurrentStillInList && prevId ? prevId : list.length > 0 ? list[0].id : ''`. */
  function ResolveSelection(list: seq<SpbuConfig>, prevId: string): (sel: string)
    ensures prevId != "" && Find(list, prevId).Some? ==> sel == prevId
    ensures !(prevId != "" && Find(list, prevId).Some?) && |list| > 0 ==> sel == list[0].id
    ensures |list| == 0 ==> sel == ""
  {
    if Find(list, prevId).Some? && prevId != "" then prevId
    else if |list| > 0 then list[0].id
    else ""
  }

  /** The selection names a template of the list, or is empty; when no template
      has an empty id it is empty exactly when the list is. */
  lemma {:induction false} ResolveSelectionInList(list: seq<SpbuConfig>, prevId: string)
    ensures ResolveSelection(list, prevId) == "" || Find(list, ResolveSelection(list, prevId)).Some?
    ensures (forall k :: 0 <= k < |list| ==> list[k].id != "") ==>
      (ResolveSelection(list, prevId) == "" <==> |list| == 0)
  {
    if !(prevId != "" && Find(list, prevId).Some?) && |list| > 0 {
      FindFirst(list);
    }
  }

  /** A second snapshot with the same list keeps the selection. */
  lemma {:induction false} ResolveSelectionIdempotent(list: seq<SpbuConfig>, prevId: string)
    ensures ResolveSelection(list, ResolveSelection(list, prevId)) == ResolveSelection(list, prevId)
  {
    ResolveSelectionInList(list, prevId);
  }

  /** The sync effect: a found template is shown with its footer replaced by the
      locked text; otherwise the initial template is shown and, when the list is
      not empty, the selection moves to its first entry. */
  function SyncSelection(list: seq<SpbuConfig>, selected: string, initial: SpbuConfig): (s: Synced)
    ensures Find(list, selected).Some? ==>
      s == Synced(Find(list, selected).value.(footerNote := LockedFooter), selected)
    ensures Find(list, selected).None? ==> s.current == initial
    ensures Find(list, selected).None? && |list| > 0 ==> s.selection == list[0].id
    ensures |list| == 0 ==> s.selection == selected
  {
    match Find(list, selected)
    case Some(c) => Synced(c.(footerNote := LockedFooter), selected)
    case None => Synced(initial, if |list| > 0 then list[0].id else selected)
  }

  /** The shown footer is always the locked text. */
  lemma {:induction false} FooterAlwaysLocked(list: seq<SpbuConfig>, selected: string, freshId: string)
    ensures SyncSelection(list, selected, InitialConfig(freshId)).current.footerNote == LockedFooter
  {
  }

  /** When the sync moves the selection, its second run shows the first template
      (footer locked), and a third run changes nothing. */
  lemma {:induction false} SyncSettlesOnSecondRun(list: seq<SpbuConfig>, selected: string, initial: SpbuConfig)
    requires Find(list, selected).None? && |list| > 0
    ensures var s2 := SyncSelection(list, SyncSelection(list, selected, initial).selection, initial);
      s2 == Synced(list[0].(footerNote := LockedFooter), list[0].id) &&
      SyncSelection(list, s2.selection, initial) == s2
  {
    FindFirst(list);
  }

  /** `handleSpbuChange`: the footer cannot be edited; the width falls back to 275. */
  function EditTemplate(cfg: SpbuConfig, field: SpbuField, value: string): (r: SpbuConfig)
    ensures field == FooterNote ==> r == cfg
    ensures field != FooterNote ==> r == SetField(cfg, field, value, DefaultWidth)
    ensures r.footerNote == cfg.footerNote
    ensures r.receiptWidth != 0 || r.receiptWidth == cfg.receiptWidth
  {
    if field == FooterNote then cfg else SetField(cfg, field, value, DefaultWidth)
  }

  /** A width typed with a unit, "300px", is read as 300; "px" alone falls back to 275. */
  lemma {:induction false} WidthWithUnit(cfg: SpbuConfig)
    ensures EditTemplate(cfg, ReceiptWidth, "300px").receiptWidth == 300
    ensures EditTemplate(cfg, ReceiptWidth, "px").receiptWidth == DefaultWidth
  {
    ReadThreeHundred();
    NoDigitsNoInt();
  }

  /** `parseInt` stops at the unit. */
  lemma ReadThreeHundred()
    ensures ParseInt("300px") == Some(300)
  {
    var ds := "300";
    assert ds[..2] == "30" && ds[..2][..1] == "3" && ds[..2][..1][..0] == [];
    assert DigitsValue(ds[..2][..1], 10) == 3;
    assert DigitsValue(ds[..2], 10) == 30;
    assert DigitsValue(ds, 10) == 300;
    assert "300px" == ds + "px";
    ParseIntDigitsThen(ds, "px");
  }

  /** Text without digits is not an integer. */
  lemma NoDigitsNoInt()
    ensures ParseInt("px") == None
  {
    assert TrimStart("px") == "px" by { assert !IsJsSpace('p'); }
    assert !IsRadixDigit('p', 10);
  }

  /** `handleSaveSpbu`: refused without a name; otherwise the footer is locked and
      the id is kept when it names a listed template, else a fresh one is used. */
  function SaveTemplate(cur: SpbuConfig, list: seq<SpbuConfig>, freshId: string): (r: Option<SpbuConfig>)
    ensures r.None? <==> cur.name == ""
    ensures r.Some? ==> r.value == cur.(footerNote := LockedFooter, id := r.value.id)
    ensures r.Some? && cur.id != "" && Find(list, cur.id).Some? ==> r.value.id == cur.id
    ensures r.Some? && !(cur.id != "" && Find(list, cur.id).Some?) ==> r.value.id == freshId
  {
    if cur.name == "" then None
    else
      var id := if cur.id != "" && Find(list, cur.id).Some? then cur.id else freshId;
      Some(cur.(footerNote := LockedFooter, id := id))
  }

  /** With a fresh id that no template has, a save overwrites a listed template
      exactly when the edited template was one of them. */
  lemma {:induction false} SaveOverwritesIffListed(cur: SpbuConfig, list: seq<SpbuConfig>, freshId: string)
    requires cur.name != "" && Find(list, freshId).None?
    ensures Find(list, SaveTemplate(cur, list, freshId).value.id).Some? <==> cur.id != "" && Find(list, cur.id).Some?
  {
  }

  /** Once the listener delivers the saved template, the sync shows it as saved. */
  lemma {:induction false} SavedIsShown(list: seq<SpbuConfig>, saved: SpbuConfig, initial: SpbuConfig)
    requires saved.footerNote == LockedFooter && Find(list, saved.id) == Some(saved)
    ensures SyncSelection(list, saved.id, initial) == Synced(saved, saved.id)
  {
    assert saved.(footerNote := LockedFooter) == saved;
  }

  /** `handleDeleteSpbu`: nothing happens for a template without an id or when
      the user cancels the confirmation dialog (`confirmed` is its answer);
      otherwise the selection is cleared. */
  function DeleteSelection(cur: SpbuConfig, selected: string, confirmed: bool): (sel: string)
    ensures cur.id == "" || !confirmed ==> sel == selected
    ensures cur.id != "" && confirmed ==> sel == ""
  {
    if cur.id == "" || !confirmed then selected else ""
  }

  /** Clearing the selection and letting the listener re-select gives the rule of
      the other two forms: the first remaining template, never the deleted one. */
  lemma {:induction false} DeleteThenResolve(list: seq<SpbuConfig>, cur: SpbuConfig, selected: string)
    requires cur.id != ""
    ensures ResolveSelection(Remaining(list, cur.id), DeleteSelection(cur, selected, true)) == SelectAfterDelete(list, cur.id)
    ensures SelectAfterDelete(list, cur.id) != cur.id
  {
    DeleteSelectsFirstRemaining(list, cur.id);
  }

  /** The AI address: the reply's address, or the closed-over address when it is
      empty, cut to its first two lines. The handler is a `useCallback` that is
      rebuilt only when the name changes, so `closedOver` is the template's address
      as it stood at the last name change, not necessarily the live one. */
  function AiAddress(resultAddress: string, closedOver: string): (a: string)
    ensures a <= (if resultAddress != "" then resultAddress else closedOver)
    ensures |Split(a)| <= 2
    ensures resultAddress == "" && |Split(closedOver)| <= 2 ==> a == closedOver
    ensures resultAddress != "" && |Split(resultAddress)| <= 2 ==> a == resultAddress
    ensures var address := if resultAddress != "" then resultAddress else closedOver;
      Split(a) == Split(address)[..Min(2, |Split(address)|)]
  {
    var address := if resultAddress != "" then resultAddress else closedOver;
    FirstLinesProperties(address, 2);
    FirstLines(address, 2)
  }

  /** A stored AI address passes through the truncation again unchanged. */
  lemma {:induction false} AiAddressIdempotent(resultAddress: string, closedOver: string, other: string)
    ensures var a := AiAddress(resultAddress, closedOver);
      a != "" ==> AiAddress(a, other) == a
  {
  }

  /** `setCurrentSpbu(prev => ({ ...prev, address }))`: the live template gets the
      new address and keeps everything else. */
  function ApplyAiAddress(live: SpbuConfig, resultAddress: string, closedOver: string): (r: SpbuConfig)
    ensures r == live.(address := AiAddress(resultAddress, closedOver))
    ensures r.name == live.name && r.footerNote == live.footerNote && r.id == live.id
  {
    live.(address := AiAddress(resultAddress, closedOver))
  }

  /** A reply without an address writes the closed-over address back, so an
      address typed since the name last changed is lost. */
  lemma {:induction false} AiOverwritesLiveAddress(live: SpbuConfig, closedOver: string)
    requires |Split(closedOver)| <= 2 && live.address != closedOver
    ensures ApplyAiAddress(live, "", closedOver).address == closedOver != live.address
  {
  }

  /** The address lines the receipt prints: `(address || '').split('\n').slice(0, 2)`. */
  function AddressLines(address: string): (lines: seq<string>)
    ensures 1 <= |lines| <= 2
    ensures lines == Split(FirstLines(address, 2))
    ensures forall k :: 0 <= k < |lines| ==> '\n' !in lines[k]
    ensures Join(lines) <= address
  {
    FirstLinesProperties(address, 2);
    Split(address)[..Min(2, |Split(address)|)]
  }

  /** `resizeImageAndGetBase64`'s dimensions: an image wider than the limit is
      scaled down to it, keeping its aspect ratio. */
  method ResizeDimensions(width: real, height: real, maxWidth: real) returns (w: real, h: real)
    requires maxWidth > 0.0
    ensures width > maxWidth ==> w == maxWidth
    ensures width <= maxWidth ==> w == width && h == height
    ensures h * width == height * w
  {
    w, h := width, height;
    if w > maxWidth {
      h := h * (maxWidth / w);
      w := maxWidth;
    }
  }

  /** `handleLogoUpload`: the logo is resized to at most `LOGO_MAX_WIDTH` pixels wide. */
  method ResizeLogo(width: real, height: real) returns (w: real, h: real)
    ensures w <= LogoMaxWidth
    ensures width <= LogoMaxWidth ==> w == width && h == height
    ensures h * width == height * w
  {
    w, h := ResizeDimensions(width, height, LogoMaxWidth);
  }

  /** The `tel` inputs hide a stored 0 unless disabled; text inputs show it. */
  function TelDisplay(value: InputValue, isTel: bool, disabled: bool): (shown: Option<InputValue>)
    ensures shown.None? <==> isTel && value == NumberValue(0.0) && !disabled
    ensures isTel ==> shown == ZeroHidden(value, disabled)
    ensures shown.Some? ==> shown.value == value
  {
    if isTel && value == NumberValue(0.0) && !disabled then None else Some(value)
  }

  /** The "new template" button: the initial template with a fresh id, named
      'SPBU BARU', without a logo, with the locked footer and width 275. */
  function NewTemplate(initialId: string, freshId: string): (c: SpbuConfig)
    ensures c == Templates.NewTemplate(InitialConfig(initialId), freshId)
    ensures c.footerNote == LockedFooter && c.receiptWidth == DefaultWidth
  {
    InitialConfig(initialId).(id := freshId, name := "SPBU BARU", logoBase64 := None,
                              footerNote := LockedFooter, receiptWidth := DefaultWidth)
  }

  /** `generateRandomTransId`: a new six-digit transaction number, nothing else changes. */
  function RegenerateTransNo(t: TransactionData, r: real): (u: TransactionData)
    requires 0.0 <= r < 1.0
    ensures |u.noTrans| == 6 && AllRadixDigits(u.noTrans, 10)
    ensures 100000 <= DigitsValue(u.noTrans, 10) <= 999999
    ensures u == t.WithText(NoTrans, u.noTrans)
  {
    t.WithText(NoTrans, RandomTransNo(r))
  }

  /** `updateDateTime`: date and time from one clock reading, nothing else changes. */
  function UpdateDateTime(t: TransactionData, now: DateTime): (u: TransactionData)
    ensures u.date == FormatDate(now) && u.time == FormatTime(now)
    ensures forall g :: u.Number(g) == t.Number(g)
    ensures forall f :: f != Date && f != Time ==> u.TextOf(f) == t.TextOf(f)
  {
    t.WithText(Date, FormatDate(now)).WithText(Time, FormatTime(now))
  }
}
