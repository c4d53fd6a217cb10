/** The transaction record the three receipt forms edit, the object that holds a
    copy of it while a change handler updates it, the random transaction number
    and the input box rule that shows a stored `0` as an empty box. */
module Transactions {
  import opened JsNumbers

  /** The inputs whose text is parsed into a number. */
  datatype NumericField = PricePerLiter | Volume | CashAmount

  /** The inputs stored as typed. */
  datatype TextField = Shift | NoTrans | Date | Time | IslandPump | ProductName | Operator | Nopol

  /** The `name` of the input a change event comes from. */
  datatype Field = Numeric(numeric: NumericField) | Text(text: TextField)

  /** `transactionData` / `transaction`: eight text fields and three numbers. */
  datatype TransactionData = TransactionData(
    shift: string, noTrans: string, date: string, time: string, islandPump: string,
    productName: string, pricePerLiter: real, volume: real, cashAmount: real,
    operator: string, nopol: string)
  {
    function Number(f: NumericField): real {
      match f
      case PricePerLiter => pricePerLiter
      case Volume => volume
      case CashAmount => cashAmount
    }

    function TextOf(f: TextField): string {
      match f
      case Shift => shift
      case NoTrans => noTrans
      case Date => date
      case Time => time
      case IslandPump => islandPump
      case ProductName => productName
      case Operator => operator
      case Nopol => nopol
    }

    /** `{ ...this, [f]: v }` for a numeric field. */
    function WithNumber(f: NumericField, v: real): (r: TransactionData)
      ensures r.Number(f) == v
      ensures forall g :: g != f ==> r.Number(g) == Number(g)
      ensures forall t :: r.TextOf(t) == TextOf(t)
    {
      match f
      case PricePerLiter => this.(pricePerLiter := v)
      case Volume => this.(volume := v)
      case CashAmount => this.(cashAmount := v)
    }

    /** `{ ...this, [f]: v }` for a text field. */
    function WithText(f: TextField, v: string): (r: TransactionData)
      ensures r.TextOf(f) == v
      ensures forall t :: t != f ==> r.TextOf(t) == TextOf(t)
      ensures forall g :: r.Number(g) == Number(g)
    {
      match f
      case Shift => this.(shift := v)
      case NoTrans => this.(noTrans := v)
      case Date => this.(date := v)
      case Time => this.(time := v)
      case IslandPump => this.(islandPump := v)
      case ProductName => this.(productName := v)
      case Operator => this.(operator := v)
      case Nopol => this.(nopol := v)
    }

    /** The three numbers after `WithNumber`, field by field. */
    lemma WithNumberFields(f: NumericField, v: real)
      ensures WithNumber(f, v).pricePerLiter == (if f == PricePerLiter then v else pricePerLiter)
      ensures WithNumber(f, v).volume == (if f == Volume then v else volume)
      ensures WithNumber(f, v).cashAmount == (if f == CashAmount then v else cashAmount)
    {
    }

    /** No stored number is negative. */
    predicate NonNegative() {
      pricePerLiter >= 0.0 && volume >= 0.0 && cashAmount >= 0.0
    }
  }

  /** Two records that agree on every field are the same record. */
  lemma {:induction false} FieldsDetermine(a: TransactionData, b: TransactionData)
    requires forall g :: a.Number(g) == b.Number(g)
    requires forall t :: a.TextOf(t) == b.TextOf(t)
    ensures a == b
  {
    assert a.Number(PricePerLiter) == b.Number(PricePerLiter);
    assert a.Number(Volume) == b.Number(Volume);
    assert a.Number(CashAmount) == b.Number(CashAmount);
    assert a.TextOf(Shift) == b.TextOf(Shift);
    assert a.TextOf(NoTrans) == b.TextOf(NoTrans);
    assert a.TextOf(Date) == b.TextOf(Date);
    assert a.TextOf(Time) == b.TextOf(Time);
    assert a.TextOf(IslandPump) == b.TextOf(IslandPump);
    assert a.TextOf(ProductName) == b.TextOf(ProductName);
    assert a.TextOf(Operator) == b.TextOf(Operator);
    assert a.TextOf(Nopol) == b.TextOf(Nopol);
  }

  /** `initialTransactionData`; the random number and the clock readings are parameters. */
  function Initial(noTrans: string, date: string, time: string): (t: TransactionData)
    ensures t.NonNegative()
    ensures t.pricePerLiter == 10000.0 && t.volume == 10.0 && t.cashAmount == 100000.0
    ensures t.noTrans == noTrans && t.date == date && t.time == time
  {
    TransactionData("1", noTrans, date, time, "1", "Pertalite", 10000.0, 10.0, 100000.0, "Admin", "DR 1234 XY")
  }

  /** The copy `{ ...prev }` a change handler builds and then assigns field by field. */
  class Transaction {
    var shift: string
    var noTrans: string
    var date: string
    var time: string
    var islandPump: string
    var productName: string
    var pricePerLiter: real
    var volume: real
    var cashAmount: real
    var operator: string
    var nopol: string

    function Data(): TransactionData
      reads this
    {
      TransactionData(shift, noTrans, date, time, islandPump, productName,
                      pricePerLiter, volume, cashAmount, operator, nopol)
    }

    /** `{ ...prev }`. */
    constructor (prev: TransactionData)
      ensures Data() == prev
    {
      shift, noTrans, date, time := prev.shift, prev.noTrans, prev.date, prev.time;
      islandPump, productName := prev.islandPump, prev.productName;
      pricePerLiter, volume, cashAmount := prev.pricePerLiter, prev.volume, prev.cashAmount;
      operator, nopol := prev.operator, prev.nopol;
    }

    /** `update[name] = v` for a numeric field. */
    method SetNumber(f: NumericField, v: real)
      modifies this
      ensures Data() == old(Data()).WithNumber(f, v)
    {
      match f
      case PricePerLiter => pricePerLiter := v;
      case Volume => volume := v;
      case CashAmount => cashAmount := v;
    }

    /** `update[name] = v` for a text field. */
    method SetText(f: TextField, v: string)
      modifies this
      ensures Data() == old(Data()).WithText(f, v)
    {
      match f
      case Shift => shift := v;
      case NoTrans => noTrans := v;
      case Date => date := v;
      case Time => time := v;
      case IslandPump => islandPump := v;
      case ProductName => productName := v;
      case Operator => operator := v;
      case Nopol => nopol := v;
    }
  }

  /** `Math.floor(100000 + r * 900000).toString()` for a draw `0 <= r < 1` of `Math.random()`. */
  function RandomTransNo(r: real): (s: string)
    requires 0.0 <= r < 1.0
    ensures |s| == 6 && AllRadixDigits(s, 10) && s[0] != '0'
    ensures 100000 <= DigitsValue(s, 10) <= 999999
  {
    var n := (100000.0 + r * 900000.0).Floor;
    assert 100000 <= n <= 999999;
    assert Pow10(6) == 1000000 by {
      assert Pow10(1) == 10;
      assert Pow10(2) == 100;
      assert Pow10(3) == 1000;
      assert Pow10(4) == 10000;
    }
    DecimalStringLength(n, 6);
    DecimalString(n)
  }

  /** Every six-digit number is drawn for some value of `Math.random()`. */
  lemma RandomTransNoCovers(n: int)
    requires 100000 <= n <= 999999
    ensures exists r :: 0.0 <= r < 1.0 && RandomTransNo(r) == DecimalString(n)
  {
    var r := (n - 100000) as real / 900000.0;
    assert 100000.0 + r * 900000.0 == n as real;
    assert RandomTransNo(r) == DecimalString(n);
  }

  /** The value an input box is bound to: a stored number, a stored text, or
      the `toFixed(2)` text of a number (its digits are not modelled). */
  datatype InputValue = NumberValue(x: real) | TextValue(s: string) | FixedTwo(x: real)

  /** `value === 0 && !disabled ? '' : value`: `None` is the empty box. */
  function ZeroHidden(value: InputValue, disabled: bool): (shown: Option<InputValue>)
    ensures shown.None? <==> value == NumberValue(0.0) && !disabled
    ensures shown.Some? ==> shown.value == value
  {
    if value == NumberValue(0.0) && !disabled then None else Some(value)
  }
}
