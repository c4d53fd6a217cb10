/** The display formatters shared word for word by the receipt forms: the
    rounding Rupiah formatter and the `DD/MM/YYYY` date. A JavaScript `Date`
    is taken apart into the fields its getters return. */
module Formats {
  import opened JsNumbers

  type Month0 = m: int | 0 <= m < 12    // getMonth(): 0 is January
  type Day = d: int | 1 <= d <= 31 witness 1
  type Hour = h: int | 0 <= h < 24
  type Sixty = m: int | 0 <= m < 60

  /** What `getFullYear`, `getMonth`, `getDate`, `getHours`, `getMinutes` and
      `getSeconds` return for one instant. */
  datatype DateTime = DateTime(year: int, month: Month0, day: Day, hours: Hour, minutes: Sixty, seconds: Sixty)

  /** The string with every `.` deleted. */
  function RemoveDots(s: string): (r: string)
    ensures '.' !in r
    ensures |r| <= |s|
  {
    if s == [] then []
    else (if s[0] == '.' then [] else [s[0]]) + RemoveDots(s[1..])
  }

  /** A string without dots is its own dot-free form. */
  lemma {:induction false} RemoveDotsNoDots(s: string)
    requires '.' !in s
    ensures RemoveDots(s) == s
  {
    if s != [] {
      assert s == [s[0]] + s[1..];
      RemoveDotsNoDots(s[1..]);
    }
  }

  lemma {:induction false} RemoveDotsAppend(a: string, b: string)
    ensures RemoveDots(a + b) == RemoveDots(a) + RemoveDots(b)
  {
    if a == [] {
      assert a + b == b;
    } else {
      var h := if a[0] == '.' then [] else [a[0]];
      calc {
        RemoveDots(a + b);
        { assert (a + b)[0] == a[0] && (a + b)[1..] == a[1..] + b; }
        h + RemoveDots(a[1..] + b);
        { RemoveDotsAppend(a[1..], b); }
        h + (RemoveDots(a[1..]) + RemoveDots(b));
        (h + RemoveDots(a[1..])) + RemoveDots(b);
        RemoveDots(a) + RemoveDots(b);
      }
    }
  }

  /** Dots stand exactly at every fourth position counted from the right end, so
      every group after the first has three characters; when the string does not
      start with a dot, the first group has one to three (`FirstGroup`). */
  predicate WellGrouped(g: string) {
    forall i :: 0 <= i < |g| ==> (g[i] == '.' <==> (|g| - i) % 4 == 0)
  }

  /** A grouped string that does not start with a dot opens with a group of one to
      three characters, followed by a dot when anything follows. */
  lemma FirstGroup(g: string)
    requires WellGrouped(g) && |g| >= 1 && g[0] != '.'
    ensures 1 <= |g| % 4 <= 3
    ensures forall i :: 0 <= i < |g| % 4 ==> g[i] != '.'
    ensures |g| > |g| % 4 ==> g[|g| % 4] == '.'
  {
    var n := |g| % 4;
    assert (|g| - 0) % 4 != 0;
    forall i | 0 <= i < n ensures g[i] != '.' {
      assert (|g| - i) % 4 == n - i;
    }
    if |g| > n {
      assert (|g| - n) % 4 == 0;
    }
  }

  /** Appending a dot and a block of three non-dots keeps the grouping. */
  lemma GroupedStep(g: string, t: string)
    requires WellGrouped(g) && |t| == 3 && '.' !in t
    ensures WellGrouped(g + "." + t)
  {
    var r := g + "." + t;
    forall i | 0 <= i < |r|
      ensures r[i] == '.' <==> (|r| - i) % 4 == 0
    {
      if i < |g| {
        assert r[i] == g[i];
        assert |r| - i == (|g| - i) + 4;
      } else if i > |g| {
        assert r[i] == t[i - |g| - 1];
      }
    }
  }

  /** Joining with a dot and a dot-free block: the dot disappears again. */
  lemma RemoveDotsJoin(g: string, t: string)
    requires '.' !in t
    ensures RemoveDots(g + "." + t) == RemoveDots(g) + t
  {
    calc {
      RemoveDots(g + "." + t);
      { assert g + "." + t == g + ("." + t); }
      RemoveDots(g + ("." + t));
      { RemoveDotsAppend(g, "." + t); }
      RemoveDots(g) + RemoveDots("." + t);
      { RemoveDotsLeadingDot(t); RemoveDotsNoDots(t); }
      RemoveDots(g) + t;
    }
  }

  /** A leading dot is dropped. */
  lemma RemoveDotsLeadingDot(t: string)
    ensures RemoveDots("." + t) == RemoveDots(t)
  {
    var s := "." + t;
    assert s[0] == '.' && s[1..] == t;
  }

  /** `ds.replace(/\B(?=(\d{3})+(?!\d))/g, ".")` on a string of digits: a dot
      before every block of three digits that ends the string, except at its start. */
  function GroupThousands(ds: string): (r: string)
    requires AllDigits(ds)
    ensures RemoveDots(r) == ds
    ensures |ds| > 0 ==> |r| == |ds| + (|ds| - 1) / 3
    ensures WellGrouped(r)
    ensures |ds| > 0 ==> r[0] == ds[0]
    decreases |ds|
  {
    if |ds| <= 3 then
      assert '.' !in ds by { assert !IsDigit('.'); }
      RemoveDotsNoDots(ds);
      ds
    else
      var g := GroupThousands(ds[..|ds| - 3]);
      var t := ds[|ds| - 3..];
      assert '.' !in t by { assert AllDigits(t) && !IsDigit('.'); }
      var r := g + "." + t;
      RemoveDotsJoin(g, t);
      assert ds[..|ds| - 3] + t == ds;
      GroupedStep(g, t);
      assert r[0] == g[0] == ds[0];
      r
  }

  /** The string without a leading minus sign. */
  function Unsigned(s: string): string {
    if |s| > 0 && s[0] == '-' then s[1..] else s
  }

  /** `i.toString().replace(/\B(?=(\d{3})+(?!\d))/g, ".")` for an integer `i`. The
      regular expression never matches next to the minus sign of a negative value
      (`\B` fails between `-` and a digit), so only the digits are grouped. */
  function GroupInteger(i: int): (r: string)
    ensures RemoveDots(r) == IntString(i)
    ensures r[0] == '-' <==> i < 0
    ensures |Unsigned(r)| >= 1 && WellGrouped(Unsigned(r))
    ensures IsDigit(Unsigned(r)[0])
  {
    if i < 0 then
      var ds := DecimalString(-i);
      var g := GroupThousands(ds);
      assert RemoveDots("-" + g) == "-" + ds by {
        RemoveDotsAppend("-", g);
        assert "-"[1..] == [];
      }
      assert "-" + ds == IntString(i);
      assert ("-" + g)[1..] == g;
      assert IsDigit(g[0]) by { assert g[0] == ds[0]; }
      "-" + g
    else
      var ds := DecimalString(i);
      var g := GroupThousands(ds);
      assert IsDigit(g[0]) && g[0] != '-' by { assert g[0] == ds[0] && IsDigit(ds[0]); }
      g
  }

  /** `formatRupiah` of the two rounding forms: "0" for null, undefined and NaN;
      otherwise `Math.round` and then the grouping of the integer. */
  function FormatRupiah(x: Number): (r: string)
    ensures x.NaN? ==> r == "0"
    ensures x.Finite? ==> RemoveDots(r) == IntString(Round(x.value))
    ensures x.Finite? ==> (r[0] == '-' <==> Round(x.value) < 0)
    ensures |Unsigned(r)| >= 1 && WellGrouped(Unsigned(r))
    ensures IsDigit(Unsigned(r)[0])
  {
    match x
    case NaN => "0"
    case Finite(v) => GroupInteger(Round(v))
  }

  /** Reading the formatted amount back (without its dots) gives the rounded value. */
  lemma {:induction false} FormatRupiahReadsBack(v: real)
    ensures ParseInt(RemoveDots(FormatRupiah(Finite(v)))) == Some(Round(v))
  {
    ParseIntIntString(Round(v));
  }

  /** Where the three parts of `DD/MM/Y` sit. */
  lemma DateLayout(dd: string, mm: string, y: string)
    requires |dd| == 2 && |mm| == 2
    ensures var r := dd + "/" + mm + "/" + y;
      |r| == 6 + |y| && r[..2] == dd && r[2] == '/' && r[3..5] == mm && r[5] == '/' && r[6..] == y
  {
    var r := dd + "/" + mm + "/" + y;
    assert r[..2] == dd;
    assert r[3..5] == mm;
    assert r[6..] == y;
  }

  /** `formatDate`: day, month counted from 1 and year, as `DD/MM/YYYY`. */
  function FormatDate(d: DateTime): (r: string)
    ensures |r| == 6 + |IntString(d.year)|
    ensures r[2] == '/' && r[5] == '/'
    ensures AllRadixDigits(r[..2], 10) && DigitsValue(r[..2], 10) == d.day
    ensures AllRadixDigits(r[3..5], 10) && DigitsValue(r[3..5], 10) == d.month + 1
    ensures r[0] == '0' <==> d.day < 10
    ensures r[3] == '0' <==> d.month + 1 < 10
    ensures r[6..] == IntString(d.year)
  {
    var dd, mm := Pad2(d.day), Pad2(d.month + 1);
    var y := IntString(d.year);
    DateLayout(dd, mm, y);
    dd + "/" + mm + "/" + y
  }
}
