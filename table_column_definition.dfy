/**
 * The table column definition: what a column shows and how wide it is, and
 * the two sort flags the table component sets on it.
 */
module TableColumnDefinition {
  import opened Js

  /** A column definition. The table component updates its sort flags in place. */
  class ColumnDef {
    const modelProperty: string
    /** The `label` property. */
    const labelText: string
    const description: string
    const displayType: Option<string>
    const displayFormat: Option<string>
    const colWidth: JsValue
    var isSortedAsc: bool
    var isSortedDesc: bool

    constructor(modelProperty: string, labelText: string, description: string,
                displayType: Option<string>, displayFormat: Option<string>, colWidth: JsValue)
      ensures this.modelProperty == modelProperty && this.labelText == labelText
      ensures this.description == description && this.displayType == displayType
      ensures this.displayFormat == displayFormat && this.colWidth == colWidth
      ensures !isSortedAsc && !isSortedDesc
    {
      this.modelProperty := modelProperty;
      this.labelText := labelText;
      this.description := description;
      this.displayType := displayType;
      this.displayFormat := displayFormat;
      this.colWidth := colWidth;
      isSortedAsc := false;
      isSortedDesc := false;
    }
  }

  /** The text matches /^[\d]{2,3}%$/: two or three digits, then '%'. */
  predicate IsPercentText(s: string)
  {
    3 <= |s| <= 4 && s[|s| - 1] == '%' && IsDigits(s[..|s| - 1])
  }

  /** `colWidthCSSClass`: the CSS class for a width given as a percentage
      that is at most 100 and a multiple of 5; undefined for anything else. */
  function ColWidthCSSClass(colWidth: JsValue): (r: Option<string>)
    ensures !colWidth.Str? ==> r == None
    ensures r.Some? ==> colWidth.Str? && IsPercentText(colWidth.s)
    ensures r.Some? ==>
      var n := ParseDecimal(colWidth.s[..|colWidth.s| - 1]);
      n <= 100 && n % 5 == 0 && r.value == "width-" + IntToString(n) + "pct"
    ensures colWidth.Str? && IsPercentText(colWidth.s) ==>
      var n := ParseDecimal(colWidth.s[..|colWidth.s| - 1]);
      (r.Some? <==> n <= 100 && n % 5 == 0)
  {
    if Truthy(colWidth) && colWidth.Str? && IsPercentText(colWidth.s) then
      var colWidthNum := ParseDecimal(colWidth.s[..|colWidth.s| - 1]);
      if colWidthNum <= 100 && colWidthNum % 5 == 0 then Some("width-" + IntToString(colWidthNum) + "pct")
      else None
    else None
  }

  /** Every multiple of 5 up to 100, written with two or three digits, gets
      the class named after its value. */
  lemma {:induction false} EveryMultipleOfFiveAccepted(digits: string)
    requires IsDigits(digits) && 2 <= |digits| <= 3
    requires ParseDecimal(digits) <= 100 && ParseDecimal(digits) % 5 == 0
    ensures ColWidthCSSClass(Str(digits + "%")) == Some("width-" + NatToString(ParseDecimal(digits)) + "pct")
  {
    var s := digits + "%";
    assert s[..|s| - 1] == digits;
  }

  /** Only two or three digits are considered, so one digit or four digits
      give no class. */
  lemma WrongDigitCountRejected(digits: string)
    requires IsDigits(digits) && (|digits| < 2 || |digits| > 3)
    ensures ColWidthCSSClass(Str(digits + "%")) == None
  {
  }

  /** A width written with `digits` whose value is written `numeral` gets
      the class named after `numeral`. */
  lemma WidthClassNamed(digits: string, numeral: string)
    requires IsDigits(digits) && 2 <= |digits| <= 3
    requires ParseDecimal(digits) <= 100 && ParseDecimal(digits) % 5 == 0
    requires NatToString(ParseDecimal(digits)) == numeral
    ensures ColWidthCSSClass(Str(digits + "%")) == Some("width-" + numeral + "pct")
  {
    EveryMultipleOfFiveAccepted(digits);
  }

  /** The class uses the value, not the digits: '05%' gives 'width-5pct'. */
  lemma LeadingZeroWidth()
    ensures ColWidthCSSClass(Str("05" + "%")) == Some("width-" + "5" + "pct")
  {
    assert ParseDecimal("05") == 5 by { TwoDigitValue("05"); }
    assert NatToString(5) == "5";
    WidthClassNamed("05", "5");
  }

  /** A quarter of the width. */
  lemma QuarterWidth()
    ensures ColWidthCSSClass(Str("25" + "%")) == Some("width-" + "25" + "pct")
  {
    assert ParseDecimal("25") == 25 by { TwoDigitValue("25"); }
    assert NatToString(25) == "25" by {
      assert NatToString(25) == NatToString(2) + [DigitChar(5)];
    }
    WidthClassNamed("25", "25");
  }

  /** The full width. */
  lemma FullWidth()
    ensures ColWidthCSSClass(Str("100" + "%")) == Some("width-" + "100" + "pct")
  {
    HundredNumeral();
    WidthClassNamed("100", "100");
  }

  /** '100' is read as 100, and 100 is written '100'. */
  lemma HundredNumeral()
    ensures IsDigits("100") && ParseDecimal("100") == 100 && NatToString(100) == "100"
  {
    ThreeDigitValue("100");
    assert NatToString(10) == NatToString(1) + [DigitChar(0)] == "10";
    assert NatToString(100) == NatToString(10) + [DigitChar(0)];
  }

  /** Widths that are not multiples of 5, or above 100, give no class. */
  lemma OffGridWidthsRejected()
    ensures ColWidthCSSClass(Str("23%")) == None
    ensures ColWidthCSSClass(Str("105%")) == None
  {
    var s := "23%";
    assert s[..|s| - 1] == "23";
    TwoDigitValue("23");
    var t := "105%";
    assert t[..|t| - 1] == "105";
    ThreeDigitValue("105");
  }

  /** The value of a three-digit string. */
  lemma ThreeDigitValue(s: string)
    requires IsDigits(s) && |s| == 3
    ensures ParseDecimal(s) == DigitValue(s[0]) * 100 + DigitValue(s[1]) * 10 + DigitValue(s[2])
  {
    TwoDigitValue(s[..2]);
  }
}
