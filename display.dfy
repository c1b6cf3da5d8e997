/**
 * The counts screen drawn by `displayCounts(cur, min, max)`: the label
 * "Count:" and the one-minute total in double-size text, then the minimum and
 * the maximum with their arrow glyphs in normal-size text. The drawing library
 * is an external sink; each call pair setCursor/print is modelled as a piece
 * of text placed at a position.
 */
module Display {
  import opened Uint
  import Decimal

  /** Glyph codes of the display font (include/geiger.h). */
  const DownArrow: char := 24 as char
  const UpArrow: char := 25 as char

  /** The size of `char counter[6]`, the buffer itoa writes each value into. */
  const CounterBufSize: nat := 6

  /** A text drawn with its top-left corner at (x, y) in the given text size. */
  datatype Placed = Placed(x: int, y: int, size: nat, text: string)

  /** Everything displayCounts draws between clearing and showing the screen. */
  datatype Screen = Screen(
    heading: Placed,    // "Count:"
    total: Placed,      // the one-minute total
    minLabel: Placed,   // the up-arrow glyph and ':'
    minValue: Placed,
    maxLabel: Placed,   // the down-arrow glyph and ':'
    maxValue: Placed)

  /** The x position of the big number: the fewer its digits, the further right it starts. */
  function XCord(cur: u16): (x: int)
    ensures x in {18, 24, 30, 36}
  {
    if cur < 10 then 36
    else if cur < 100 then 30
    else if cur < 1000 then 24
    else 18
  }

  function DisplayCounts(cur: u16, min: u16, max: u16): (s: Screen)
    ensures s.total.x == XCord(cur) && s.total.size == 2
    ensures Decimal.AllDigits(s.total.text) && Decimal.Value(s.total.text) == cur as nat
    ensures Decimal.AllDigits(s.minValue.text) && Decimal.Value(s.minValue.text) == min as nat
    ensures Decimal.AllDigits(s.maxValue.text) && Decimal.Value(s.maxValue.text) == max as nat
  {
    Decimal.ValueOfItoa(cur as nat);
    Decimal.ValueOfItoa(min as nat);
    Decimal.ValueOfItoa(max as nat);
    Screen(
      Placed(9, 0, 2, "Count:"),
      Placed(XCord(cur), 16, 2, Decimal.Itoa(cur as nat)),
      Placed(0, 40, 1, [UpArrow, ':']),
      Placed(12, 40, 1, Decimal.Itoa(min as nat)),
      Placed(48, 40, 1, [DownArrow, ':']),
      Placed(60, 40, 1, Decimal.Itoa(max as nat)))
  }

  /**
   * Every position on the counts screen is fixed, whatever the values:
   * only the x of the big number depends on them.
   */
  lemma Layout(cur: u16, min: u16, max: u16, cur': u16, min': u16, max': u16)
    ensures var s, s' := DisplayCounts(cur, min, max), DisplayCounts(cur', min', max');
      && s.heading == s'.heading && s.minLabel == s'.minLabel && s.maxLabel == s'.maxLabel
      && (s.total.y, s.minValue.x, s.minValue.y, s.maxValue.x, s.maxValue.y)
         == (s'.total.y, s'.minValue.x, s'.minValue.y, s'.maxValue.x, s'.maxValue.y)
    ensures var s := DisplayCounts(cur, min, max);
      && s.heading == Placed(9, 0, 2, "Count:")
      && s.total.y == 16 && s.minLabel.x == 0 && s.minLabel.y == 40 && s.minValue.x == 12 && s.minValue.y == 40
      && s.maxLabel.x == 48 && s.maxLabel.y == 40 && s.maxValue.x == 60 && s.maxValue.y == 40
  {
  }

  /**
   * The x position steps back 6 pixels per extra digit for one to four
   * digits; a five-digit value starts at the same place as a four-digit one.
   */
  lemma XCordByDigits(cur: u16)
    ensures var d := Decimal.NumDigits(cur as nat);
      XCord(cur) == 36 - 6 * ((if d < 4 then d else 4) - 1)
  {
    assert Decimal.Pow10(0) == 1 && Decimal.Pow10(1) == 10 && Decimal.Pow10(2) == 100 && Decimal.Pow10(3) == 1000;
    assert Decimal.Pow10(4) == 10000 && Decimal.Pow10(5) == 100000;
    var n := cur as nat;
    if n < 10 {
    } else if n < 100 {
      Decimal.NumDigitsExact(n, 2);
    } else if n < 1000 {
      Decimal.NumDigitsExact(n, 3);
    } else if n < 10000 {
      Decimal.NumDigitsExact(n, 4);
    } else {
      Decimal.NumDigitsExact(n, 5);
    }
  }

  /** A larger total never starts further right. */
  lemma XCordMonotone(a: u16, b: u16)
    requires a <= b
    ensures XCord(a) >= XCord(b)
  {
  }

  /** Width of one character at text size 1: a 5-pixel glyph and 1 pixel of spacing. */
  const GlyphWidth: nat := 6

  /**
   * With 12-pixel characters (text size 2) a total of one to four digits
   * is centred on x = 42, the middle of the 84-pixel-wide screen; a
   * five-digit total sits 6 pixels right of centre and still ends at x = 78.
   */
  lemma TotalCentred(cur: u16)
    ensures var d := Decimal.NumDigits(cur as nat); var w := d * 2 * GlyphWidth;
      && (d <= 4 ==> 2 * XCord(cur) + w == 84)
      && (d == 5 ==> 2 * XCord(cur) + w == 96)
      && XCord(cur) + w <= 78
  {
    XCordByDigits(cur);
    Decimal.U16Digits(cur as nat);
  }

  /** Each of the three values (a uint16_t) fits `char counter[6]` with its terminator. */
  lemma CounterBufferFits(cur: u16, min: u16, max: u16)
    ensures var s := DisplayCounts(cur, min, max);
      && |s.total.text| + 1 <= CounterBufSize
      && |s.minValue.text| + 1 <= CounterBufSize
      && |s.maxValue.text| + 1 <= CounterBufSize
  {
    Decimal.U16Digits(cur as nat);
    Decimal.U16Digits(min as nat);
    Decimal.U16Digits(max as nat);
  }
}
