/**
 * The fixed configuration of main.cpp and the text it writes before the
 * pixels: a 400-pixel-wide 16:9 image split into a 4 x 4 grid of tiles,
 * one per slot of a 16-slot thread array, and the PPM header
 * `P3\n<width> <height>\n255\n`.
 *
 * The header is modelled as a string together with a reader for it; the
 * reader recovers the width and height from any header the program can
 * write.
 */
module MainProgram {
  import opened Wrappers
  import opened Tiles

  const ImageWidth: int := 400
  const AspectRatio: real := 16.0 / 9.0
  const BatchX: int := 4
  const BatchY: int := 4
  /** The length of `std::thread render_threads[batch_x * batch_y]`. */
  const ThreadSlots: int := 16

  /** `static_cast<int>(image_width / aspect_ratio)`: the quotient truncated towards zero. */
  function ImageHeight(): (h: int)
    ensures h == 225
  {
    var q := (ImageWidth as real) / AspectRatio;
    assert q == 225.0;
    q.Floor
  }

  /**
   * With these sizes the strides are 100 and 57 and the grid has exactly
   * 16 tiles, so the join loop that joins all 16 slots joins a started
   * worker in each.
   */
  lemma SixteenTiles()
    ensures Stride(ImageWidth, BatchX) == 100 && Stride(ImageHeight(), BatchY) == 57
    ensures |Partition(ImageWidth, ImageHeight(), BatchX, BatchY)| == ThreadSlots
    ensures JoinsValid(JoinSlotsAsWritten(BatchX, BatchY), Partition(ImageWidth, ImageHeight(), BatchX, BatchY))
  {
    TileCount(400, 225, 4, 4);
    assert Strips(400, 100) == 4;
    assert Strips(225, 57) == 4;
    JoinAsWrittenValidIff(400, 225, 4, 4);
  }

  /**
   * Whatever the image size, a 4 x 4 split never makes more than 16
   * tiles, so `render_threads[index]` stays inside the array.
   */
  lemma ThreadIndexInRange(w: int, h: int, index: int)
    requires w >= 0 && h >= 0
    requires 0 <= index < |Partition(w, h, BatchX, BatchY)|
    ensures index < ThreadSlots
  {
    TileCount(w, h, BatchX, BatchY);
  }

  // -----------------------------------------------------------------------
  // The PPM header (main.cpp:147-148)

  predicate IsDigit(c: char) {
    '0' as int <= c as int <= '9' as int
  }

  function DigitChar(d: nat): (c: char)
    requires d < 10
    ensures IsDigit(c) && (c as int) - ('0' as int) == d
  {
    (('0' as int) + d) as char
  }

  function DigitValue(c: char): (d: nat)
    requires IsDigit(c)
    ensures d < 10 && DigitChar(d) == c
  {
    (c as int) - ('0' as int)
  }

  /** The decimal text `operator<<` writes for a non-negative `int`. */
  function Decimal(n: nat): (s: string)
    ensures |s| >= 1 && forall k :: 0 <= k < |s| ==> IsDigit(s[k])
  {
    if n < 10 then [DigitChar(n)] else Decimal(n / 10) + [DigitChar(n % 10)]
  }

  /** The number a string of digits spells. */
  function DecimalValue(s: string): nat
    requires forall k :: 0 <= k < |s| ==> IsDigit(s[k])
  {
    if |s| == 0 then 0
    else DecimalValue(s[..|s| - 1]) * 10 + DigitValue(s[|s| - 1])
  }

  /** Reading back the decimal text gives the number written. */
  lemma {:induction false} DecimalRoundTrip(n: nat)
    ensures DecimalValue(Decimal(n)) == n
  {
    if n >= 10 {
      var s := Decimal(n);
      assert s[..|s| - 1] == Decimal(n / 10);
      DecimalRoundTrip(n / 10);
    }
  }

  /** `P3\n<w> <h>\n255\n` */
  function Header(w: nat, h: nat): string {
    "P3\n" + Decimal(w) + " " + Decimal(h) + "\n255\n"
  }

  /** The position of the first `c` in `s`, or `|s|` if there is none. */
  function Find(s: string, c: char): (k: nat)
    ensures k <= |s|
    ensures forall i :: 0 <= i < k ==> s[i] != c
    ensures k < |s| ==> s[k] == c
  {
    if |s| == 0 then 0 else if s[0] == c then 0 else 1 + Find(s[1..], c)
  }

  /** A non-empty run of digits. */
  predicate IsNumeral(s: string) {
    |s| >= 1 && forall k :: 0 <= k < |s| ==> IsDigit(s[k])
  }

  /** A non-empty run of digits, read as a number. */
  function ReadNumber(s: string): Option<nat> {
    if IsNumeral(s) then Some(DecimalValue(s)) else None
  }

  /**
   * Reads a PPM header: the magic `P3`, a newline, the width, a space, the
   * height, a newline and the maximum value `255` with its newline.
   * Anything else is rejected.
   */
  function ReadHeader(s: string): Option<(nat, nat)> {
    if |s| < 3 || s[..3] != "P3\n" then None else ReadSizes(s[3..])
  }

  /** The width up to the first space, then the height line. */
  function ReadSizes(rest: string): Option<(nat, nat)> {
    var sp := Find(rest, ' ');
    if sp == |rest| then None
    else
      match (ReadNumber(rest[..sp]), ReadHeight(rest[sp + 1..]))
      case (Some(w), Some(h)) => Some((w, h))
      case _ => None
  }

  /** The height up to the first newline, followed by exactly `255\n`. */
  function ReadHeight(tail: string): Option<nat> {
    var nl := Find(tail, '\n');
    if nl == |tail| || tail[nl + 1..] != "255\n" then None else ReadNumber(tail[..nl])
  }

  /** The first `c` in `a + [c] + b` is right after `a` when `a` holds no `c`. */
  lemma FindAfter(a: string, c: char, b: string)
    requires forall k :: 0 <= k < |a| ==> a[k] != c
    ensures Find(a + [c] + b, c) == |a|
  {
    assert (a + [c] + b)[|a|] == c;
  }

  /** The height line of a written header reads back as its digits. */
  lemma HeightLine(dh: string)
    requires IsNumeral(dh)
    ensures ReadHeight(dh + ['\n'] + "255\n") == Some(DecimalValue(dh))
  {
    var tail := dh + ['\n'] + "255\n";
    FindAfter(dh, '\n', "255\n");
    assert tail[..|dh|] == dh;
    assert tail[|dh| + 1..] == "255\n";
  }

  /** The size line of a written header reads back as its two numerals. */
  lemma SizesLine(dw: string, dh: string)
    requires IsNumeral(dw) && IsNumeral(dh)
    ensures ReadSizes(dw + [' '] + (dh + ['\n'] + "255\n")) == Some((DecimalValue(dw), DecimalValue(dh)))
  {
    var tail := dh + ['\n'] + "255\n";
    var rest := dw + [' '] + tail;
    FindAfter(dw, ' ', tail);
    assert rest[..|dw|] == dw;
    assert rest[|dw| + 1..] == tail;
    HeightLine(dh);
  }

  /** The reader gives back the width and height of every header the program writes. */
  lemma HeaderRoundTrip(w: nat, h: nat)
    ensures ReadHeader(Header(w, h)) == Some((w, h))
  {
    var dw, dh := Decimal(w), Decimal(h);
    var s := Header(w, h);
    var rest := dw + [' '] + (dh + ['\n'] + "255\n");
    assert s == "P3\n" + rest;
    assert s[..3] == "P3\n" && s[3..] == rest;
    SizesLine(dw, dh);
    DecimalRoundTrip(w);
    DecimalRoundTrip(h);
  }

  /** Different image sizes give different headers. */
  lemma HeaderInjective(w: nat, h: nat, w': nat, h': nat)
    requires Header(w, h) == Header(w', h')
    ensures w == w' && h == h'
  {
    HeaderRoundTrip(w, h);
    HeaderRoundTrip(w', h');
  }

  /** The header of the 400 x 225 image. */
  lemma MainHeader()
    ensures Header(ImageWidth, ImageHeight()) == "P3\n400 225\n255\n"
  {
    assert Decimal(400) == "400" by {
      assert Decimal(4) == "4";
      assert Decimal(40) == "40";
    }
    assert Decimal(225) == "225" by {
      assert Decimal(2) == "2";
      assert Decimal(22) == "22";
    }
  }
}
