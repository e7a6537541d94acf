/** The watermark's placement and encoding helpers: the opacity byte appended
    to the fill colour, the anchor point chosen by the position keywords, and
    the scaling of font size and padding relative to a reference image width.
    Coordinates and sizes are exact reals; the program computes them in
    IEEE doubles. */
module Geometry {
  import opened Text

  // ---------------------------------------------------------------------------
  // convertToHex
  // ---------------------------------------------------------------------------

  /** `Math.round((100 - transparency) / 100 * 255)`: the opacity byte nearest
      to the opaque fraction, halves rounded up. */
  function Opacity(transparency: int): (v: nat)
    requires 0 <= transparency <= 100
    ensures v <= 255
    ensures -50 < 100 * v - 255 * (100 - transparency) <= 50
  {
    (255 * (100 - transparency) + 50) / 100
  }

  /** The two lower-case hex digits appended to the fill colour. A
      transparency outside 0..100 is reported and replaced by "00". */
  function ConvertToHex(transparency: int): (hex: string)
    ensures |hex| == 2
    ensures forall k :: 0 <= k < |hex| ==> IsLowerHexChar(hex[k])
    ensures transparency < 0 || transparency > 100 ==> hex == "00"
    ensures 0 <= transparency <= 100 ==> NumeralValue(hex, 16) == Opacity(transparency)
  {
    if transparency > 100 || transparency < 0 then "00"
    else
      var v := Opacity(transparency);
      var s := Numeral(v, 16);
      NumeralAtMostTwo(v, 16);
      NumeralRoundTrip(v, 16);
      NumeralLeadingZero(s, 16);
      if |s| < 2 then "0" + s else s
  }

  /** Worked values of the encoding: fully opaque, fully transparent, half, out of range. */
  lemma ConvertToHexExamples()
    ensures ConvertToHex(0) == "ff"
    ensures ConvertToHex(100) == "00"
    ensures ConvertToHex(50) == "80"
    ensures ConvertToHex(-5) == "00" && ConvertToHex(150) == "00"
  {
    assert ToDigits(255, 16) == [15, 15];
    assert ToDigits(128, 16) == [8, 0];
  }

  // ---------------------------------------------------------------------------
  // setPosition
  // ---------------------------------------------------------------------------

  /** Image dimensions as probed from the file. */
  datatype Size = Size(width: real, height: real)

  /** What measureText reports for the watermark text in the chosen font. */
  datatype TextMetrics = TextMetrics(width: real, ascent: real, descent: real)

  datatype Padding = Padding(horizontal: real, vertical: real)

  datatype Point = Point(x: real, y: real)

  /** Everything setPosition reads besides the keyword list. */
  datatype Anchoring = Anchoring(image: Size, text: TextMetrics, padding: Padding, xOffset: real, yOffset: real)

  /** The starting point: text centred on the image, then offset. */
  function Centred(a: Anchoring): Point
  {
    Point(a.image.width / 2.0 - a.text.width / 2.0 + a.xOffset,
          a.image.height / 2.0 + (a.text.ascent - a.text.descent) / 2.0 + a.yOffset)
  }

  function TopY(a: Anchoring): real { 0.0 + a.text.ascent + a.yOffset + a.padding.vertical }
  function BottomY(a: Anchoring): real { a.image.height - a.text.descent - a.padding.vertical + a.yOffset }
  function LeftX(a: Anchoring): real { 0.0 + a.xOffset + a.padding.horizontal }
  function RightX(a: Anchoring): real { a.image.width - a.text.width - a.padding.horizontal + a.xOffset }

  /** One case of the switch on `item.toLowerCase()`: "left" and "right" set
      only x, "top" and "bottom" set only y, anything else changes nothing. */
  function ApplyKeyword(p: Point, keyword: string, a: Anchoring): (q: Point)
    ensures Lower(keyword) != "left" && Lower(keyword) != "right" ==> q.x == p.x
    ensures Lower(keyword) != "top" && Lower(keyword) != "bottom" ==> q.y == p.y
    ensures q == Point(LastX([keyword], a, p.x), LastY([keyword], a, p.y))
  {
    assert [keyword][..0] == [];
    var k := Lower(keyword);
    if k == "center" then p
    else if k == "top" then p.(y := TopY(a))
    else if k == "bottom" then p.(y := BottomY(a))
    else if k == "left" then p.(x := LeftX(a))
    else if k == "right" then p.(x := RightX(a))
    else p
  }

  /** The forEach over the keywords, applied left to right. It sets each axis
      independently, from the last keyword that targets it; "center", empty
      and unknown keywords change nothing. */
  function ApplyKeywords(p: Point, keywords: seq<string>, a: Anchoring): (q: Point)
    ensures q == Point(LastX(keywords, a, p.x), LastY(keywords, a, p.y))
    decreases |keywords|
  {
    if keywords == [] then p
    else
      LastAfterFirst(keywords[0], keywords[1..], p, a);
      assert [keywords[0]] + keywords[1..] == keywords;
      ApplyKeywords(ApplyKeyword(p, keywords[0], a), keywords[1..], a)
  }

  /** `setPosition`: the anchor for the space-separated keyword list
      `position`. Each coordinate is the centred default, unless a keyword for
      that axis occurs, and then it is the one the last such keyword gives. */
  function SetPosition(a: Anchoring, position: string): (pt: Point)
    ensures pt == Point(LastX(Split(position, ' '), a, Centred(a).x), LastY(Split(position, ' '), a, Centred(a).y))
  {
    ApplyKeywords(Centred(a), Split(position, ' '), a)
  }

  /** Reference reading of the horizontal axis: the x of the LAST `left` or
      `right` keyword (any letter case), or `otherwise` when there is none. */
  function LastX(keywords: seq<string>, a: Anchoring, otherwise: real): real
  {
    if keywords == [] then otherwise
    else
      var k := Lower(keywords[|keywords| - 1]);
      if k == "left" then LeftX(a)
      else if k == "right" then RightX(a)
      else LastX(keywords[..|keywords| - 1], a, otherwise)
  }

  /** Reference reading of the vertical axis: the y of the LAST `top` or `bottom`. */
  function LastY(keywords: seq<string>, a: Anchoring, otherwise: real): real
  {
    if keywords == [] then otherwise
    else
      var k := Lower(keywords[|keywords| - 1]);
      if k == "top" then TopY(a)
      else if k == "bottom" then BottomY(a)
      else LastY(keywords[..|keywords| - 1], a, otherwise)
  }

  /** Putting one keyword in front of a list only matters if no later keyword targets the same axis. */
  lemma {:induction false} LastAfterFirst(k: string, rest: seq<string>, p: Point, a: Anchoring)
    ensures LastX(rest, a, ApplyKeyword(p, k, a).x) == LastX([k] + rest, a, p.x)
    ensures LastY(rest, a, ApplyKeyword(p, k, a).y) == LastY([k] + rest, a, p.y)
  {
    if rest == [] {
      assert ([k] + rest)[..0] == [];
    } else {
      assert ([k] + rest)[..|rest|] == [k] + rest[..|rest| - 1];
      LastAfterFirst(k, rest[..|rest| - 1], p, a);
    }
  }

  /** A worked example: "top left" with padding (10, 20) on a 200 by 100
      image and no offsets puts the text at (10, ascent + 20). */
  lemma SetPositionTopLeft(m: TextMetrics)
    ensures SetPosition(Anchoring(Size(200.0, 100.0), m, Padding(10.0, 20.0), 0.0, 0.0), "top left")
         == Point(10.0, m.ascent + 20.0)
  {
    var a := Anchoring(Size(200.0, 100.0), m, Padding(10.0, 20.0), 0.0, 0.0);
    var parts := ["top", "left"];
    SplitTopLeft();
    LowerTopLeft();
    assert LastX(parts, a, Centred(a).x) == LeftX(a);
    assert LastY(parts, a, Centred(a).y) == LastY(["top"], a, Centred(a).y) by {
      assert "left"[0] != "top"[0] && "left"[0] != "bottom"[0];
      assert parts[..1] == ["top"];
    }
    assert LastY(["top"], a, Centred(a).y) == TopY(a);
  }

  /** "top left" splits into its two keywords. */
  lemma SplitTopLeft()
    ensures Split("top left", ' ') == ["top", "left"]
  {
    SplitJoin(["top", "left"], ' ');
    assert Join(["top", "left"], ' ') == "top left";
  }

  /** Both keywords are already lower case. */
  lemma LowerTopLeft()
    ensures Lower("top") == "top" && Lower("left") == "left"
  {
    LowerUnchanged("top");
    LowerUnchanged("left");
  }

  // ---------------------------------------------------------------------------
  // setFontSize
  // ---------------------------------------------------------------------------

  /** `s[i..j]` is a match of /\d+px/: a run of digits followed by "px". */
  predicate SizeTokenAt(s: string, i: nat, j: nat)
  {
    i < j && j + 2 <= |s| && (forall k :: i <= k < j ==> IsDigit(s[k])) && s[j] == 'p' && s[j + 1] == 'x'
  }

  /** `s[i..j]` is the leftmost match of /\d+px/, the one String.replace rewrites. */
  ghost predicate FirstSizeToken(s: string, i: nat, j: nat)
  {
    SizeTokenAt(s, i, j) && forall i': nat, j': nat :: i' < i ==> !SizeTokenAt(s, i', j')
  }

  /** A match starting at `i` is unique: its digits run up to the first non-digit. */
  lemma SizeTokenUnique(s: string, i: nat, j: nat, j': nat)
    requires SizeTokenAt(s, i, j) && SizeTokenAt(s, i, j')
    ensures j == j'
  {
  }

  /** There is only one leftmost match. */
  lemma FirstSizeTokenUnique(s: string, i: nat, j: nat, i': nat, j': nat)
    requires FirstSizeToken(s, i, j) && FirstSizeToken(s, i', j')
    ensures i == i' && j == j'
  {
    SizeTokenUnique(s, i, j, j');
  }

  /** End of the run of digits that starts at `i`. */
  function DigitRunEnd(s: string, i: nat): (j: nat)
    requires i <= |s|
    ensures i <= j <= |s|
    ensures forall k :: i <= k < j ==> IsDigit(s[k])
    ensures j < |s| ==> !IsDigit(s[j])
    decreases |s| - i
  {
    if i < |s| && IsDigit(s[i]) then DigitRunEnd(s, i + 1) else i
  }

  /** The leftmost match of /\d+px/ at or after `from`. */
  function FindSizeToken(s: string, from: nat): (r: Option<(nat, nat)>)
    requires from <= |s|
    ensures r.None? ==> forall i: nat, j: nat :: from <= i ==> !SizeTokenAt(s, i, j)
    ensures r.Some? ==> from <= r.value.0 && SizeTokenAt(s, r.value.0, r.value.1)
    ensures r.Some? ==> forall i: nat, j: nat :: from <= i < r.value.0 ==> !SizeTokenAt(s, i, j)
    decreases |s| - from
  {
    if from == |s| then None
    else
      var j := DigitRunEnd(s, from);
      if from < j && j + 2 <= |s| && s[j] == 'p' && s[j + 1] == 'x' then Some((from, j))
      else
        assert forall j': nat :: !SizeTokenAt(s, from, j');
        FindSizeToken(s, from + 1)
  }

  /** JavaScript's `x | 0` on an integer: wrap to a signed 32-bit value. */
  function ToInt32(n: int): (r: int)
    ensures -0x8000_0000 <= r < 0x8000_0000
    ensures (r - n) % 0x1_0000_0000 == 0
    ensures -0x8000_0000 <= n < 0x8000_0000 ==> r == n
  {
    (n + 0x8000_0000) % 0x1_0000_0000 - 0x8000_0000
  }

  /** Truncation toward zero, the first half of `x | 0`. */
  function Trunc(x: real): (r: int)
    ensures 0.0 <= x ==> r as real <= x < r as real + 1.0
    ensures x < 0.0 ==> r as real - 1.0 < x <= r as real
  {
    if x >= 0.0 then x.Floor else -((-x).Floor)
  }

  /** `(width * (D / baseWidth)) | 0` where D is `Number(font.replace(/\D/g, ""))`,
      the number formed by every digit of the font string. A zero base width
      makes the JavaScript quotient Infinity or NaN, which `| 0` turns into 0. */
  function ScaledFontSize(font: string, baseWidth: real, width: real): (n: int)
    ensures -0x8000_0000 <= n < 0x8000_0000
    ensures baseWidth == 0.0 ==> n == 0
    ensures baseWidth != 0.0 ==>
              var x := Scaled(DecimalValue(DigitsOf(font)), baseWidth, width);
              -(0x8000_0000 as real) < x < 0x8000_0000 as real ==> n == Trunc(x)
    ensures baseWidth != 0.0 ==>
              (n - Trunc(Scaled(DecimalValue(DigitsOf(font)), baseWidth, width))) % 0x1_0000_0000 == 0
  {
    if baseWidth == 0.0 then 0
    else
      var x := Scaled(DecimalValue(DigitsOf(font)), baseWidth, width);
      TruncFits(x);
      ToInt32(Trunc(x))
  }

  /** `width * (d / baseWidth)` in exact arithmetic. */
  function Scaled(d: nat, baseWidth: real, width: real): real
    requires baseWidth != 0.0
  {
    width * (d as real / baseWidth)
  }

  /** A value strictly inside the signed 32-bit range truncates into it. */
  lemma TruncFits(x: real)
    ensures -(0x8000_0000 as real) < x < 0x8000_0000 as real ==> -0x8000_0000 <= Trunc(x) < 0x8000_0000
  {
  }

  /** `setFontSize`: the font string with its first "<digits>px" replaced by the
      scaled size followed by "px"; a font with no such token is returned as is. */
  function SetFontSize(font: string, baseWidth: real, width: real): (r: string)
    ensures (forall i: nat, j: nat :: !SizeTokenAt(font, i, j)) ==> r == font
    ensures forall i: nat, j: nat :: FirstSizeToken(font, i, j) ==>
              r == font[..i] + Decimal(ScaledFontSize(font, baseWidth, width)) + "px" + font[j + 2..]
  {
    match FindSizeToken(font, 0)
    case None => font
    case Some((i, j)) =>
      assert FirstSizeToken(font, i, j);
      assert forall i': nat, j': nat :: FirstSizeToken(font, i', j') ==> i' == i && j' == j by {
        forall i': nat, j': nat | FirstSizeToken(font, i', j') ensures i' == i && j' == j {
          FirstSizeTokenUnique(font, i, j, i', j');
        }
      }
      font[..i] + Decimal(ScaledFontSize(font, baseWidth, width)) + "px" + font[j + 2..]
  }

  /** A worked example: "40px" designed for width 400 becomes "80px" at width 800. */
  lemma SetFontSizeExample()
    ensures SetFontSize("40px", 400.0, 800.0) == "80px"
  {
    var font := "40px";
    assert DigitsOf(font) == "40";
    assert DecimalValue("40") == 40 by {
      assert DigitValues("40") == [4, 0];
      assert [4, 0][..1] == [4];
      assert [4][..0] == [];
      assert FromDigits([4], 10) == 4;
      assert FromDigits([4, 0], 10) == 40;
    }
    assert ScaledFontSize(font, 400.0, 800.0) == 80;
    assert Decimal(80) == "80" by {
      assert DecimalValue("80") == 80 by {
        assert DigitValues("80") == [8, 0];
        assert [8, 0][..1] == [8];
        assert [8][..0] == [];
      }
      NumeralOfDigits("80");
    }
    assert FirstSizeToken(font, 0, 2);
    assert font[..0] + "80" + "px" + font[4..] == "80px";
  }

  /** In exact arithmetic, at the reference width the font is unchanged,
      provided its only digits are those of its size token and the token has
      no leading zero (and fits in 32 bits). The script's doubles can round
      the quotient below the size and print one less. */
  lemma SetFontSizeAtBaseWidth(font: string, i: nat, j: nat, baseWidth: real)
    requires FirstSizeToken(font, i, j)
    requires DigitsOf(font) == font[i..j]
    requires font[i] != '0' || j == i + 1
    requires baseWidth != 0.0
    requires DecimalValue(font[i..j]) < 0x8000_0000
    ensures SetFontSize(font, baseWidth, baseWidth) == font
  {
    var t := font[i..j];
    var d := DecimalValue(t);
    assert Scaled(d, baseWidth, baseWidth) == d as real;
    assert ScaledFontSize(font, baseWidth, baseWidth) == d;
    NumeralOfDigits(t);
    assert font[j..j + 2] == "px";
    Reassembled(font, i, j, j + 2);
  }

  /** A string is the concatenation of its slices at `i`, `j` and `k`. */
  lemma Reassembled(s: string, i: nat, j: nat, k: nat)
    requires i <= j <= k <= |s|
    ensures s == s[..i] + s[i..j] + s[j..k] + s[k..]
  {
    assert s[..j] == s[..i] + s[i..j];
    assert s[j..] == s[j..k] + s[k..];
    assert s == s[..j] + s[j..];
  }

  /** Every digit of the font string enters the size, not only the token's:
      a numeric weight in front of the size is read as part of it. */
  lemma SetFontSizeReadsEveryDigit()
    ensures SetFontSize("9 4px", 1.0, 1.0) == "9 94px"
  {
    var font := "9 4px";
    assert DigitsOf(font) == "94";
    assert DecimalValue("94") == 94 by {
      assert DigitValues("94") == [9, 4];
      assert [9, 4][..1] == [9];
      assert [9][..0] == [];
    }
    NumeralOfDigits("94");
    assert ScaledFontSize(font, 1.0, 1.0) == 94;
    assert FirstSizeToken(font, 2, 3);
    assert font[..2] + "94" + "px" + font[5..] == "9 94px";
  }

  // ---------------------------------------------------------------------------
  // setPadding
  // ---------------------------------------------------------------------------

  /** `setPadding`: both paddings scaled by `width / baseWidth`. A zero base
      width makes the JavaScript ratio non-finite; that case is None. */
  function SetPadding(p: Padding, baseWidth: real, width: real): (r: Option<Padding>)
    ensures r.None? <==> baseWidth == 0.0
    ensures r.Some? ==> r.value.horizontal * baseWidth == p.horizontal * width
    ensures r.Some? ==> r.value.vertical * baseWidth == p.vertical * width
    ensures r.Some? ==> r.value.horizontal * p.vertical == r.value.vertical * p.horizontal
    ensures baseWidth != 0.0 && width == baseWidth ==> r == Some(p)
  {
    if baseWidth == 0.0 then None
    else
      var ratio := width / baseWidth;
      assert width == baseWidth ==> ratio == 1.0;
      Some(Padding(p.horizontal * ratio, p.vertical * ratio))
  }
}
