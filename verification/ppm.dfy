/**
  The screenshot writer: a window-sized buffer read back from OpenGL is written as a binary
  Netpbm file, colour as P6 (RGB) or depth as P5 (grey), top row first although OpenGL
  returns the bottom row first. File handling is not modelled; the file is the byte
  sequence it would hold.
 */
module Ppm {
  import opened Wrappers

  newtype byte = x: int | 0 <= x < 256

  /** The two read-back formats: `GL_RGBA` (4 bytes a pixel) and `GL_DEPTH_COMPONENT` (1 byte). */
  datatype Format = Rgba | Depth

  function PixelSize(f: Format): nat {
    if f == Rgba then 4 else 1
  }

  /** Bytes written per pixel: red, green and blue, or the one grey value. */
  function Channels(f: Format): nat {
    if f == Rgba then 3 else 1
  }

  /** The digit after the `P` of the header: 6 for a pixmap, 5 for a graymap. */
  function MagicNumber(f: Format): nat {
    if f == Rgba then 6 else 5
  }

  // ---------------------------------------------------------------------------------------
  // The header "P6\n<w> <h>\n255\n"

  /** The ASCII codes the header uses. */
  const LetterP: byte := 80
  const Newline: byte := 10
  const Space: byte := 32
  const DigitZero: byte := 48
  const DigitNine: byte := 57

  predicate IsDigit(b: byte) {
    DigitZero <= b <= DigitNine
  }

  function DigitByte(d: nat): (b: byte)
    requires d < 10
    ensures IsDigit(b)
  {
    (48 + d) as byte
  }

  /** The decimal digits of `n` as `%u` prints them: no sign, no leading zeros. */
  function Decimal(n: nat): (s: seq<byte>)
    ensures |s| >= 1
    ensures forall i | 0 <= i < |s| :: IsDigit(s[i])
    ensures |s| > 1 ==> s[0] != DigitZero
  {
    if n < 10 then [DigitByte(n)] else Decimal(n / 10) + [DigitByte(n % 10)]
  }

  /** The number a run of digits denotes. */
  function DigitsValue(ds: seq<byte>): nat
    requires forall i | 0 <= i < |ds| :: IsDigit(ds[i])
  {
    if |ds| == 0 then 0
    else
      assert IsDigit(ds[|ds| - 1]);
      DigitsValue(ds[..|ds| - 1]) * 10 + (ds[|ds| - 1] - DigitZero) as int
  }

  /** Reading back the digits of `n` gives `n`. */
  lemma {:induction false} DecimalValue(n: nat)
    ensures DigitsValue(Decimal(n)) == n
  {
    if n >= 10 {
      var s := Decimal(n);
      DecimalValue(n / 10);
      assert s[..|s| - 1] == Decimal(n / 10);
    }
  }

  /** The length of the run of digits that `s` starts with. */
  function DigitRun(s: seq<byte>): (k: nat)
    ensures k <= |s|
    ensures forall i | 0 <= i < k :: IsDigit(s[i])
    ensures k < |s| ==> !IsDigit(s[k])
  {
    if |s| > 0 && IsDigit(s[0]) then 1 + DigitRun(s[1..]) else 0
  }

  lemma {:induction false} DigitRunOfDigits(ds: seq<byte>, rest: seq<byte>)
    requires forall i | 0 <= i < |ds| :: IsDigit(ds[i])
    requires |rest| == 0 || !IsDigit(rest[0])
    ensures DigitRun(ds + rest) == |ds|
  {
    if |ds| > 0 {
      assert (ds + rest)[1..] == ds[1..] + rest;
      DigitRunOfDigits(ds[1..], rest);
    }
  }

  /** Reads a decimal number at the start of `s`, returning it and what follows. */
  function ParseNat(s: seq<byte>): Option<(nat, seq<byte>)> {
    var k := DigitRun(s);
    if k == 0 then None else Some((DigitsValue(s[..k]), s[k..]))
  }

  /** A number printed with `%u` reads back as itself, whatever non-digit follows it. */
  lemma ParseDecimal(n: nat, rest: seq<byte>)
    requires |rest| == 0 || !IsDigit(rest[0])
    ensures ParseNat(Decimal(n) + rest) == Some((n, rest))
  {
    var s := Decimal(n) + rest;
    DigitRunOfDigits(Decimal(n), rest);
    assert s[..|Decimal(n)|] == Decimal(n);
    assert s[|Decimal(n)|..] == rest;
    DecimalValue(n);
  }

  /** The first line, `P6` or `P5`. */
  function MagicLine(f: Format): seq<byte> {
    [LetterP, DigitByte(MagicNumber(f)), Newline]
  }

  /** The second line, width and height. */
  function SizeLine(w: nat, h: nat): seq<byte> {
    Decimal(w) + [Space] + Decimal(h) + [Newline]
  }

  /** The third line, the maximum sample value 255. */
  const MaxValue: seq<byte> := [DigitByte(2), DigitByte(5), DigitByte(5), Newline]

  /** The three header lines that `write_ppm` prints before the samples. */
  function Header(f: Format, w: nat, h: nat): seq<byte> {
    MagicLine(f) + SizeLine(w, h) + MaxValue
  }

  datatype Parsed = Parsed(format: Format, width: nat, height: nat, body: seq<byte>)

  function ParseMagic(s: seq<byte>): Option<(Format, seq<byte>)> {
    if |s| < 3 || s[0] != LetterP || s[2] != Newline then None
    else if s[1] == DigitByte(6) then Some((Rgba, s[3..]))
    else if s[1] == DigitByte(5) then Some((Depth, s[3..]))
    else None
  }

  /** Reads a number that must be followed by `sep`, returning it and what follows `sep`. */
  function ParseField(s: seq<byte>, sep: byte): Option<(nat, seq<byte>)> {
    match ParseNat(s)
    case None => None
    case Some((n, r)) => if |r| == 0 || r[0] != sep then None else Some((n, r[1..]))
  }

  function ParseSize(s: seq<byte>): Option<(nat, nat, seq<byte>)> {
    match ParseField(s, Space)
    case None => None
    case Some((w, r1)) =>
      match ParseField(r1, Newline)
      case None => None
      case Some((h, r2)) => Some((w, h, r2))
  }

  function ParseMaxValue(s: seq<byte>): Option<seq<byte>> {
    if |s| < |MaxValue| || s[..|MaxValue|] != MaxValue then None else Some(s[|MaxValue|..])
  }

  /** A reader for exactly the header this writer produces, returning what follows it. */
  function ParseHeader(s: seq<byte>): Option<Parsed> {
    match ParseMagic(s)
    case None => None
    case Some((f, r0)) =>
      match ParseSize(r0)
      case None => None
      case Some((w, h, r1)) =>
        match ParseMaxValue(r1)
        case None => None
        case Some(body) => Some(Parsed(f, w, h, body))
  }

  lemma MagicRoundTrip(f: Format, rest: seq<byte>)
    ensures ParseMagic(MagicLine(f) + rest) == Some((f, rest))
  {
    assert (MagicLine(f) + rest)[3..] == rest;
  }

  lemma FieldRoundTrip(n: nat, sep: byte, rest: seq<byte>)
    requires !IsDigit(sep)
    ensures ParseField(Decimal(n) + ([sep] + rest), sep) == Some((n, rest))
  {
    ParseDecimal(n, [sep] + rest);
    assert ([sep] + rest)[1..] == rest;
  }

  lemma SizeRoundTrip(w: nat, h: nat, rest: seq<byte>)
    ensures ParseSize(SizeLine(w, h) + rest) == Some((w, h, rest))
  {
    var tail := Decimal(h) + ([Newline] + rest);
    assert SizeLine(w, h) + rest == Decimal(w) + ([Space] + tail);
    FieldRoundTrip(w, Space, tail);
    FieldRoundTrip(h, Newline, rest);
  }

  lemma MaxValueRoundTrip(rest: seq<byte>)
    ensures ParseMaxValue(MaxValue + rest) == Some(rest)
  {
    assert (MaxValue + rest)[..|MaxValue|] == MaxValue;
    assert (MaxValue + rest)[|MaxValue|..] == rest;
  }

  /** The header reads back as the format and size it was written with, followed by the body. */
  lemma HeaderRoundTrip(f: Format, w: nat, h: nat, body: seq<byte>)
    ensures ParseHeader(Header(f, w, h) + body) == Some(Parsed(f, w, h, body))
  {
    assert Header(f, w, h) + body == MagicLine(f) + (SizeLine(w, h) + (MaxValue + body));
    MagicRoundTrip(f, SizeLine(w, h) + (MaxValue + body));
    SizeRoundTrip(w, h, MaxValue + body);
    MaxValueRoundTrip(body);
  }

  /** Different formats or sizes give different headers, so the header identifies the image. */
  lemma HeaderInjective(f1: Format, w1: nat, h1: nat, f2: Format, w2: nat, h2: nat, body: seq<byte>)
    requires Header(f1, w1, h1) == Header(f2, w2, h2)
    ensures f1 == f2 && w1 == w2 && h1 == h2
  {
    HeaderRoundTrip(f1, w1, h1, body);
    HeaderRoundTrip(f2, w2, h2, body);
  }


  // ---------------------------------------------------------------------------------------
  // The pixel traversal

  /**
    Byte `i` of the buffer. Past the end the value is 0; the writer never reads there when
    the buffer `Fits` its traversal, which `WriteBody` requires and `AllocationFits` shows.
   */
  function At(buff: seq<byte>, i: nat): byte {
    if i < |buff| then buff[i] else 0
  }

  /** The first buffer byte of the pixel the writer puts at column `x` of output row `y`. */
  function ReadIndex(f: Format, h: nat, stride: nat, x: nat, y: nat): nat
    requires y < h
  {
    (h - 1 - y) * stride + x * PixelSize(f)
  }

  /** The bytes written for the pixel starting at `i`: its first three bytes, or its only one. */
  function PixelBytes(buff: seq<byte>, f: Format, i: nat): (out: seq<byte>)
    ensures |out| == Channels(f)
    ensures forall c | 0 <= c < Channels(f) :: out[c] == At(buff, i + c)
  {
    if f == Rgba then [At(buff, i), At(buff, i + 1), At(buff, i + 2)] else [At(buff, i)]
  }

  /** The bytes of the first `n` pixels of output row `y`. */
  function RowBytes(buff: seq<byte>, f: Format, h: nat, stride: nat, y: nat, n: nat): seq<byte>
    requires y < h
  {
    if n == 0 then []
    else RowBytes(buff, f, h, stride, y, n - 1) + PixelBytes(buff, f, ReadIndex(f, h, stride, n - 1, y))
  }

  /** The bytes of the first `m` output rows of `w` pixels. */
  function BodyBytes(buff: seq<byte>, f: Format, w: nat, h: nat, stride: nat, m: nat): seq<byte>
    requires m <= h
  {
    if m == 0 then [] else BodyBytes(buff, f, w, h, stride, m - 1) + RowBytes(buff, f, h, stride, m - 1, w)
  }

  /** Every row of `w` pixels, `stride` bytes apart, lies inside a buffer of `buffSize` bytes. */
  predicate Fits(buffSize: nat, f: Format, w: nat, h: nat, stride: nat) {
    w * PixelSize(f) <= stride && (h == 0 || (h - 1) * stride + w * PixelSize(f) <= buffSize)
  }

  lemma MulLe(a: nat, b: nat, c: nat)
    requires a <= b
    ensures a * c <= b * c
  {
  }

  /** Under `Fits`, every pixel the writer reads lies inside the buffer. */
  lemma ReadInside(buffSize: nat, f: Format, w: nat, h: nat, stride: nat, x: nat, y: nat)
    requires Fits(buffSize, f, w, h, stride) && x < w && y < h
    ensures ReadIndex(f, h, stride, x, y) + PixelSize(f) <= buffSize
  {
    MulLe(h - 1 - y, h - 1, stride);
    MulLe(x + 1, w, PixelSize(f));
  }

  /** The bytes `write_ppm` emits for the pixel at buffer offset `index`. */
  method WritePixel(buff: seq<byte>, f: Format, index: nat) returns (p: seq<byte>)
    requires index + PixelSize(f) <= |buff|
    ensures p == PixelBytes(buff, f, index)
  {
    if f == Rgba {
      p := [buff[index], buff[index + 1], buff[index + 2]];
    } else {
      p := [buff[index]];
    }
  }

  /** The inner loop of `write_ppm`: the pixels of output row `y`, left to right. */
  method WriteRow(buff: seq<byte>, f: Format, w: nat, h: nat, stride: nat, y: nat) returns (row: seq<byte>)
    requires Fits(|buff|, f, w, h, stride) && y < h
    ensures row == RowBytes(buff, f, h, stride, y, w)
  {
    row := [];
    var x := 0;
    while x < w
      invariant 0 <= x <= w
      invariant row == RowBytes(buff, f, h, stride, y, x)
    {
      var index := (h - 1 - y) * stride + x * PixelSize(f);
      ReadInside(|buff|, f, w, h, stride, x, y);
      var p := WritePixel(buff, f, index);
      row := row + p;
      x := x + 1;
    }
  }

  /**
    The two loops of `write_ppm` after the header: rows from the top, pixels left to right,
    each pixel read `stride` bytes per row up from the bottom of the buffer.
   */
  method WriteBody(buff: seq<byte>, f: Format, w: nat, h: nat, stride: nat) returns (out: seq<byte>)
    requires Fits(|buff|, f, w, h, stride)
    ensures out == BodyBytes(buff, f, w, h, stride, h)
    ensures |out| == h * (w * Channels(f))
  {
    out := [];
    var y := 0;
    while y < h
      invariant 0 <= y <= h
      invariant out == BodyBytes(buff, f, w, h, stride, y)
    {
      var row := WriteRow(buff, f, w, h, stride, y);
      out := out + row;
      y := y + 1;
    }
    BodyLength(buff, f, w, h, stride, h);
  }

  lemma {:induction false} RowLength(buff: seq<byte>, f: Format, h: nat, stride: nat, y: nat, n: nat)
    requires y < h
    ensures |RowBytes(buff, f, h, stride, y, n)| == n * Channels(f)
  {
    if n > 0 {
      RowLength(buff, f, h, stride, y, n - 1);
    }
  }

  lemma {:induction false} BodyLength(buff: seq<byte>, f: Format, w: nat, h: nat, stride: nat, m: nat)
    requires m <= h
    ensures |BodyBytes(buff, f, w, h, stride, m)| == m * (w * Channels(f))
  {
    if m > 0 {
      var front, last := BodyBytes(buff, f, w, h, stride, m - 1), RowBytes(buff, f, h, stride, m - 1, w);
      BodyLength(buff, f, w, h, stride, m - 1);
      RowLength(buff, f, h, stride, m - 1, w);
      assert BodyBytes(buff, f, w, h, stride, m) == front + last;
      LengthStep(|front|, |last|, m, w * Channels(f));
    }
  }

  lemma LengthStep(x: nat, y: nat, m: nat, a: nat)
    requires m > 0 && x == (m - 1) * a && y == a
    ensures x + y == m * a
  {
    MulSucc(m, a);
  }

  lemma MulSucc(m: nat, a: nat)
    requires m > 0
    ensures m * a == (m - 1) * a + a
  {
  }

  lemma ConcatFront(a: seq<byte>, b: seq<byte>, i: nat)
    requires i < |a|
    ensures i < |a + b| && (a + b)[i] == a[i]
  {
  }

  lemma ConcatBack(a: seq<byte>, b: seq<byte>, k: nat)
    requires k < |b|
    ensures |a| + k < |a + b| && (a + b)[|a| + k] == b[k]
  {
  }

  /** Byte `c` of pixel `x` in an output row is byte `c` of that pixel in the buffer. */
  lemma {:induction false} RowIndex(buff: seq<byte>, f: Format, h: nat, stride: nat, y: nat, n: nat, x: nat, c: nat)
    requires y < h && x < n && c < Channels(f)
    ensures x * Channels(f) + c < |RowBytes(buff, f, h, stride, y, n)|
    ensures RowBytes(buff, f, h, stride, y, n)[x * Channels(f) + c] == At(buff, ReadIndex(f, h, stride, x, y) + c)
  {
    if x < n - 1 {
      RowIndex(buff, f, h, stride, y, n - 1, x, c);
      ConcatFront(RowBytes(buff, f, h, stride, y, n - 1),
                  PixelBytes(buff, f, ReadIndex(f, h, stride, n - 1, y)), x * Channels(f) + c);
    } else {
      LastPixelIndex(buff, f, h, stride, y, n, c);
    }
  }

  /** The case of `RowIndex` where the pixel is the last of the `n`. */
  lemma LastPixelIndex(buff: seq<byte>, f: Format, h: nat, stride: nat, y: nat, n: nat, c: nat)
    requires y < h && 0 < n && c < Channels(f)
    ensures (n - 1) * Channels(f) + c < |RowBytes(buff, f, h, stride, y, n)|
    ensures RowBytes(buff, f, h, stride, y, n)[(n - 1) * Channels(f) + c]
         == At(buff, ReadIndex(f, h, stride, n - 1, y) + c)
  {
    var front := RowBytes(buff, f, h, stride, y, n - 1);
    var last := PixelBytes(buff, f, ReadIndex(f, h, stride, n - 1, y));
    assert (n - 1) * Channels(f) + c == |front| + c by {
      RowLength(buff, f, h, stride, y, n - 1);
    }
    ConcatBack(front, last, c);
  }

  /**
    Byte `i` of the body, for `i` the place of byte `c` of pixel `x` in output row `y`, is
    byte `c` of that pixel in buffer row `h - 1 - y`.
   */
  lemma {:induction false} BodyIndex(buff: seq<byte>, f: Format, w: nat, h: nat, stride: nat, m: nat,
                                    y: nat, x: nat, c: nat, i: nat)
    requires m <= h && y < m && x < w && c < Channels(f)
    requires i == (y * w + x) * Channels(f) + c
    ensures i < |BodyBytes(buff, f, w, h, stride, m)|
    ensures BodyBytes(buff, f, w, h, stride, m)[i] == At(buff, ReadIndex(f, h, stride, x, y) + c)
  {
    if y < m - 1 {
      BodyIndex(buff, f, w, h, stride, m - 1, y, x, c, i);
      ConcatFront(BodyBytes(buff, f, w, h, stride, m - 1), RowBytes(buff, f, h, stride, m - 1, w), i);
    } else {
      LastRowIndex(buff, f, w, h, stride, m, x, c, i);
    }
  }

  /** The case of `BodyIndex` where the pixel is in the last of the `m` rows. */
  lemma LastRowIndex(buff: seq<byte>, f: Format, w: nat, h: nat, stride: nat, m: nat, x: nat, c: nat, i: nat)
    requires 0 < m <= h && x < w && c < Channels(f)
    requires i == ((m - 1) * w + x) * Channels(f) + c
    ensures i < |BodyBytes(buff, f, w, h, stride, m)|
    ensures BodyBytes(buff, f, w, h, stride, m)[i] == At(buff, ReadIndex(f, h, stride, x, m - 1) + c)
  {
    var front := BodyBytes(buff, f, w, h, stride, m - 1);
    var last := RowBytes(buff, f, h, stride, m - 1, w);
    var k := x * Channels(f) + c;
    BodyLength(buff, f, w, h, stride, m - 1);
    RowOffset(m - 1, w, x, Channels(f), c, i);
    RowIndex(buff, f, h, stride, m - 1, w, x, c);
    ConcatAt(front, last, i, k);
  }

  lemma ConcatAt(a: seq<byte>, b: seq<byte>, i: nat, k: nat)
    requires i == |a| + k && k < |b|
    ensures i < |a + b| && (a + b)[i] == b[k]
  {
  }

  lemma RowOffset(y: nat, w: nat, x: nat, ch: nat, c: nat, i: nat)
    requires i == (y * w + x) * ch + c
    ensures i == y * (w * ch) + (x * ch + c)
  {
  }

  // ---------------------------------------------------------------------------------------
  // What `glReadPixels` puts in the buffer

  /** Row lengths are rounded up to `GL_PACK_ALIGNMENT`, whose initial value is 4. */
  function Align4(n: nat): (r: nat)
    ensures r % 4 == 0 && n <= r < n + 4
  {
    (n + 3) / 4 * 4
  }

  /** The distance between rows of the read-back buffer. */
  function PackedStride(f: Format, w: nat): nat {
    Align4(w * PixelSize(f))
  }

  /** The distance between rows that `write_ppm` assumes. */
  function WrittenStride(f: Format, w: nat): nat {
    w * PixelSize(f)
  }

  /**
    An image as OpenGL holds it: `rows[r][x]` is the pixel in row `r` counted from the bottom
    and column `x`, as its `PixelSize` bytes.
   */
  predicate PixelsOf(row: seq<seq<byte>>, f: Format) {
    forall x | 0 <= x < |row| :: |row[x]| == PixelSize(f)
  }

  predicate WellShaped(rows: seq<seq<seq<byte>>>, f: Format, w: nat) {
    forall r | 0 <= r < |rows| :: |rows[r]| == w && PixelsOf(rows[r], f)
  }

  /** The buffer holds the image rows `stride` bytes apart, pixel bytes in order. */
  predicate Holds(buff: seq<byte>, rows: seq<seq<seq<byte>>>, f: Format, w: nat, stride: nat)
    requires WellShaped(rows, f, w)
  {
    forall r, x, c | 0 <= r < |rows| && 0 <= x < w && 0 <= c < PixelSize(f) ::
      r * stride + x * PixelSize(f) + c < |buff| && buff[r * stride + x * PixelSize(f) + c] == rows[r][x][c]
  }

  /** The intended file body: rows from the top, the first `Channels` bytes of each pixel. */
  function ExpectedRow(row: seq<seq<byte>>, f: Format, n: nat): seq<byte>
    requires n <= |row| && PixelsOf(row, f)
  {
    if n == 0 then [] else ExpectedRow(row, f, n - 1) + row[n - 1][..Channels(f)]
  }

  function Expected(rows: seq<seq<seq<byte>>>, f: Format, w: nat, m: nat): seq<byte>
    requires WellShaped(rows, f, w) && m <= |rows|
  {
    if m == 0 then [] else Expected(rows, f, w, m - 1) + ExpectedRow(rows[|rows| - m], f, w)
  }

  /** Output row `y` read from a buffer that holds the image is image row `h - 1 - y`. */
  lemma {:induction false} RowMatches(buff: seq<byte>, rows: seq<seq<seq<byte>>>, f: Format, w: nat, h: nat,
                                      stride: nat, y: nat, n: nat)
    requires WellShaped(rows, f, w) && |rows| == h && Holds(buff, rows, f, w, stride)
    requires y < h && n <= w
    ensures RowBytes(buff, f, h, stride, y, n) == ExpectedRow(rows[h - 1 - y], f, n)
  {
    if n > 0 {
      RowMatches(buff, rows, f, w, h, stride, y, n - 1);
      assert PixelBytes(buff, f, ReadIndex(f, h, stride, n - 1, y)) == rows[h - 1 - y][n - 1][..Channels(f)] by {
        PixelMatches(buff, rows, f, w, h, stride, y, n - 1);
      }
    }
  }

  lemma PixelMatches(buff: seq<byte>, rows: seq<seq<seq<byte>>>, f: Format, w: nat, h: nat,
                     stride: nat, y: nat, x: nat)
    requires WellShaped(rows, f, w) && |rows| == h && Holds(buff, rows, f, w, stride)
    requires y < h && x < w
    ensures PixelBytes(buff, f, ReadIndex(f, h, stride, x, y)) == rows[h - 1 - y][x][..Channels(f)]
  {
    var p := PixelBytes(buff, f, ReadIndex(f, h, stride, x, y));
    var q := rows[h - 1 - y][x];
    forall c | 0 <= c < Channels(f) ensures p[c] == q[c] {
      assert ReadIndex(f, h, stride, x, y) + c == (h - 1 - y) * stride + x * PixelSize(f) + c;
    }
  }

  /**
    Reading with the stride the buffer was packed with writes exactly the intended body: the
    image upside down into top-first order, alpha dropped.
   */
  lemma TraversalFaithful(buff: seq<byte>, rows: seq<seq<seq<byte>>>, f: Format, w: nat,
                           h: nat, stride: nat, m: nat)
    requires WellShaped(rows, f, w) && |rows| == h && Holds(buff, rows, f, w, stride) && m <= h
    ensures BodyBytes(buff, f, w, h, stride, m) == Expected(rows, f, w, m)
  {
    forall y | 0 <= y < h
      ensures RowBytes(buff, f, h, stride, y, w) == ExpectedRow(rows[h - 1 - y], f, w)
    {
      RowMatches(buff, rows, f, w, h, stride, y, w);
    }
    RowsAssemble(buff, rows, f, w, h, stride, m);
  }

  /** A body whose every output row is the intended row is the intended body. */
  lemma {:induction false} RowsAssemble(buff: seq<byte>, rows: seq<seq<seq<byte>>>, f: Format, w: nat,
                                        h: nat, stride: nat, m: nat)
    requires WellShaped(rows, f, w) && |rows| == h && m <= h
    requires forall y | 0 <= y < h :: RowBytes(buff, f, h, stride, y, w) == ExpectedRow(rows[h - 1 - y], f, w)
    ensures BodyBytes(buff, f, w, h, stride, m) == Expected(rows, f, w, m)
  {
    if m > 0 {
      RowsAssemble(buff, rows, f, w, h, stride, m - 1);
      AssembleStep(buff, rows, f, w, h, stride, m);
    }
  }

  lemma AssembleStep(buff: seq<byte>, rows: seq<seq<seq<byte>>>, f: Format, w: nat,
                     h: nat, stride: nat, m: nat)
    requires WellShaped(rows, f, w) && |rows| == h && 0 < m <= h
    requires BodyBytes(buff, f, w, h, stride, m - 1) == Expected(rows, f, w, m - 1)
    requires RowBytes(buff, f, h, stride, m - 1, w) == ExpectedRow(rows[h - 1 - (m - 1)], f, w)
    ensures BodyBytes(buff, f, w, h, stride, m) == Expected(rows, f, w, m)
  {
    calc {
      BodyBytes(buff, f, w, h, stride, m);
      BodyBytes(buff, f, w, h, stride, m - 1) + RowBytes(buff, f, h, stride, m - 1, w);
      Expected(rows, f, w, m - 1) + ExpectedRow(rows[h - 1 - (m - 1)], f, w);
      { assert h - 1 - (m - 1) == |rows| - m; }
      Expected(rows, f, w, m - 1) + ExpectedRow(rows[|rows| - m], f, w);
      Expected(rows, f, w, m);
    }
  }

  /**
    The buffer `write_image` allocates, `w * h * 4` bytes, is large enough for the traversal
    with either stride.
   */
  lemma AllocationFits(f: Format, w: nat, h: nat)
    ensures Fits(w * h * 4, f, w, h, WrittenStride(f, w))
    ensures Fits(w * h * 4, f, w, h, PackedStride(f, w))
  {
    assert PackedStride(f, w) <= 4 * w by {
      if f == Rgba {
        assert (4 * w + 3) / 4 == w;
      }
    }
    if h > 0 {
      StridesWithin(w, h, WrittenStride(f, w), w * PixelSize(f));
      StridesWithin(w, h, PackedStride(f, w), w * PixelSize(f));
    }
  }

  lemma StridesWithin(w: nat, h: nat, stride: nat, row: nat)
    requires h > 0 && stride <= 4 * w && row <= 4 * w
    ensures (h - 1) * stride + row <= w * h * 4
  {
    MulLe(stride, 4 * w, h - 1);
    assert (h - 1) * (4 * w) + 4 * w == w * h * 4;
  }

  /** For colour the rows are already multiples of 4 bytes, so the two strides agree. */
  lemma RgbaStridesAgree(w: nat)
    ensures PackedStride(Rgba, w) == WrittenStride(Rgba, w)
  {
    assert (4 * w + 3) / 4 == w;
  }

  /** For depth they agree exactly when the width is a multiple of 4. */
  lemma DepthStridesAgreeIff(w: nat)
    ensures PackedStride(Depth, w) == WrittenStride(Depth, w) <==> w % 4 == 0
  {
  }

  /**
    `write_ppm` as written: the header, then the body read with rows `w * pix_sz` bytes apart,
    from the `w * h * 4` bytes `write_image` allocated.
   */
  method WritePpm(buff: seq<byte>, f: Format, w: nat, h: nat) returns (file: seq<byte>)
    requires |buff| == w * h * 4
    ensures Fits(|buff|, f, w, h, WrittenStride(f, w))
    ensures ParseHeader(file) == Some(Parsed(f, w, h, BodyBytes(buff, f, w, h, WrittenStride(f, w), h)))
    ensures |file| == |Header(f, w, h)| + h * (w * Channels(f))
  {
    AllocationFits(f, w, h);
    var body := WriteBody(buff, f, w, h, WrittenStride(f, w));
    file := Header(f, w, h) + body;
    HeaderRoundTrip(f, w, h, body);
  }

  /** `write_ppm` corrected: rows read the distance apart that `glReadPixels` packed them. */
  method WritePpmPacked(buff: seq<byte>, f: Format, w: nat, h: nat) returns (file: seq<byte>)
    requires |buff| == w * h * 4
    ensures Fits(|buff|, f, w, h, PackedStride(f, w))
    ensures ParseHeader(file) == Some(Parsed(f, w, h, BodyBytes(buff, f, w, h, PackedStride(f, w), h)))
    ensures |file| == |Header(f, w, h)| + h * (w * Channels(f))
  {
    AllocationFits(f, w, h);
    var body := WriteBody(buff, f, w, h, PackedStride(f, w));
    file := Header(f, w, h) + body;
    HeaderRoundTrip(f, w, h, body);
  }

  /**
    The corrected writer is faithful for both formats: whatever image `glReadPixels` packed
    into the buffer, the body is that image top row first, alpha dropped.
   */
  lemma PackedFileFaithful(buff: seq<byte>, rows: seq<seq<seq<byte>>>, f: Format, w: nat, h: nat)
    requires WellShaped(rows, f, w) && |rows| == h && |buff| == w * h * 4
    requires Holds(buff, rows, f, w, PackedStride(f, w))
    ensures Fits(|buff|, f, w, h, PackedStride(f, w))
    ensures BodyBytes(buff, f, w, h, PackedStride(f, w), h) == Expected(rows, f, w, h)
  {
    AllocationFits(f, w, h);
    TraversalFaithful(buff, rows, f, w, h, PackedStride(f, w), h);
  }

  /** The colour screenshot as written is already faithful. */
  lemma RgbaFileFaithful(buff: seq<byte>, rows: seq<seq<seq<byte>>>, w: nat, h: nat)
    requires WellShaped(rows, Rgba, w) && |rows| == h && |buff| == w * h * 4
    requires Holds(buff, rows, Rgba, w, PackedStride(Rgba, w))
    ensures Fits(|buff|, Rgba, w, h, WrittenStride(Rgba, w))
    ensures BodyBytes(buff, Rgba, w, h, WrittenStride(Rgba, w), h) == Expected(rows, Rgba, w, h)
  {
    RgbaStridesAgree(w);
    PackedFileFaithful(buff, rows, Rgba, w, h);
  }

  /**
    The depth screenshot as written: a window 3 pixels wide and 2 high, depth bytes 1 2 3 in
    the bottom row and 4 5 6 in the top row, packed with one byte of padding per row. The
    file should hold 4 5 6 1 2 3; the writer's stride of 3 makes its top row 0 4 5, starting
    at the padding byte.
   */
  lemma DepthStrideShearsNarrowWindow(buff: seq<byte>, rows: seq<seq<seq<byte>>>, w: nat, h: nat)
    requires w == 3 && h == 2
    requires rows == [[[1], [2], [3]], [[4], [5], [6]]]
    requires |buff| == 24 && buff[..8] == [1, 2, 3, 0, 4, 5, 6, 0]
    ensures WellShaped(rows, Depth, w) && Holds(buff, rows, Depth, w, PackedStride(Depth, w))
    ensures Fits(|buff|, Depth, w, h, WrittenStride(Depth, w))
    ensures Expected(rows, Depth, w, h) == [4, 5, 6, 1, 2, 3]
    ensures |BodyBytes(buff, Depth, w, h, WrittenStride(Depth, w), h)| == 6
    ensures BodyBytes(buff, Depth, w, h, WrittenStride(Depth, w), h)[0] == 0
    ensures BodyBytes(buff, Depth, w, h, WrittenStride(Depth, w), h)[1] == 4
    ensures BodyBytes(buff, Depth, w, h, WrittenStride(Depth, w), h)[2] == 5
    ensures BodyBytes(buff, Depth, w, h, WrittenStride(Depth, w), h) != Expected(rows, Depth, w, h)
  {
    NarrowExpected(rows, w, h);
    assert Holds(buff, rows, Depth, w, PackedStride(Depth, w)) by {
      NarrowPacked(buff, rows, w, PackedStride(Depth, w));
    }
    assert buff[3] == 0 && buff[4] == 4 && buff[5] == 5 by {
      assert buff[3] == buff[..8][3] && buff[4] == buff[..8][4] && buff[5] == buff[..8][5];
    }
    NarrowTopRow(buff, w, h, WrittenStride(Depth, w));
  }

  lemma NarrowExpected(rows: seq<seq<seq<byte>>>, w: nat, h: nat)
    requires rows == [[[1], [2], [3]], [[4], [5], [6]]] && w == 3 && h == 2
    ensures WellShaped(rows, Depth, w)
    ensures Expected(rows, Depth, w, h) == [4, 5, 6, 1, 2, 3]
    ensures |Expected(rows, Depth, w, h)| == 6 && Expected(rows, Depth, w, h)[0] == 4
  {
    assert WellShaped(rows, Depth, 3);
    assert ExpectedRow(rows[1], Depth, 1) == [4];
    assert ExpectedRow(rows[1], Depth, 2) == [4, 5];
    assert ExpectedRow(rows[1], Depth, 3) == [4, 5, 6];
    assert ExpectedRow(rows[0], Depth, 1) == [1];
    assert ExpectedRow(rows[0], Depth, 2) == [1, 2];
    assert ExpectedRow(rows[0], Depth, 3) == [1, 2, 3];
    assert Expected(rows, Depth, 3, 1) == [4, 5, 6];
  }

  lemma NarrowPacked(buff: seq<byte>, rows: seq<seq<seq<byte>>>, w: nat, stride: nat)
    requires rows == [[[1], [2], [3]], [[4], [5], [6]]] && w == 3 && stride == 4
    requires |buff| == 24 && buff[..8] == [1, 2, 3, 0, 4, 5, 6, 0]
    ensures WellShaped(rows, Depth, w) && Holds(buff, rows, Depth, w, stride)
  {
    assert WellShaped(rows, Depth, w);
    assert PixelSize(Depth) == 1;
    forall r, x, c | 0 <= r < |rows| && 0 <= x < w && 0 <= c < PixelSize(Depth)
      ensures r * stride + x * PixelSize(Depth) + c < |buff| && buff[r * stride + x * PixelSize(Depth) + c] == rows[r][x][c]
    {
      assert c == 0 && r * stride + x * PixelSize(Depth) + c == 4 * r + x;
      NarrowCell(buff, rows, r, x);
    }
    assert Holds(buff, rows, Depth, w, stride);
  }

  lemma NarrowCell(buff: seq<byte>, rows: seq<seq<seq<byte>>>, r: nat, x: nat)
    requires rows == [[[1], [2], [3]], [[4], [5], [6]]] && r < 2 && x < 3
    requires |buff| == 24 && buff[..8] == [1, 2, 3, 0, 4, 5, 6, 0]
    ensures 4 * r + x < |buff| && buff[4 * r + x] == rows[r][x][0]
  {
    assert buff[4 * r + x] == buff[..8][4 * r + x];
  }

  lemma NarrowTopRow(buff: seq<byte>, w: nat, h: nat, stride: nat)
    requires w == 3 && h == 2 && stride == 3
    requires |buff| == 24 && buff[3] == 0 && buff[4] == 4 && buff[5] == 5
    ensures Fits(|buff|, Depth, w, h, stride)
    ensures |BodyBytes(buff, Depth, w, h, stride, h)| == 6
    ensures BodyBytes(buff, Depth, w, h, stride, h)[0] == 0
    ensures BodyBytes(buff, Depth, w, h, stride, h)[1] == 4
    ensures BodyBytes(buff, Depth, w, h, stride, h)[2] == 5
  {
    BodyLength(buff, Depth, w, h, stride, h);
    NarrowTopByte(buff, w, h, stride, 0);
    NarrowTopByte(buff, w, h, stride, 1);
    NarrowTopByte(buff, w, h, stride, 2);
  }

  /** In the narrow window, output byte `x` is read from buffer byte `3 + x`. */
  lemma NarrowTopByte(buff: seq<byte>, w: nat, h: nat, stride: nat, x: nat)
    requires w == 3 && h == 2 && stride == 3 && |buff| == 24 && x < 3
    ensures x < |BodyBytes(buff, Depth, w, h, stride, h)|
    ensures BodyBytes(buff, Depth, w, h, stride, h)[x] == buff[3 + x]
  {
    BodyIndex(buff, Depth, w, h, stride, h, 0, x, 0, x);
  }
}
