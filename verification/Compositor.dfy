/** Windows and the frame buffer (kernel-lib/src/layer.rs:25-161, kernel-lib/src/pixel.rs,
    kernel/src/graphics.rs:41-97 and 176-178). */
module Compositor {
  import opened Basics
  import opened Arithmetic

  datatype Color = Color(r: Byte, g: Byte, b: Byte)

  const BLACK := Color(0, 0, 0)

  datatype Format = Rgb | Bgr

  /** The four bytes of a rendered pixel. */
  function Pixel(f: Format, c: Color): (p: seq<Byte>)
    ensures |p| == 4 && p[1] == c.g && p[3] == 255
    ensures f == Rgb ==> p[0] == c.r && p[2] == c.b
    ensures f == Bgr ==> p[0] == c.b && p[2] == c.r
  {
    match f
    case Rgb => [c.r, c.g, c.b, 0xff]
    case Bgr => [c.b, c.g, c.r, 0xff]
  }

  /** What a writer knows about the display. */
  datatype Screen = Screen(format: Format, stride: nat, horizontal: nat, vertical: nat)

  /** Memory from the base of the frame buffer on; the frame is its first part. */
  predicate HoldsFrame(s: Screen, bytes: seq<Byte>) {
    s.stride >= 1 && |bytes| >= 4 * (s.vertical * s.stride)
  }

  /** `pixels` is column by column, `buffer` row by row and already rendered. */
  datatype Surface = Surface(
    format: Format, transparent: Option<Color>, pixels: seq<seq<Color>>, height: nat, buffer: seq<Byte>, x: nat, y: nat)
  {
    function Width(): nat {
      |pixels|
    }

    predicate Valid() {
      && |pixels| >= 1
      && (forall i :: 0 <= i < |pixels| ==> |pixels[i]| == height)
      && |buffer| == 4 * (height * |pixels|)
    }
  }

  function Min(a: nat, b: nat): nat {
    if a < b then a else b
  }

  /** Clipping: rows are cut at the horizontal resolution, columns at the scan line. */
  function EndY(w: Surface, s: Screen): nat {
    Min(w.y + w.height, s.horizontal)
  }

  function EndX(w: Surface, s: Screen): nat {
    Min(w.x + w.Width(), s.stride)
  }

  predicate Covers(w: Surface, s: Screen, o: nat)
    requires s.stride >= 1
  {
    w.x <= o % s.stride < EndX(w, s) && w.y <= o / s.stride < EndY(w, s)
  }

  /** The colour a window gives to pixel `o`, counted along the scan lines. */
  function PaintAt(w: Surface, s: Screen, o: nat): Option<Color>
    requires s.stride >= 1 && w.Valid()
  {
    if !Covers(w, s, o) then None
    else
      var c := w.pixels[o % s.stride - w.x][o / s.stride - w.y];
      if w.transparent == Some(c) then None else Some(c)
  }

  /** Byte `i` of a frame after the pixel writer ran on every covered, non-transparent pixel: it stores the
      three colour bytes and leaves the fourth alone. */
  function PaintedByte(w: Surface, s: Screen, before: seq<Byte>, i: nat): Byte
    requires s.stride >= 1 && w.Valid() && i < |before|
  {
    var c := PaintAt(w, s, i / 4);
    if i % 4 < 3 && c.Some? then Pixel(s.format, c.value)[i % 4] else before[i]
  }

  /** Pixel (x, y) of the screen lies inside the window, left of the scan line's end and above the horizontal
      resolution, which is what the code clips rows with. */
  predicate Inside(w: Surface, s: Screen, x: nat, y: nat) {
    && w.x <= x < w.x + |w.pixels| && x < s.stride
    && w.y <= y < w.y + w.height && y < s.horizontal
  }

  /** The colour a window gives to a pixel: its own, unless that is the transparent one. */
  lemma PaintAtReads(w: Surface, s: Screen, x: nat, y: nat)
    requires w.Valid() && x < s.stride
    ensures var o := y * s.stride + x;
      && (Covers(w, s, o) <==> Inside(w, s, x, y))
      && PaintAt(w, s, o) ==
           if Inside(w, s, x, y) && w.transparent != Some(w.pixels[x - w.x][y - w.y])
           then Some(w.pixels[x - w.x][y - w.y]) else None
  {
    OffsetSplits(x, y, s.stride);
  }

  lemma ByteOf(o: nat, k: nat)
    requires k < 4
    ensures (4 * o + k) / 4 == o && (4 * o + k) % 4 == k
  {}

  /** Byte `k` of the pixel after it was painted: red, green and blue in the display's order, the fourth as it was. */
  lemma PaintedByteReads(w: Surface, s: Screen, before: seq<Byte>, x: nat, y: nat, i: nat, k: nat)
    requires w.Valid() && x < s.stride && k < 4 && i == 4 * (y * s.stride + x) + k < |before|
    ensures PaintedByte(w, s, before, i) ==
      if k < 3 && Inside(w, s, x, y) && w.transparent != Some(w.pixels[x - w.x][y - w.y]) then
        var c := w.pixels[x - w.x][y - w.y];
        if k == 1 then c.g else if (k == 0) == (s.format == Rgb) then c.r else c.b
      else before[i]
  {
    var o := y * s.stride + x;
    PaintAtReads(w, s, x, y);
    ByteOf(o, k);
  }

  /** The rendered copy agrees with the grid in every colour byte. */
  ghost predicate Rendered(w: Surface)
    requires w.Valid()
  {
    forall i :: 0 <= i < |w.buffer| && i % 4 < 3 ==> w.buffer[i] == RenderedByte(w, i)
  }

  function RenderedByte(w: Surface, i: nat): Byte
    requires w.Valid() && i < |w.buffer|
  {
    Pixel(w.format, GridAt(w, i / 4))[i % 4]
  }

  /** The colour of the window's pixel `o`, counted row by row. */
  function GridAt(w: Surface, o: nat): Color
    requires w.Valid() && o < w.height * w.Width()
  {
    RowMajor(w, o);
    w.pixels[o % w.Width()][o / w.Width()]
  }

  lemma RowMajor(w: Surface, o: nat)
    requires w.Valid() && o < w.height * w.Width()
    ensures o % w.Width() < w.Width() && o / w.Width() < w.height
  {}

  function NewView(width: nat, height: nat, format: Format, transparent: Option<Color>, x: nat, y: nat): Surface {
    var fill := if transparent.Some? then transparent.value else BLACK;
    Surface(format, transparent, seq(width, _ => seq(height, _ => fill)), height,
            seq(4 * (height * width), _ => 0), x, y)
  }

  /** A new window: all pixels transparent if it has a transparent colour, else black; the buffer zero. */
  lemma NewViewReads(width: nat, height: nat, format: Format, transparent: Option<Color>, x: nat, y: nat)
    ensures var w := NewView(width, height, format, transparent, x, y);
      && |w.pixels| == width && w.height == height && |w.buffer| == 4 * (height * width)
      && w.format == format && w.transparent == transparent && w.x == x && w.y == y
      && (forall i :: 0 <= i < width ==> |w.pixels[i]| == height)
      && (forall i, j :: 0 <= i < width && 0 <= j < height ==>
            w.pixels[i][j] == match transparent case Some(c) => c case None => Color(0, 0, 0))
      && (forall k :: 0 <= k < |w.buffer| ==> w.buffer[k] == 0)
  {}

  lemma BlackIsZero(format: Format, k: nat)
    requires k < 3
    ensures Pixel(format, BLACK)[k] == 0
  {}

  lemma NewIsBlack(w: Surface, o: nat)
    requires w.Valid() && o < w.height * w.Width()
    requires forall i, j :: 0 <= i < w.Width() && 0 <= j < w.height ==> w.pixels[i][j] == BLACK
    ensures GridAt(w, o) == BLACK
  {}

  lemma NewOpaqueIsRendered(width: nat, height: nat, format: Format, x: nat, y: nat)
    requires width >= 1
    ensures var w := NewView(width, height, format, None, x, y); w.Valid() && Rendered(w)
  {
    var w := NewView(width, height, format, None, x, y);
    assert w.Valid();
    forall i | 0 <= i < |w.buffer| && i % 4 < 3 ensures w.buffer[i] == RenderedByte(w, i) {
      NewIsBlack(w, i / 4);
      BlackIsZero(format, i % 4);
    }
  }

  /** Four bytes of `a` from `i` on replaced. */
  function Spliced(a: seq<Byte>, i: nat, p: seq<Byte>): (r: seq<Byte>)
    requires |p| == 4 && i + 4 <= |a|
    ensures |r| == |a|
    ensures forall j :: 0 <= j < |a| ==> r[j] == if i <= j < i + 4 then p[j - i] else a[j]
  {
    a[..i] + p + a[i + 4..]
  }

  /** The place of pixel (x, y) in the buffer. */
  function Offset(w: Surface, x: nat, y: nat): (o: nat)
    requires w.Valid() && x < w.Width() && y < w.height
    ensures o == 4 * (y * w.Width() + x) && o + 4 <= |w.buffer|
  {
    OffsetInRange(x, y, w.Width(), w.height);
    4 * (y * w.Width() + x)
  }

  function Written(w: Surface, x: nat, y: nat, c: Color): (w': Surface)
    requires w.Valid() && x < w.Width() && y < w.height
    ensures w'.Valid() && w'.Width() == w.Width() && w'.height == w.height
  {
    w.(pixels := w.pixels[x := w.pixels[x][y := c]],
       buffer := Spliced(w.buffer, Offset(w, x, y), Pixel(w.format, c)))
  }

  /** A write replaces one grid cell and the four buffer bytes of its pixel, and nothing else. */
  lemma WrittenReads(w: Surface, x: nat, y: nat, c: Color)
    requires w.Valid() && x < w.Width() && y < w.height
    ensures var w', i := Written(w, x, y, c), 4 * (y * |w.pixels| + x);
      && w' == w.(pixels := w'.pixels, buffer := w'.buffer)
      && |w'.pixels| == |w.pixels| && |w'.buffer| == |w.buffer| && i + 4 <= |w.buffer|
      && (forall u, v :: 0 <= u < |w.pixels| && 0 <= v < w.height ==>
            w'.pixels[u][v] == if u == x && v == y then c else w.pixels[u][v])
      && (forall k :: 0 <= k < |w.buffer| && !(i <= k < i + 4) ==> w'.buffer[k] == w.buffer[k])
      && w'.buffer[i + 1] == c.g && w'.buffer[i + 3] == 255
      && w'.buffer[i] == (if w.format == Rgb then c.r else c.b)
      && w'.buffer[i + 2] == (if w.format == Rgb then c.b else c.r)
  {
    assert Offset(w, x, y) == 4 * (y * |w.pixels| + x);
  }

  lemma WrittenPixel(w: Surface, x: nat, y: nat, c: Color, o: nat)
    requires w.Valid() && x < w.Width() && y < w.height && o < w.height * w.Width()
    ensures GridAt(Written(w, x, y, c), o) == if o == y * w.Width() + x then c else GridAt(w, o)
  {
    RowMajor(w, o);
    OffsetSplits(x, y, w.Width());
    if o != y * w.Width() + x {
      OffsetInjective(o, x, y, w.Width());
    }
  }

  lemma WriteKeepsRendered(w: Surface, x: nat, y: nat, c: Color)
    requires w.Valid() && Rendered(w) && x < w.Width() && y < w.height
    ensures Rendered(Written(w, x, y, c))
  {
    var w', at := Written(w, x, y, c), y * w.Width() + x;
    OffsetInRange(x, y, w.Width(), w.height);
    forall i | 0 <= i < |w'.buffer| && i % 4 < 3 ensures w'.buffer[i] == RenderedByte(w', i) {
      WrittenPixel(w, x, y, c, i / 4);
      assert i / 4 == at <==> 4 * at <= i < 4 * at + 4;
    }
  }

  datatype WriteOp = WriteOp(x: nat, y: nat, color: Color)

  function WrittenAll(w: Surface, ops: seq<WriteOp>): Surface
    requires w.Valid() && forall k :: 0 <= k < |ops| ==> ops[k].x < w.Width() && ops[k].y < w.height
    ensures var w' := WrittenAll(w, ops);
      w'.Valid() && w'.Width() == w.Width() && w'.height == w.height && w'.transparent == w.transparent &&
      w'.format == w.format
    decreases |ops|
  {
    if ops == [] then w
    else
      var w1, op := WrittenAll(w, ops[..|ops| - 1]), ops[|ops| - 1];
      Written(w1, op.x, op.y, op.color)
  }

  /** After any sequence of writes an opaque window's buffer agrees with its grid. */
  lemma {:induction false} WritesKeepRendered(w: Surface, ops: seq<WriteOp>)
    requires w.Valid() && Rendered(w)
    requires forall k :: 0 <= k < |ops| ==> ops[k].x < w.Width() && ops[k].y < w.height
    ensures Rendered(WrittenAll(w, ops))
    decreases |ops|
  {
    if ops != [] {
      WritesKeepRendered(w, ops[..|ops| - 1]);
      var op := ops[|ops| - 1];
      WriteKeepsRendered(WrittenAll(w, ops[..|ops| - 1]), op.x, op.y, op.color);
    }
  }
}
