/** Flushing a window into the frame buffer, pixel by pixel or row by row (kernel-lib/src/layer.rs:78-160). */
module Windows {
  import opened Basics
  import opened Arithmetic
  import opened Compositor

  function RowOf(s: Screen, i: nat): nat
    requires s.stride >= 1
  {
    i / 4 / s.stride
  }

  function ColumnOf(s: Screen, i: nat): nat
    requires s.stride >= 1
  {
    i / 4 % s.stride
  }

  /** The bytes of columns `x0` to `x1` of row `y` are one stretch. */
  lemma RowSpan(s: Screen, i: nat, y: nat, x0: nat, x1: nat)
    requires s.stride >= 1 && x0 <= x1 <= s.stride
    ensures 4 * (y * s.stride + x0) <= i < 4 * (y * s.stride + x1) <==> RowOf(s, i) == y && x0 <= ColumnOf(s, i) < x1
  {
    var o, m := i / 4, s.stride;
    if y * m + x0 <= o < y * m + x1 {
      OffsetSplits(o - y * m, y, m);
    }
    assert o == o / m * m + o % m;
  }

  /** Where the row copy takes byte `i` of the frame from. */
  function SourceIndex(w: Surface, s: Screen, i: nat): (j: nat)
    requires s.stride >= 1 && w.Valid() && Covers(w, s, i / 4)
    ensures j < |w.buffer|
  {
    var x, y := ColumnOf(s, i) - w.x, RowOf(s, i) - w.y;
    OffsetInRange(x, y, w.Width(), w.height);
    4 * (y * w.Width() + x) + i % 4
  }

  /** The row copy's own arithmetic. */
  lemma SourceIndexInRow(w: Surface, s: Screen, i: nat)
    requires s.stride >= 1 && w.Valid() && Covers(w, s, i / 4)
    ensures SourceIndex(w, s, i) == 4 * ((RowOf(s, i) - w.y) * w.Width()) + (i - 4 * (w.x + RowOf(s, i) * s.stride))
  {}

  /** One row copy reaches exactly the covered bytes of its row. */
  lemma CopiedRowByte(w: Surface, s: Screen, row: nat, i: nat)
    requires s.stride >= 1 && w.Valid() && w.x <= s.stride && w.y <= row < EndY(w, s)
    ensures var at, len := 4 * (w.x + row * s.stride), 4 * (EndX(w, s) - w.x);
      && (at <= i < at + len <==> RowOf(s, i) == row && Covers(w, s, i / 4))
      && (at <= i < at + len ==> SourceIndex(w, s, i) == 4 * ((row - w.y) * w.Width()) + (i - at))
  {
    RowSpan(s, i, row, w.x, EndX(w, s));
    if RowOf(s, i) == row && Covers(w, s, i / 4) {
      SourceIndexInRow(w, s, i);
    }
  }

  /** Byte `i` of a frame after the row copies. */
  function CopiedByte(w: Surface, s: Screen, before: seq<Byte>, i: nat): Byte
    requires s.stride >= 1 && w.Valid() && i < |before|
  {
    if Covers(w, s, i / 4) then w.buffer[SourceIndex(w, s, i)] else before[i]
  }

  /** A copied pixel gets all four bytes of the window's pixel; every other keeps its own. */
  lemma CopiedByteReads(w: Surface, s: Screen, before: seq<Byte>, x: nat, y: nat, i: nat, k: nat)
    requires w.Valid() && x < s.stride && k < 4 && i == 4 * (y * s.stride + x) + k < |before|
    ensures if Inside(w, s, x, y) then
        var j := 4 * ((y - w.y) * |w.pixels| + (x - w.x)) + k;
        0 <= j < |w.buffer| && CopiedByte(w, s, before, i) == w.buffer[j]
      else CopiedByte(w, s, before, i) == before[i]
  {
    var o := y * s.stride + x;
    PaintAtReads(w, s, x, y);
    ByteOf(o, k);
    if Inside(w, s, x, y) {
      OffsetSplits(x, y, s.stride);
      assert SourceIndex(w, s, i) == 4 * ((y - w.y) * w.Width() + (x - w.x)) + k;
    }
  }

  lemma RowCopied(w: Surface, s: Screen, row: nat, before: seq<Byte>, after: seq<Byte>, at: nat, from: nat, len: nat)
    requires s.stride >= 1 && w.Valid() && w.x <= s.stride && w.y <= row < EndY(w, s)
    requires at == 4 * (w.x + row * s.stride) && from == 4 * ((row - w.y) * w.Width()) && len == 4 * (EndX(w, s) - w.x)
    requires |after| == |before| && at + len <= |before| && from + len <= |w.buffer|
    requires forall i :: 0 <= i < |after| ==>
      after[i] == if at <= i < at + len then w.buffer[from + (i - at)] else before[i]
    ensures forall i :: 0 <= i < |after| ==>
      after[i] == if RowOf(s, i) == row then CopiedByte(w, s, before, i) else before[i]
  {
    forall i | 0 <= i < |after|
      ensures after[i] == if RowOf(s, i) == row then CopiedByte(w, s, before, i) else before[i]
    {
      CopiedRowByte(w, s, row, i);
    }
  }

  /** The fast path refines the slow one: with an agreeing buffer the row copies leave the same colour bytes as
      the pixel writer run on every covered pixel. */
  lemma FastFlushRefinesSlow(w: Surface, s: Screen, before: seq<Byte>, i: nat)
    requires s.stride >= 1 && w.Valid() && i < |before|
    requires w.transparent.None? && w.format == s.format && Rendered(w)
    ensures i % 4 < 3 ==> CopiedByte(w, s, before, i) == PaintedByte(w, s, before, i)
    ensures !Covers(w, s, i / 4) ==> CopiedByte(w, s, before, i) == PaintedByte(w, s, before, i) == before[i]
  {
    if Covers(w, s, i / 4) && i % 4 < 3 {
      var j := SourceIndex(w, s, i);
      var x, y := ColumnOf(s, i) - w.x, RowOf(s, i) - w.y;
      assert j / 4 == y * w.Width() + x && j % 4 == i % 4;
      OffsetSplits(x, y, w.Width());
      assert w.buffer[j] == RenderedByte(w, j);
    }
  }

  lemma CoveredIsInFrame(w: Surface, s: Screen, o: nat)
    requires s.stride >= 1 && Covers(w, s, o) && EndY(w, s) <= s.vertical
    ensures o < s.vertical * s.stride
  {
    OffsetInRange(o % s.stride, o / s.stride, s.stride, s.vertical);
  }

  lemma LastRowIsBelow(w: Surface, s: Screen) returns (o: nat)
    requires s.stride >= 1 && w.x < EndX(w, s) && w.y < EndY(w, s) && s.vertical < EndY(w, s)
    ensures Covers(w, s, o) && o >= s.vertical * s.stride
  {
    var y: nat, m := EndY(w, s) - 1, s.stride;
    o := y * m + w.x;
    OffsetSplits(w.x, y, m);
    MulMonotone(s.vertical, y, m);
    assert o % m == w.x && o / m == y;
  }

  /** A flush stays inside the frame exactly when the rows it covers are above the vertical resolution; the
      code clips them at the horizontal one. */
  lemma FlushStaysInFrameExactly(w: Surface, s: Screen)
    requires s.stride >= 1 && w.x < EndX(w, s) && w.y < EndY(w, s)
    ensures (forall o: nat :: Covers(w, s, o) ==> o < s.vertical * s.stride) <==> EndY(w, s) <= s.vertical
  {
    if EndY(w, s) <= s.vertical {
      forall o: nat | Covers(w, s, o) ensures o < s.vertical * s.stride {
        CoveredIsInFrame(w, s, o);
      }
    } else {
      var o := LastRowIsBelow(w, s);
    }
  }

  /** The memory behind the frame buffer reaches down to the last row a flush of the window touches. */
  predicate Mapped(w: Surface, s: Screen, length: nat) {
    w.y < EndY(w, s) ==> 4 * (EndY(w, s) * s.stride) <= length
  }

  class FrameBuffer {
    const screen: Screen
    const bytes: array<Byte>

    ghost predicate Valid()
      reads bytes
    {
      HoldsFrame(screen, bytes[..])
    }

    /** `behind` bytes follow the frame. */
    constructor (screen: Screen, behind: nat)
      requires screen.stride >= 1
      ensures Valid() && fresh(bytes) && this.screen == screen
      ensures bytes.Length == 4 * (screen.vertical * screen.stride) + behind
    {
      this.screen := screen;
      bytes := new Byte[4 * (screen.vertical * screen.stride) + behind];
    }

    /** The pixel writer: three colour bytes in the display's order, wherever the offset leads. */
    method Write(x: nat, y: nat, c: Color)
      requires Valid() && 4 * (y * screen.stride + x) + 4 <= bytes.Length
      modifies bytes
      ensures forall i :: 0 <= i < bytes.Length ==>
        bytes[i] ==
          if i / 4 == y * screen.stride + x && i % 4 < 3 then Pixel(screen.format, c)[i % 4] else old(bytes[i])
    {
      var offset := 4 * (y * screen.stride + x);
      var p := Pixel(screen.format, c);
      bytes[offset] := p[0];
      bytes[offset + 1] := p[1];
      bytes[offset + 2] := p[2];
    }
  }

  /** Slice copy between buffers. */
  method CopyRow(dst: array<Byte>, at: nat, src: seq<Byte>, from: nat, len: nat)
    requires at + len <= dst.Length && from + len <= |src|
    modifies dst
    ensures forall i :: 0 <= i < dst.Length ==>
      dst[i] == if at <= i < at + len then src[from + (i - at)] else old(dst[i])
  {
    for k := 0 to len
      invariant forall i :: 0 <= i < dst.Length ==>
        dst[i] == if at <= i < at + k then src[from + (i - at)] else old(dst[i])
    {
      dst[at + k] := src[from + k];
    }
  }

  class Window {
    const format: Format
    const transparent: Option<Color>
    var pixels: seq<seq<Color>>
    var buffer: seq<Byte>
    var x: nat
    var y: nat

    ghost function View(): Surface
      reads this
    {
      Surface(format, transparent, pixels, if pixels == [] then 0 else |pixels[0]|, buffer, x, y)
    }

    /** An opaque window's rendered copy agrees with its grid. */
    ghost predicate Valid()
      reads this
    {
      View().Valid() && (transparent.None? ==> Rendered(View()))
    }

    constructor (width: nat, height: nat, format: Format, transparent: Option<Color>, x: nat, y: nat)
      ensures width >= 1 ==> Valid() && View() == NewView(width, height, format, transparent, x, y)
    {
      this.format, this.transparent, this.x, this.y := format, transparent, x, y;
      pixels := seq(width, _ => seq(height, _ => if transparent.Some? then transparent.value else BLACK));
      buffer := seq(4 * (height * width), _ => 0);
      new;
      if width >= 1 {
        assert pixels == NewView(width, height, format, transparent, x, y).pixels;
        NewOpaqueIsRendered(width, height, format, x, y);
      }
    }

    method MoveTo(x: nat, y: nat)
      requires Valid()
      modifies this`x, this`y
      ensures Valid() && View() == old(View()).(x := x, y := y)
    {
      this.x, this.y := x, y;
    }

    method Write(x: nat, y: nat, c: Color)
      requires Valid() && x < |pixels| && y < |pixels[0]|
      modifies this`pixels, this`buffer
      ensures Valid() && View() == Written(old(View()), x, y, c)
    {
      OffsetInRange(x, y, |pixels|, |pixels[0]|);
      var index := 4 * (x + y * |pixels|);
      pixels := pixels[x := pixels[x][y := c]];
      buffer := buffer[..index] + Pixel(format, c) + buffer[index + 4..];
      if transparent.None? {
        WriteKeepsRendered(old(View()), x, y, c);
      }
    }

    /** Pixel by pixel: what a window with a transparent colour does. */
    method FlushPixels(fb: FrameBuffer)
      requires Valid() && fb.Valid() && Mapped(View(), fb.screen, fb.bytes.Length)
      modifies fb.bytes
      ensures forall i :: 0 <= i < fb.bytes.Length ==>
        fb.bytes[i] == PaintedByte(View(), fb.screen, old(fb.bytes[..]), i)
    {
      ghost var w, s, before := View(), fb.screen, fb.bytes[..];
      var endY := Min(y + |pixels[0]|, fb.screen.horizontal);
      var endX := Min(x + |pixels|, fb.screen.stride);
      var row := y;
      while row < endY
        invariant y <= row && (row <= endY || row == y)
        invariant forall i :: 0 <= i < fb.bytes.Length ==>
          fb.bytes[i] == if RowOf(s, i) < row then PaintedByte(w, s, before, i) else before[i]
      {
        var column := x;
        while column < endX
          invariant x <= column && (column <= endX || column == x)
          invariant forall i :: 0 <= i < fb.bytes.Length ==>
            fb.bytes[i] == if RowOf(s, i) < row || (RowOf(s, i) == row && ColumnOf(s, i) < column)
              then PaintedByte(w, s, before, i) else before[i]
        {
          var color := pixels[column - x][row - y];
          forall i: nat ensures i / 4 == row * s.stride + column <==> RowOf(s, i) == row && ColumnOf(s, i) == column {
            RowSpan(s, i, row, column, column + 1);
          }
          OffsetInRange(column, row, s.stride, EndY(w, s));
          if transparent != Some(color) {
            fb.Write(column, row, color);
          }
          column := column + 1;
        }
        row := row + 1;
      }
    }

    method FlushRow(fb: FrameBuffer, row: nat)
      requires Valid() && fb.Valid() && x <= fb.screen.stride
      requires y <= row < EndY(View(), fb.screen) && Mapped(View(), fb.screen, fb.bytes.Length)
      modifies fb.bytes
      ensures forall i :: 0 <= i < fb.bytes.Length ==>
        fb.bytes[i] ==
          if RowOf(fb.screen, i) == row then CopiedByte(View(), fb.screen, old(fb.bytes[..]), i) else old(fb.bytes[i])
    {
      ghost var w, s, before := View(), fb.screen, fb.bytes[..];
      var width := |pixels|;
      var endX := Min(x + width, fb.screen.stride);
      var at, from, len := 4 * (x + row * fb.screen.stride), 4 * ((row - y) * width), 4 * (endX - x);
      RowInFrame(w, s, row, fb.bytes.Length, at, from, len);
      CopyRow(fb.bytes, at, buffer, from, len);
      RowCopied(w, s, row, before, fb.bytes[..], at, from, len);
    }

    /** Row by row from the rendered buffer: what an opaque window does. Right of the scan line the width of a row is
        negative, and the first row panics. */
    method FlushRows(fb: FrameBuffer) returns (panicked: bool)
      requires Valid() && fb.Valid() && Mapped(View(), fb.screen, fb.bytes.Length)
      modifies fb.bytes
      ensures panicked <==> x > fb.screen.stride && |pixels[0]| > 0 && y < fb.screen.horizontal
      ensures forall i :: 0 <= i < fb.bytes.Length ==>
        fb.bytes[i] == CopiedByte(View(), fb.screen, old(fb.bytes[..]), i)
    {
      ghost var w, s, before := View(), fb.screen, fb.bytes[..];
      var endY := Min(y + |pixels[0]|, fb.screen.horizontal);
      var row := y;
      while row < endY
        invariant y <= row && (row <= endY || row == y) && (x > fb.screen.stride ==> row == y)
        invariant forall i :: 0 <= i < fb.bytes.Length ==>
          fb.bytes[i] == if RowOf(s, i) < row then CopiedByte(w, s, before, i) else before[i]
      {
        if x > fb.screen.stride {
          return true;
        }
        FlushRow(fb, row);
        row := row + 1;
      }
      return false;
    }

    method Flush(fb: FrameBuffer) returns (panicked: bool)
      requires Valid() && fb.Valid() && Mapped(View(), fb.screen, fb.bytes.Length)
      modifies fb.bytes
      ensures panicked <==>
        transparent.None? && x > fb.screen.stride && |pixels[0]| > 0 && y < fb.screen.horizontal
      ensures transparent.None? ==> forall i :: 0 <= i < fb.bytes.Length ==>
        fb.bytes[i] == CopiedByte(View(), fb.screen, old(fb.bytes[..]), i)
      ensures transparent.Some? || format == fb.screen.format ==>
        forall i :: 0 <= i < fb.bytes.Length && i % 4 < 3 ==>
          fb.bytes[i] == PaintedByte(View(), fb.screen, old(fb.bytes[..]), i)
      ensures forall i :: 0 <= i < fb.bytes.Length && PaintAt(View(), fb.screen, i / 4).None? ==>
        fb.bytes[i] == old(fb.bytes[i])
    {
      if transparent.Some? {
        FlushPixels(fb);
        panicked := false;
      } else {
        panicked := FlushRows(fb);
        if format == fb.screen.format {
          forall i | 0 <= i < fb.bytes.Length
            ensures i % 4 < 3 ==> fb.bytes[i] == PaintedByte(View(), fb.screen, old(fb.bytes[..]), i)
          {
            FastFlushRefinesSlow(View(), fb.screen, old(fb.bytes[..]), i);
          }
        }
      }
    }
  }

  /** The window starts right of the scan line and has rows to draw. */
  predicate Overhangs(w: Surface, s: Screen) {
    w.x > s.stride && w.height > 0 && w.y < s.horizontal
  }

  /** The copied stretch lies inside both buffers. */
  lemma RowInFrame(w: Surface, s: Screen, row: nat, length: nat, at: nat, from: int, len: nat)
    requires s.stride >= 1 && w.Valid() && w.x <= s.stride && w.y <= row < EndY(w, s) && Mapped(w, s, length)
    requires at == 4 * (w.x + row * s.stride) && from == 4 * ((row - w.y) * w.Width()) && len == 4 * (EndX(w, s) - w.x)
    ensures at + len <= length && 0 <= from && from + len <= |w.buffer|
  {
    MulMonotone(0, row - w.y, w.Width());
    MulMonotone(row + 1, EndY(w, s), s.stride);
    MulMonotone(row - w.y + 1, w.height, w.Width());
    assert (row + 1) * s.stride == row * s.stride + s.stride;
    assert (row - w.y + 1) * w.Width() == (row - w.y) * w.Width() + w.Width();
  }
}
