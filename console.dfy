/**
 * The framebuffer text console of kernel/src/core/console.c, and the copy of its
 * init/set-colour/clear functions that tests/unit/test_console.c exercises.
 *
 * The framebuffer holds 32-bit pixels; row `y` starts at pixel `y * (pitch / 4)`.
 * Characters are 8x8 cells drawn from a bit pattern of the character code (the font
 * table is not used), and the cursor moves cell by cell, wrapping to the top.
 */
module Console {
  import opened Wrappers

  const White: bv32 := 0xFFFF_FFFF
  const Black: bv32 := 0
  const CellSize: nat := 8
  const Newline: CChar := 10
  const CarriageReturn: CChar := 13

  /** A C `int`, 32 bits wide. */
  type CInt = v: int | -0x8000_0000 <= v < 0x8000_0000

  /** A C `char`, signed on x86-64. */
  type CChar = c: int | -128 <= c < 128

  /** The bits of a C `int` in two's complement. */
  function IntBits(v: CInt): bv32
  {
    if v >= 0 then v as bv32 else (v + 0x1_0000_0000) as bv32
  }

  /** `(c + cy) & (1 << cx)` of `draw_char`: bit `cx` of the `int` sum, the pattern
      painted. Cells only ask for `cx < 8`; wider shifts read as unset. */
  predicate Lit(c: CChar, cx: nat, cy: nat)
  {
    cx < 32 && c + cy < 0x8000_0000 && IntBits(c + cy) & (1 << cx) != 0
  }

  // ---------------------------------------------------------------------------------
  // Painting rectangles of the framebuffer

  /** How a painted rectangle is coloured: one colour, or a character's cell. */
  datatype Brush = Solid(color: bv32) | Letter(c: CChar, fg: bv32, bg: bv32)

  function BrushColor(b: Brush, cx: nat, cy: nat): bv32
  {
    match b
    case Solid(color) => color
    case Letter(c, fg, bg) => if Lit(c, cx, cy) then fg else bg
  }

  /** Pixel `i` lies in columns `x0..x0+w-1` of rows `y0..y0+h-1`. */
  predicate InRect(i: nat, stride: nat, x0: nat, y0: nat, w: nat, h: nat)
  {
    stride > 0 && y0 <= i / stride < y0 + h && x0 <= i % stride < x0 + w
  }

  /** The first `rows` rows of the rectangle and the first `cols` pixels of the next
      row painted with `b`; every other pixel as in `fb`. With `cols == 0` this is the
      rectangle of `rows` full rows. */
  function Painted(fb: seq<bv32>, stride: nat, x0: nat, y0: nat, w: nat, rows: nat, cols: nat, b: Brush): (r: seq<bv32>)
    ensures |r| == |fb|
  {
    seq(|fb|, i requires 0 <= i < |fb| =>
      if InRect(i, stride, x0, y0, w, rows) || InRect(i, stride, x0, y0 + rows, cols, 1)
      then BrushColor(b, i % stride - x0, i / stride - y0)
      else fb[i])
  }

  /** Row `py`, column `px` sits at pixel `py * stride + px`. */
  lemma {:induction false} DivModUnique(i: nat, stride: nat, q: nat, r: nat)
    requires r < stride && i == q * stride + r
    ensures i / stride == q && i % stride == r
  {
    var Q, R := i / stride, i % stride;
    if Q > q {
      MulMono(q + 1, Q, stride);
      assert false;
    } else if Q < q {
      MulMono(Q + 1, q, stride);
      assert false;
    }
  }

  lemma MulMono(a: nat, b: nat, c: nat)
    requires a <= b
    ensures a * c <= b * c
  {
  }

  lemma RowInBounds(px: nat, py: nat, stride: nat, height: nat)
    requires px < stride && py < height
    ensures py * stride + px < height * stride
  {
    MulMono(py + 1, height, stride);
  }

  /** Painting pixel `(x0 + cols, y0 + rows)` extends the painted part by one pixel. */
  lemma {:induction false} PaintStep(fb: seq<bv32>, cur: seq<bv32>, stride: nat, x0: nat, y0: nat, w: nat,
                                     rows: nat, cols: nat, b: Brush)
    requires cur == Painted(fb, stride, x0, y0, w, rows, cols, b)
    requires x0 + cols < stride && cols < w && (y0 + rows) * stride + x0 + cols < |fb|
    ensures var j := (y0 + rows) * stride + x0 + cols;
      cur[j := BrushColor(b, cols, rows)] == Painted(fb, stride, x0, y0, w, rows, cols + 1, b)
  {
    var j := (y0 + rows) * stride + x0 + cols;
    var next := Painted(fb, stride, x0, y0, w, rows, cols + 1, b);
    forall i | 0 <= i < |fb|
      ensures cur[j := BrushColor(b, cols, rows)][i] == next[i]
    {
      if i == j {
        StepHit(j, stride, x0, y0, w, rows, cols);
      } else {
        StepMiss(i, j, stride, x0, y0, rows, cols);
      }
    }
  }

  /** The pixel painted next lies in the next column of the current row. */
  lemma StepHit(j: nat, stride: nat, x0: nat, y0: nat, w: nat, rows: nat, cols: nat)
    requires x0 + cols < stride && j == (y0 + rows) * stride + x0 + cols
    ensures j / stride == y0 + rows && j % stride == x0 + cols
  {
    DivModUnique(j, stride, y0 + rows, x0 + cols);
  }

  /** Any other pixel is in the painted part after the step exactly when it was before. */
  lemma StepMiss(i: nat, j: nat, stride: nat, x0: nat, y0: nat, rows: nat, cols: nat)
    requires i != j && j == (y0 + rows) * stride + x0 + cols
    ensures InRect(i, stride, x0, y0 + rows, cols + 1, 1) <==> InRect(i, stride, x0, y0 + rows, cols, 1)
  {
    if InRect(i, stride, x0, y0 + rows, cols + 1, 1) {
      Reassemble(i, stride);
    }
  }

  lemma Reassemble(i: nat, stride: nat)
    requires stride > 0
    ensures i == (i / stride) * stride + i % stride
  {
  }

  /** A finished row is the same as one more full row. */
  lemma RowDone(fb: seq<bv32>, stride: nat, x0: nat, y0: nat, w: nat, rows: nat, b: Brush)
    ensures Painted(fb, stride, x0, y0, w, rows, w, b) == Painted(fb, stride, x0, y0, w, rows + 1, 0, b)
  {
  }

  /** In a painted rectangle of `h` rows, the pixel at column `cx`, row `cy` of the
      rectangle has the brush's colour for that position. */
  lemma PaintedPixel(fb: seq<bv32>, stride: nat, x0: nat, y0: nat, w: nat, h: nat, b: Brush, cx: nat, cy: nat)
    requires cx < w && cy < h && x0 + w <= stride && (y0 + cy) * stride + x0 + cx < |fb|
    ensures Painted(fb, stride, x0, y0, w, h, 0, b)[(y0 + cy) * stride + x0 + cx] == BrushColor(b, cx, cy)
  {
    var j := (y0 + cy) * stride + x0 + cx;
    DivModUnique(j, stride, y0 + cy, x0 + cx);
    PaintedAt(fb, stride, x0, y0, w, h, b, j, cx, cy);
  }

  lemma PaintedAt(fb: seq<bv32>, stride: nat, x0: nat, y0: nat, w: nat, h: nat, b: Brush, j: nat, cx: nat, cy: nat)
    requires cx < w && cy < h && j < |fb| && stride > 0 && j / stride == y0 + cy && j % stride == x0 + cx
    ensures Painted(fb, stride, x0, y0, w, h, 0, b)[j] == BrushColor(b, cx, cy)
  {
    assert InRect(j, stride, x0, y0, w, h);
  }

  /** Outside the rectangle nothing changes. */
  lemma PaintedOutside(fb: seq<bv32>, stride: nat, x0: nat, y0: nat, w: nat, h: nat, b: Brush, i: nat)
    requires i < |fb| && !InRect(i, stride, x0, y0, w, h)
    ensures Painted(fb, stride, x0, y0, w, h, 0, b)[i] == fb[i]
  {
  }

  // ---------------------------------------------------------------------------------
  // The cursor

  datatype Geometry = Geometry(width: nat, height: nat, pitch: nat)

  /** Pixels per framebuffer row. */
  function Stride(g: Geometry): nat
  {
    g.pitch / 4
  }

  /** The framebuffer contents and the cursor. */
  datatype Screen = Screen(pixels: seq<bv32>, x: nat, y: nat)

  /** The row below, or the top row once the next row would start at or past the bottom. */
  function NextRow(g: Geometry, y: nat): nat
  {
    if y + 8 >= g.height then 0 else y + 8
  }

  /** `draw_char`: nothing when the cell sticks out to the right or the bottom. */
  function DrawCell(g: Geometry, fg: bv32, bg: bv32, pixels: seq<bv32>, c: CChar, x: nat, y: nat): seq<bv32>
  {
    if x + 8 > g.width || y + 8 > g.height then pixels
    else Painted(pixels, Stride(g), x, y, 8, 8, 0, Letter(c, fg, bg))
  }

  /** `console_putchar` on a console with a framebuffer. */
  function Put(g: Geometry, fg: bv32, bg: bv32, s: Screen, c: CChar): Screen
  {
    if c == Newline then Screen(s.pixels, 0, NextRow(g, s.y))
    else if c == CarriageReturn then Screen(s.pixels, 0, s.y)
    else
      var pixels := DrawCell(g, fg, bg, s.pixels, c, s.x, s.y);
      if s.x + 8 >= g.width then Screen(pixels, 0, NextRow(g, s.y)) else Screen(pixels, s.x + 8, s.y)
  }

  /** The characters put one after the other. */
  function PutAll(g: Geometry, fg: bv32, bg: bv32, s: Screen, cs: seq<CChar>): Screen
  {
    if cs == [] then s else Put(g, fg, bg, PutAll(g, fg, bg, s, cs[..|cs| - 1]), cs[|cs| - 1])
  }

  /** The characters of a C string before its terminating NUL. */
  function Text(str: seq<CChar>): (t: seq<CChar>)
    ensures |t| <= |str| && t == str[..|t|] && 0 !in t
  {
    if str == [] || str[0] == 0 then [] else [str[0]] + Text(str[1..])
  }

  lemma {:induction false} TextEndsAtNul(str: seq<CChar>, n: nat)
    requires n < |str| && str[n] == 0 && forall k :: 0 <= k < n ==> str[k] != 0
    ensures Text(str) == str[..n]
  {
    if n > 0 {
      TextEndsAtNul(str[1..], n - 1);
      assert str[..n] == [str[0]] + str[1..][..n - 1];
    }
  }

  /** Newline and carriage return change no pixel; every other character changes at
      most the 64 pixels of the cell under the cursor, each to the colour its bit
      pattern asks for. */
  lemma PutTouchesOnlyTheCell(g: Geometry, fg: bv32, bg: bv32, s: Screen, c: CChar, i: nat)
    requires i < |s.pixels|
    requires c == Newline || c == CarriageReturn || !InRect(i, Stride(g), s.x, s.y, 8, 8)
    ensures Put(g, fg, bg, s, c).pixels[i] == s.pixels[i]
  {
  }

  /** The cell pixel `(cx, cy)` of a character drawn in range gets the foreground
      colour exactly when bit `cx` of `c + cy` is set, and the background otherwise. */
  lemma DrawnPixel(g: Geometry, fg: bv32, bg: bv32, s: Screen, c: CChar, cx: nat, cy: nat)
    requires c != Newline && c != CarriageReturn
    requires s.x + 8 <= g.width <= Stride(g) && s.y + 8 <= g.height && g.height * Stride(g) <= |s.pixels|
    requires cx < 8 && cy < 8
    ensures var i := (s.y + cy) * Stride(g) + s.x + cx;
      i < |s.pixels| &&
      Put(g, fg, bg, s, c).pixels[i] == (if Lit(c, cx, cy) then fg else bg)
  {
    RowInBounds(s.x + cx, s.y + cy, Stride(g), g.height);
    PaintedPixel(s.pixels, Stride(g), s.x, s.y, 8, 8, Letter(c, fg, bg), cx, cy);
  }

  /** The pattern on sample characters: 'A' (65) lights bits 0 and 6 of its top row,
      and a negative `char` is read in two's complement, so -1 lights every bit and
      -128 lights bit 7 only; on the next row, -1 + 1 lights nothing and 127 + 1 only
      bit 7. */
  lemma LitPatterns()
    ensures Lit(65, 0, 0) && !Lit(65, 1, 0) && Lit(65, 6, 0) && !Lit(65, 7, 0)
    ensures Lit(-1, 0, 0) && Lit(-1, 7, 0) && Lit(-1, 31, 0)
    ensures Lit(-128, 7, 0) && !Lit(-128, 6, 0) && !Lit(-128, 0, 0)
    ensures !Lit(-1, 0, 1) && !Lit(-1, 7, 1) && Lit(127, 7, 1) && !Lit(127, 0, 1)
  {
  }

  /** The cursor stays on the screen: once inside a non-empty screen, every character
      leaves it inside. */
  lemma CursorStaysOnScreen(g: Geometry, fg: bv32, bg: bv32, s: Screen, c: CChar)
    requires s.x < g.width && s.y < g.height
    ensures var t := Put(g, fg, bg, s, c);
      t.x < g.width && t.y < g.height && |t.pixels| == |s.pixels| && (t.x == 0 || t.x == s.x + 8)
  {
  }

  lemma {:induction false} PutAllStaysOnScreen(g: Geometry, fg: bv32, bg: bv32, s: Screen, cs: seq<CChar>)
    requires s.x < g.width && s.y < g.height
    ensures var t := PutAll(g, fg, bg, s, cs);
      t.x < g.width && t.y < g.height && |t.pixels| == |s.pixels|
  {
    if cs != [] {
      PutAllStaysOnScreen(g, fg, bg, s, cs[..|cs| - 1]);
      CursorStaysOnScreen(g, fg, bg, PutAll(g, fg, bg, s, cs[..|cs| - 1]), cs[|cs| - 1]);
    }
  }

  lemma {:induction false} PutAllSnoc(g: Geometry, fg: bv32, bg: bv32, s: Screen, cs: seq<CChar>, c: CChar)
    ensures PutAll(g, fg, bg, s, cs + [c]) == Put(g, fg, bg, PutAll(g, fg, bg, s, cs), c)
  {
    assert (cs + [c])[..|cs|] == cs;
  }

  /** The step of a print loop: one more character of `cs` is one more `Put`. */
  lemma PutAllPrefix(g: Geometry, fg: bv32, bg: bv32, s: Screen, cs: seq<CChar>, i: nat)
    requires i < |cs|
    ensures PutAll(g, fg, bg, s, cs[..i + 1]) == Put(g, fg, bg, PutAll(g, fg, bg, s, cs[..i]), cs[i])
  {
    assert cs[..i + 1] == cs[..i] + [cs[i]];
    PutAllSnoc(g, fg, bg, s, cs[..i], cs[i]);
  }

  class Console {
    var framebuffer: array?<bv32>
    var width: nat
    var height: nat
    var pitch: nat
    var x: nat
    var y: nat
    var fgColor: bv32
    var bgColor: bv32

    function Geo(): Geometry
      reads this
    {
      Geometry(width, height, pitch)
    }

    /** Every visible pixel lies inside the framebuffer, and rows do not overlap. */
    ghost predicate Fits()
      reads this
    {
      framebuffer != null ==> width <= Stride(Geo()) && height * Stride(Geo()) <= framebuffer.Length
    }

    ghost function State(): Screen
      reads this, framebuffer
      requires framebuffer != null
    {
      Screen(framebuffer[..], x, y)
    }

    /** The zero-initialised static console: no framebuffer yet. */
    constructor ()
      ensures framebuffer == null && width == 0 && height == 0 && pitch == 0
      ensures x == 0 && y == 0 && fgColor == 0 && bgColor == 0
    {
      framebuffer := null;
      width, height, pitch := 0, 0, 0;
      x, y := 0, 0;
      fgColor, bgColor := 0, 0;
    }

    /** Stores the geometry as given, homes the cursor, white on black. */
    method Init(fb: array?<bv32>, w: nat, h: nat, p: nat)
      modifies this
      ensures framebuffer == fb && width == w && height == h && pitch == p
      ensures x == 0 && y == 0 && fgColor == White && bgColor == Black
    {
      framebuffer := fb;
      width := w;
      height := h;
      pitch := p;
      x := 0;
      y := 0;
      fgColor := White;
      bgColor := Black;
    }

    method SetColor(fg: bv32, bg: bv32)
      modifies this`fgColor, this`bgColor
      ensures fgColor == fg && bgColor == bg
    {
      fgColor := fg;
      bgColor := bg;
    }

    /** Without a framebuffer nothing happens; otherwise every visible pixel becomes the
        background colour, the rest keep theirs, and the cursor goes home. */
    method Clear()
      requires Fits()
      modifies framebuffer, this`x, this`y
      ensures framebuffer == null ==> x == old(x) && y == old(y)
      ensures framebuffer != null ==>
        framebuffer[..] == Painted(old(framebuffer[..]), Stride(Geo()), 0, 0, width, height, 0, Solid(bgColor)) &&
        x == 0 && y == 0
    {
      if framebuffer == null {
        return;
      }
      var fb := framebuffer;
      var stride := pitch / 4;
      ghost var start := fb[..];
      var row := 0;
      while row < height
        invariant 0 <= row <= height
        invariant fb[..] == Painted(start, stride, 0, 0, width, row, 0, Solid(bgColor))
      {
        var col := 0;
        while col < width
          invariant 0 <= col <= width
          invariant fb[..] == Painted(start, stride, 0, 0, width, row, col, Solid(bgColor))
        {
          RowInBounds(col, row, stride, height);
          PaintStep(start, fb[..], stride, 0, 0, width, row, col, Solid(bgColor));
          fb[row * stride + col] := bgColor;
          col := col + 1;
        }
        RowDone(start, stride, 0, 0, width, row, Solid(bgColor));
        row := row + 1;
      }
      x := 0;
      y := 0;
    }

    /** The 8x8 cell at `(px, py)`, unless it does not fit on the screen. */
    method DrawChar(c: CChar, px: nat, py: nat)
      requires Fits()
      modifies framebuffer
      ensures framebuffer != null ==>
        framebuffer[..] == DrawCell(Geo(), fgColor, bgColor, old(framebuffer[..]), c, px, py)
    {
      if framebuffer == null {
        return;
      }
      if px + 8 > width || py + 8 > height {
        return;
      }
      var fb := framebuffer;
      var stride := pitch / 4;
      ghost var start := fb[..];
      var cy := 0;
      while cy < 8
        invariant 0 <= cy <= 8
        invariant fb[..] == Painted(start, stride, px, py, 8, cy, 0, Letter(c, fgColor, bgColor))
      {
        DrawRow(fb, stride, height, c, fgColor, bgColor, px, py, cy, start);
        cy := cy + 1;
      }
    }

    /** Row `cy` of the cell: pixel `cx` gets the foreground colour when bit `cx` of
        `c + cy` is set, the background colour otherwise. */
    static method DrawRow(fb: array<bv32>, stride: nat, height: nat, c: CChar, fg: bv32, bg: bv32,
                          px: nat, py: nat, cy: nat, ghost start: seq<bv32>)
      requires px + 8 <= stride && py + cy < height && height * stride <= fb.Length && |start| == fb.Length
      requires fb[..] == Painted(start, stride, px, py, 8, cy, 0, Letter(c, fg, bg))
      modifies fb
      ensures fb[..] == Painted(start, stride, px, py, 8, cy + 1, 0, Letter(c, fg, bg))
    {
      ghost var b := Letter(c, fg, bg);
      var cx := 0;
      while cx < 8
        invariant 0 <= cx <= 8
        invariant fb[..] == Painted(start, stride, px, py, 8, cy, cx, b)
      {
        var pixelX := px + cx;
        var pixelY := py + cy;
        var color := if Lit(c, cx, cy) then fg else bg;
        RowInBounds(pixelX, pixelY, stride, height);
        PaintStep(start, fb[..], stride, px, py, 8, cy, cx, b);
        fb[pixelY * stride + pixelX] := color;
        cx := cx + 1;
      }
      RowDone(start, stride, px, py, 8, cy, b);
    }

    method PutChar(c: CChar)
      requires Fits()
      modifies framebuffer, this`x, this`y
      ensures framebuffer == null ==> x == old(x) && y == old(y)
      ensures framebuffer != null ==> State() == Put(Geo(), fgColor, bgColor, old(State()), c)
    {
      if framebuffer == null {
        return;
      }
      if c == Newline {
        x := 0;
        y := y + 8;
        if y >= height {
          y := 0;
        }
        return;
      }
      if c == CarriageReturn {
        x := 0;
        return;
      }
      ghost var s0 := State();
      DrawChar(c, x, y);
      ghost var pixels := framebuffer[..];
      assert pixels == DrawCell(Geo(), fgColor, bgColor, s0.pixels, c, s0.x, s0.y);
      x := x + 8;
      if x >= width {
        x := 0;
        y := y + 8;
        if y >= height {
          y := 0;
        }
      }
    }

    /** Ignores a null string; otherwise puts each character before the NUL. */
    method Print(str: Option<seq<CChar>>)
      requires Fits() && (str.Some? ==> 0 in str.value)
      modifies framebuffer, this`x, this`y
      ensures framebuffer == null || str.None? ==> x == old(x) && y == old(y)
      ensures framebuffer != null ==> unchanged(this`fgColor, this`bgColor)
      ensures framebuffer != null && str.None? ==> framebuffer[..] == old(framebuffer[..])
      ensures framebuffer != null && str.Some? ==>
        State() == PutAll(Geo(), fgColor, bgColor, old(State()), Text(str.value))
    {
      if str.None? {
        return;
      }
      var s := str.value;
      var i := 0;
      while s[i] != 0
        invariant 0 <= i < |s| && 0 in s[i..] && forall k :: 0 <= k < i ==> s[k] != 0
        invariant framebuffer == old(framebuffer) && Fits()
        invariant framebuffer == null ==> x == old(x) && y == old(y)
        invariant framebuffer != null ==> State() == PutAll(Geo(), fgColor, bgColor, old(State()), s[..i])
        decreases |s| - i
      {
        assert 0 in s[i + 1..] by {
          assert s[i..] == [s[i]] + s[i + 1..];
        }
        if framebuffer != null {
          PutAllPrefix(Geo(), fgColor, bgColor, old(State()), s, i);
        }
        PutChar(s[i]);
        i := i + 1;
      }
      TextEndsAtNul(s, i);
    }

    /** `console_print` followed by a newline. */
    method Println(str: Option<seq<CChar>>)
      requires Fits() && (str.Some? ==> 0 in str.value)
      modifies framebuffer, this`x, this`y
      ensures framebuffer == null ==> x == old(x) && y == old(y)
      ensures framebuffer != null ==>
        State() == Put(Geo(), fgColor, bgColor,
                       PutAll(Geo(), fgColor, bgColor, old(State()), if str.Some? then Text(str.value) else []),
                       Newline)
    {
      Print(str);
      PutChar(Newline);
    }
  }
}
