/**
 The software mouse pointer: a sprite with transparent pixels drawn straight into the
 framebuffer, over a save buffer that holds what it covers, and the damage box that tells the
 presenter which pixels changed.
 */
module Cursor {
  import opened Bytes
  import opened Fs

  const CURSOR_W: nat := 16
  const CURSOR_H: nat := 24
  const CURSOR_SCALE_MAX: nat := 2

  const CURSOR_OUTLINE: nat := 0x0A0E1A
  const CURSOR_FILL: nat := 0xF2F5FF
  const CURSOR_SHADE: nat := 0x8A93A8

  datatype Format = Rgb | Bgr | U8 | Other

  /** The bytes of one pixel; formats with fewer than four leave the rest alone. */
  datatype Pixel = Pixel(b0: byte, b1: byte, b2: byte, b3: byte)

  /** Writing a colour changes only the bytes the format defines. */
  function Ink(f: Format, rgb: nat, p: Pixel): Pixel {
    var r, g, b := (rgb / 0x10000) % 256, (rgb / 0x100) % 256, rgb % 256;
    match f
    case Rgb => p.(b0 := r, b1 := g, b2 := b)
    case Bgr => p.(b0 := b, b1 := g, b2 := r)
    case U8 => p.(b0 := (r + g + b) / 3)
    case Other => p
  }

  /** Inking over ink is inking the pixel underneath, unless the format cannot be inked at all. */
  lemma InkOver(f: Format, c: nat, d: nat, p: Pixel)
    ensures Ink(f, c, Ink(f, d, p)) == Ink(f, c, p)
  {
  }

  function HeadLine(row: nat): (s: string)
    requires 0 <= row < 5
    ensures |s| == CURSOR_W && forall i :: 0 <= i < |s| ==> s[i] in {'.', 'X', '#', 'o'}
  {
    match row
    case 0 => "X..............."
    case 1 => "XX.............."
    case 2 => "XoX............."
    case 3 => "XooX............"
    case _ => "Xo##X..........."
  }

  function UpperLine(row: nat): (s: string)
    requires 5 <= row < 10
    ensures |s| == CURSOR_W && forall i :: 0 <= i < |s| ==> s[i] in {'.', 'X', '#', 'o'}
  {
    match row
    case 5 => "Xo###X.........."
    case 6 => "Xo####X........."
    case 7 => "Xo#####X........"
    case 8 => "Xo######X......."
    case _ => "Xo#######X......"
  }

  function LowerLine(row: nat): (s: string)
    requires 10 <= row < 15
    ensures |s| == CURSOR_W && forall i :: 0 <= i < |s| ==> s[i] in {'.', 'X', '#', 'o'}
  {
    match row
    case 10 => "Xo########X....."
    case 11 => "Xo#########X...."
    case 12 => "Xo##########X..."
    case 13 => "Xo#####XXXXXX..."
    case _ => "Xo#X##X........."
  }

  function TailLine(row: nat): (s: string)
    requires 15 <= row < 19
    ensures |s| == CURSOR_W && forall i :: 0 <= i < |s| ==> s[i] in {'.', 'X', '#', 'o'}
  {
    match row
    case 15 => "XoX##X.........."
    case 16 => "XoX##X.........."
    case 17 => "XX.XX..........."
    case _ => "...XX..........."
  }

  function SpriteLine(row: nat): (s: string)
    requires row < CURSOR_H
    ensures |s| == CURSOR_W && forall i :: 0 <= i < |s| ==> s[i] in {'.', 'X', '#', 'o'}
  {
    if row < 5 then HeadLine(row)
    else if row < 10 then UpperLine(row)
    else if row < 15 then LowerLine(row)
    else if row < 19 then TailLine(row)
    else "................"
  }

  /** The colour of one sprite cell, None where it is transparent. */
  function Cell(row: nat, col: nat): (c: Option<nat>)
    requires row < CURSOR_H && col < CURSOR_W
    ensures c.None? <==> SpriteLine(row)[col] == '.'
  {
    match SpriteLine(row)[col]
    case 'X' => Some(CURSOR_OUTLINE)
    case '#' => Some(CURSOR_FILL)
    case 'o' => Some(CURSOR_SHADE)
    case _ => None
  }

  // ---- motion ----

  function Abs(v: int): nat {
    if v < 0 then -v else v
  }

  function Gain(v: int): (g: nat)
    ensures 8 <= g <= 32
  {
    var g := 8 + Abs(v) / 4;
    if g > 32 then 32 else g
  }

  /** One axis of one packet: whole pixels moved, and the eighths carried over. */
  function Sensitivity(acc: int, v: int): (r: (int, int))
    ensures 0 <= r.1 < 8
  {
    var a := acc + v * Gain(v);
    (a / 8, a % 8)
  }

  function Moved(acc: int, packets: seq<int>): (r: (int, int))
    requires 0 <= acc < 8
    ensures 0 <= r.1 < 8
  {
    if packets == [] then (0, acc)
    else
      var (m, a) := Moved(acc, packets[..|packets| - 1]);
      var (d, b) := Sensitivity(a, packets[|packets| - 1]);
      (m + d, b)
  }

  function Eighths(packets: seq<int>): int {
    if packets == [] then 0
    else Eighths(packets[..|packets| - 1]) + packets[|packets| - 1] * Gain(packets[|packets| - 1])
  }

  /** No motion is ever dropped: over any packets, pixels moved plus the carry is what arrived. */
  lemma {:induction false} MotionLossless(acc: int, packets: seq<int>)
    requires 0 <= acc < 8
    ensures var (m, a) := Moved(acc, packets); 8 * m + a == acc + Eighths(packets)
  {
    if packets != [] {
      MotionLossless(acc, packets[..|packets| - 1]);
    }
  }

  /** Packets that report no motion never move the pointer, however many arrive. */
  lemma {:induction false} IdleStaysPut(acc: int, packets: seq<int>)
    requires 0 <= acc < 8 && forall i :: 0 <= i < |packets| ==> packets[i] == 0
    ensures Moved(acc, packets) == (0, acc)
  {
    if packets != [] {
      IdleStaysPut(acc, packets[..|packets| - 1]);
    }
  }

  /** Motion is one to one exactly up to three counts, not the seven the design notes claim. */
  lemma SlowIsExact(v: int)
    ensures Gain(v) == 8 <==> Abs(v) <= 3
    ensures Gain(v) == 32 <==> Abs(v) >= 96
  {
  }

  // ---- the screen ----

  /** The colour the sprite at (cx, cy) puts on pixel (px, py), in blocks of `cs` by `cs`. */
  function Cover(cs: nat, cx: nat, cy: nat, px: nat, py: nat): (c: Option<nat>)
    requires 1 <= cs <= CURSOR_SCALE_MAX
    ensures c.Some? ==> InRect(cx, cy, CURSOR_W * cs, CURSOR_H * cs, px, py)
  {
    if cx <= px && cy <= py && (px - cx) / cs < CURSOR_W && (py - cy) / cs < CURSOR_H then
      DivBelow(cs, CURSOR_W, px - cx);
      DivBelow(cs, CURSOR_H, py - cy);
      Cell((py - cy) / cs, (px - cx) / cs)
    else None
  }

  lemma DivBelow(cs: nat, k: nat, d: nat)
    requires 1 <= cs <= CURSOR_SCALE_MAX && d / cs < k
    ensures d < k * cs
  {
    assert cs == 1 || cs == 2;
  }

  predicate InRect(x: nat, y: nat, w: nat, h: nat, px: nat, py: nat) {
    x <= px < x + w && y <= py < y + h
  }

  datatype Box = Box(x0: nat, y0: nat, x1: nat, y1: nat)

  predicate InBox(b: Option<Box>, px: nat, py: nat) {
    b.Some? && b.value.x0 <= px <= b.value.x1 && b.value.y0 <= py <= b.value.y1
  }

  function Min(a: nat, b: nat): nat {
    if a < b then a else b
  }

  /** Widening the box keeps what it covered and adds the new rectangle. */
  function Widen(b: Option<Box>, x0: nat, y0: nat, x1: nat, y1: nat): (r: Option<Box>)
    ensures forall px, py :: InBox(b, px, py) || InBox(Some(Box(x0, y0, x1, y1)), px, py) ==> InBox(r, px, py)
  {
    if b.None? then Some(Box(x0, y0, x1, y1))
    else Some(Box(Min(b.value.x0, x0), Min(b.value.y0, y0), Max(b.value.x1, x1), Max(b.value.y1, y1)))
  }

  function Pred(a: nat): nat {
    if a == 0 then 0 else a - 1
  }

  /** Keep a sprite of `size` inside a screen side of `limit` pixels. */
  function Clamp(v: int, limit: nat, size: nat): (r: nat)
    ensures size <= limit ==> r + size <= limit
  {
    var most := if limit < size then 0 else limit - size;
    if v < 0 then 0 else if v > most then most else v
  }

  type Picture = (int, int) -> Pixel

  /** A drawing: the pixels it sets, and None where it leaves the screen alone. */
  type Paint = seq<seq<Option<Pixel>>>

  class Display {
    const width: nat
    const height: nat
    const scale: nat
    const format: Format
    const screen: array2<Pixel>
    const save: array2<Pixel>
    const prev: array2<Pixel>
    var x: nat
    var y: nat
    var accX: int
    var accY: int
    var visible: bool
    var hardware: bool
    var dirty: Option<Box>
    /** The picture without a pointer, and the picture last presented. */
    ghost var bg: Picture
    ghost var shown: Picture

    const spriteW: nat := CURSOR_W * scale
    const spriteH: nat := CURSOR_H * scale

    ghost predicate Shape() {
      && 1 <= scale <= CURSOR_SCALE_MAX
      && screen.Length0 == height && screen.Length1 == width
      && save.Length0 == spriteH && save.Length1 == spriteW
      && prev.Length0 == spriteH && prev.Length1 == spriteW
      && screen != save && screen != prev && save != prev
    }

    /** Start on a fresh surface: the pointer is armed in the middle and everything is damaged. */
    constructor (screen: array2<Pixel>, scale: nat, format: Format, ghost shown: Picture)
      requires 1 <= scale <= CURSOR_SCALE_MAX
      modifies screen
      ensures Valid() && this.screen == screen && this.scale == scale && this.format == format && visible && fresh(save) && fresh(prev)
      ensures x == Min(width / 2, if width < CURSOR_W then 0 else width - CURSOR_W) && y == Min(height / 2, if height < CURSOR_H then 0 else height - CURSOR_H)
      ensures accX == accY == 0
      ensures forall py, px :: 0 <= py < height && 0 <= px < width ==> bg(py, px) == old(screen[py, px])
    {
      this.width, this.height := screen.Length1, screen.Length0;
      this.scale, this.format, this.screen := scale, format, screen;
      save := new Pixel[CURSOR_H * scale, CURSOR_W * scale]((r, c) => Pixel(0, 0, 0, 0));
      prev := new Pixel[CURSOR_H * scale, CURSOR_W * scale]((r, c) => Pixel(0, 0, 0, 0));
      x := Min(screen.Length1 / 2, if screen.Length1 < CURSOR_W then 0 else screen.Length1 - CURSOR_W);
      y := Min(screen.Length0 / 2, if screen.Length0 < CURSOR_H then 0 else screen.Length0 - CURSOR_H);
      accX, accY, visible, hardware := 0, 0, false, false;
      dirty := None;
      this.shown := shown;
      new;
      hide Cover, Ink, GhostFree, SaveHolds, Damaged;
      Arm();
    }

    /** The pointer goes on the surface as it is found. */
    method Arm()
      requires Shape() && !hardware && accX == accY == 0
      modifies this`visible, this`dirty, this`bg, save, screen
      ensures Valid() && visible
      ensures forall py, px :: 0 <= py < height && 0 <= px < width ==> bg(py, px) == old(screen[py, px])
    {
      hide Cover, Ink;
      bg := Snapshot();
      Refresh();
      if width != 0 && height != 0 {
        MarkDirty(0, 0, width - 1, height - 1);
      }
    }

    /** Put back what the save buffer holds, over the whole sprite rectangle. */
    method EraseSprite()
      requires Shape()
      modifies screen
      ensures forall py, px :: 0 <= py < height && 0 <= px < width ==>
        (screen[py, px] == if InRect(x, y, spriteW, spriteH, px, py) then save[py - y, px - x] else old(screen[py, px]))
    {
      var row := 0;
      while row < spriteH
        invariant row <= spriteH
        invariant forall py, px :: 0 <= py < height && 0 <= px < width ==>
          (screen[py, px] == if InRect(x, y, spriteW, row, px, py) then save[py - y, px - x] else old(screen[py, px]))
      {
        var fy := y + row;
        if fy >= height { break; }
        var col := 0;
        while col < spriteW
          invariant col <= spriteW
          invariant forall py, px :: 0 <= py < height && 0 <= px < width ==>
            (screen[py, px] == if InRect(x, y, spriteW, row, px, py) || InRect(x, fy, col, 1, px, py) then save[py - y, px - x] else old(screen[py, px]))
        {
          var fx := x + col;
          if fx >= width { break; }
          screen[fy, fx] := save[row, col];
          col := col + 1;
        }
        row := row + 1;
      }
    }

    /** Copy the pixels under (cx, cy) into the save buffer. */
    method SaveRegion(cx: nat, cy: nat)
      requires Shape()
      modifies save
      ensures forall r, c :: 0 <= r < spriteH && 0 <= c < spriteW ==>
        save[r, c] == if cy + r < height && cx + c < width then screen[cy + r, cx + c] else old(save[r, c])
    {
      var row := 0;
      while row < spriteH
        invariant row <= spriteH
        invariant forall r, c :: 0 <= r < spriteH && 0 <= c < spriteW ==>
          save[r, c] == if r < row && cy + r < height && cx + c < width then screen[cy + r, cx + c] else old(save[r, c])
      {
        var fy := cy + row;
        if fy >= height { break; }
        var col := 0;
        while col < spriteW
          invariant col <= spriteW
          invariant forall r, c :: 0 <= r < spriteH && 0 <= c < spriteW ==>
            save[r, c] == if (r < row || (r == row && c < col)) && cy + r < height && cx + c < width then screen[cy + r, cx + c] else old(save[r, c])
        {
          var fx := cx + col;
          if fx >= width { break; }
          save[row, col] := screen[fy, fx];
          col := col + 1;
        }
        row := row + 1;
      }
    }

    /** Does the sprite at (nx, ny) paint this pixel opaquely? */
    method Covers(nx: nat, ny: nat, fx: nat, fy: nat) returns (b: bool)
      requires Shape()
      ensures b <==> Cover(scale, nx, ny, fx, fy).Some?
    {
      if fx < nx || fy < ny { return false; }
      var bcol, brow := (fx - nx) / scale, (fy - ny) / scale;
      return bcol < CURSOR_W && brow < CURSOR_H && SpriteLine(brow)[bcol] != '.';
    }

    /** Restore every pixel of the old sprite that the new one will not paint opaquely. */
    method RestoreVacated(ox: nat, oy: nat, nx: nat, ny: nat)
      requires Shape()
      modifies screen
      ensures forall py, px :: 0 <= py < height && 0 <= px < width ==>
        (screen[py, px] == if InRect(ox, oy, spriteW, spriteH, px, py) && Cover(scale, nx, ny, px, py).None?
                           then prev[py - oy, px - ox] else old(screen[py, px]))
    {
      hide Cover;
      var row := 0;
      while row < spriteH
        invariant row <= spriteH
        invariant forall py, px :: 0 <= py < height && 0 <= px < width ==>
          (screen[py, px] == if InRect(ox, oy, spriteW, row, px, py) && Cover(scale, nx, ny, px, py).None?
                             then prev[py - oy, px - ox] else old(screen[py, px]))
      {
        var fy := oy + row;
        if fy >= height { break; }
        var col := 0;
        while col < spriteW
          invariant col <= spriteW
          invariant forall py, px :: 0 <= py < height && 0 <= px < width ==>
            (screen[py, px] == if (InRect(ox, oy, spriteW, row, px, py) || InRect(ox, fy, col, 1, px, py)) && Cover(scale, nx, ny, px, py).None?
                               then prev[py - oy, px - ox] else old(screen[py, px]))
        {
          var fx := ox + col;
          if fx >= width { break; }
          var covered := Covers(nx, ny, fx, fy);
          if !covered {
            screen[fy, fx] := prev[row, col];
          }
          col := col + 1;
        }
        row := row + 1;
      }
    }

    /** Save the background under (nx, ny); where the old sprite still shows, take it from the snapshot. */
    method CaptureSave(nx: nat, ny: nat, ox: nat, oy: nat)
      requires Shape()
      modifies save
      ensures forall r, c :: 0 <= r < spriteH && 0 <= c < spriteW && ny + r < height && nx + c < width ==>
        (save[r, c] == if InRect(ox, oy, spriteW, spriteH, nx + c, ny + r) then prev[ny + r - oy, nx + c - ox] else screen[ny + r, nx + c])
    {
      var row := 0;
      while row < spriteH
        invariant row <= spriteH
        invariant forall r, c :: 0 <= r < row && 0 <= c < spriteW && ny + r < height && nx + c < width ==>
          (save[r, c] == if InRect(ox, oy, spriteW, spriteH, nx + c, ny + r) then prev[ny + r - oy, nx + c - ox] else screen[ny + r, nx + c])
      {
        var fy := ny + row;
        if fy >= height { break; }
        var col := 0;
        while col < spriteW
          invariant col <= spriteW
          invariant forall r, c :: ((0 <= r < row && 0 <= c < spriteW) || (r == row && 0 <= c < col)) && ny + r < height && nx + c < width ==>
            (save[r, c] == if InRect(ox, oy, spriteW, spriteH, nx + c, ny + r) then prev[ny + r - oy, nx + c - ox] else screen[ny + r, nx + c])
        {
          var fx := nx + col;
          if fx >= width { break; }
          if ox <= fx < ox + spriteW && oy <= fy < oy + spriteH {
            save[row, col] := prev[fy - oy, fx - ox];
          } else {
            save[row, col] := screen[fy, fx];
          }
          col := col + 1;
        }
        row := row + 1;
      }
    }

    method SetPixel(px: nat, py: nat, rgb: nat)
      requires Shape()
      modifies screen
      ensures forall qy, qx :: 0 <= qy < height && 0 <= qx < width ==>
        (screen[qy, qx] == if qy == py && qx == px then Ink(format, rgb, old(screen[qy, qx])) else old(screen[qy, qx]))
    {
      if px >= width || py >= height { return; }
      screen[py, px] := Ink(format, rgb, screen[py, px]);
    }

    /** One sprite cell: a block of `scale` by `scale` pixels. */
    method DrawBlock(bx: nat, by_: nat, rgb: nat)
      requires Shape()
      modifies screen
      ensures forall py, px :: 0 <= py < height && 0 <= px < width ==>
        (screen[py, px] == if InRect(bx, by_, scale, scale, px, py) then Ink(format, rgb, old(screen[py, px])) else old(screen[py, px]))
    {
      hide Ink;
      var sy := 0;
      while sy < scale
        invariant sy <= scale
        invariant forall py, px :: 0 <= py < height && 0 <= px < width ==>
          (screen[py, px] == if InRect(bx, by_, scale, sy, px, py) then Ink(format, rgb, old(screen[py, px])) else old(screen[py, px]))
      {
        var sx := 0;
        while sx < scale
          invariant sx <= scale
          invariant forall py, px :: 0 <= py < height && 0 <= px < width ==>
            (screen[py, px] == if InRect(bx, by_, scale, sy, px, py) || InRect(bx, by_ + sy, sx, 1, px, py)
                               then Ink(format, rgb, old(screen[py, px])) else old(screen[py, px]))
        {
          SetPixel(bx + sx, by_ + sy, rgb);
          sx := sx + 1;
        }
        sy := sy + 1;
      }
    }

    function Painted(c: Option<nat>, p: Pixel): Pixel {
      if c.Some? then Ink(format, c.value, p) else p
    }

    /** One line of the sprite, cell by cell. */
    method DrawLine(cx: nat, cy: nat, row: nat)
      requires Shape() && row < CURSOR_H
      modifies screen
      ensures forall py, px :: 0 <= py < height && 0 <= px < width ==>
        (screen[py, px] == if cy + row * scale <= py < cy + row * scale + scale
                           then Painted(Cover(scale, cx, cy, px, py), old(screen[py, px])) else old(screen[py, px]))
    {
      hide Ink, Cell;
      var top := cy + row * scale;
      var col := 0;
      while col < CURSOR_W
        invariant col <= CURSOR_W
        invariant forall py, px :: 0 <= py < height && 0 <= px < width ==>
          (screen[py, px] == if top <= py < top + scale && px < cx + col * scale
                             then Painted(Cover(scale, cx, cy, px, py), old(screen[py, px])) else old(screen[py, px]))
      {
        var rgb := Cell(row, col);
        forall py: nat, px: nat | InRect(cx + col * scale, top, scale, scale, px, py) ensures Cover(scale, cx, cy, px, py) == rgb {
          BlockCell(scale, cx, cy, row, col, px, py);
        }
        if rgb.Some? {
          DrawBlock(cx + col * scale, top, rgb.value);
        }
        col := col + 1;
      }
    }

    /** Stamp the sprite, unless the device draws the pointer. */
    method DrawArrow(cx: nat, cy: nat)
      requires Shape()
      modifies screen
      ensures forall py, px :: 0 <= py < height && 0 <= px < width ==>
        (screen[py, px] == if hardware then old(screen[py, px]) else Painted(Cover(scale, cx, cy, px, py), old(screen[py, px])))
    {
      if hardware { return; }
      hide Cover, Painted;
      var row := 0;
      while row < CURSOR_H
        invariant row <= CURSOR_H
        invariant forall py, px :: 0 <= py < height && 0 <= px < width ==>
          (screen[py, px] == if cy <= py < cy + row * scale then Painted(Cover(scale, cx, cy, px, py), old(screen[py, px])) else old(screen[py, px]))
      {
        DrawLine(cx, cy, row);
        row := row + 1;
      }
    }

    // ---- what every operation keeps ----

    /** The screen is the background with one sprite at (cx, cy). */
    ghost predicate StampedAt(cx: nat, cy: nat)
      requires Shape()
      reads this`bg, screen
    {
      forall py, px :: 0 <= py < height && 0 <= px < width ==> screen[py, px] == Painted(Cover(scale, cx, cy, px, py), bg(py, px))
    }

    /** The screen is the background with exactly one sprite, at the current position. */
    ghost predicate GhostFree()
      requires Shape()
      reads this`x, this`y, this`visible, this`bg, screen
    {
      if visible then StampedAt(x, y) else Clean()
    }

    /** No sprite anywhere. */
    ghost predicate Clean()
      requires Shape()
      reads this`bg, screen
    {
      forall py, px :: 0 <= py < height && 0 <= px < width ==> screen[py, px] == bg(py, px)
    }

    /** The save buffer is the background under (cx, cy). */
    ghost predicate SaveAt(cx: nat, cy: nat)
      requires Shape()
      reads this`bg, save
    {
      forall r, c :: 0 <= r < spriteH && 0 <= c < spriteW && cy + r < height && cx + c < width ==> save[r, c] == bg(cy + r, cx + c)
    }

    /** The save buffer is the background under the sprite. */
    ghost predicate SaveHolds()
      requires Shape()
      reads this`x, this`y, this`bg, save
    {
      SaveAt(x, y)
    }

    /** Every pixel that differs from what was last presented lies in the damage box. */
    ghost predicate Damaged()
      requires Shape()
      reads this`shown, this`dirty, screen
    {
      forall py, px :: 0 <= py < height && 0 <= px < width && screen[py, px] != shown(py, px) ==> InBox(dirty, px, py)
    }

    ghost predicate Valid()
      reads this, screen, save
    {
      && Shape() && GhostFree() && Damaged()
      && visible == !hardware && (visible ==> SaveHolds())
      && 0 <= accX < 8 && 0 <= accY < 8
    }

    method MarkDirty(x0: nat, y0: nat, x1: nat, y1: nat)
      modifies this`dirty
      ensures dirty == Widen(old(dirty), x0, y0, x1, y1)
    {
      dirty := Widen(dirty, x0, y0, x1, y1);
    }

    /** Outside the sprite the screen is the background, and inside it the save buffer is. */
    lemma Beneath()
      requires Shape() && visible && GhostFree() && SaveHolds()
      ensures forall py, px :: 0 <= py < height && 0 <= px < width ==>
        bg(py, px) == if InRect(x, y, spriteW, spriteH, px, py) then save[py - y, px - x] else screen[py, px]
    {
      hide Cover, Ink;
      forall py, px | 0 <= py < height && 0 <= px < width
        ensures bg(py, px) == if InRect(x, y, spriteW, spriteH, px, py) then save[py - y, px - x] else screen[py, px]
      {
        if InRect(x, y, spriteW, spriteH, px, py) {
          assert save[py - y, px - x] == bg(y + (py - y), x + (px - x));
        } else {
          assert Cover(scale, x, y, px, py).None?;
        }
      }
    }

    /** Put the background back over a sprite that is on the screen. */
    method Uncover()
      requires Shape() && visible && GhostFree() && SaveHolds()
      modifies screen
      ensures Clean()
      ensures forall py, px :: 0 <= py < height && 0 <= px < width && screen[py, px] != old(screen[py, px]) ==>
        InRect(x, y, spriteW, spriteH, px, py)
    {
      hide GhostFree, SaveHolds;
      Beneath();
      EraseSprite();
    }

    /** Take the sprite off the framebuffer. */
    method Hide() returns (was: bool)
      requires Valid()
      modifies this`visible, this`dirty, screen
      ensures was == old(visible) && !visible && Shape() && GhostFree() && Damaged()
      ensures forall px, py :: InBox(old(dirty), px, py) || (was && InRect(x, y, spriteW, spriteH, px, py)) ==> InBox(dirty, px, py)
    {
      hide Cover, Ink, SaveHolds;
      was := visible;
      if was { Uncover(); }
      visible := false;
      if !was { return; }
      MarkDirty(x, y, x + spriteW - 1, y + spriteH - 1);
    }

    /** Save what lies under the pointer and stamp it again. */
    method Refresh()
      requires Shape() && !hardware && Clean()
      modifies this`visible, save, screen
      ensures Shape() && visible && GhostFree() && SaveHolds()
      ensures forall py, px :: 0 <= py < height && 0 <= px < width && screen[py, px] != old(screen[py, px]) ==>
        InRect(x, y, spriteW, spriteH, px, py)
    {
      hide Cover, Ink;
      SaveAndStamp();
      visible := true;
    }

    /** Save what is there and stamp the sprite on it. */
    method SaveAndStamp()
      requires Shape() && !hardware
      modifies screen, save
      ensures forall r, c :: 0 <= r < spriteH && 0 <= c < spriteW ==>
        save[r, c] == if y + r < height && x + c < width then old(screen[y + r, x + c]) else old(save[r, c])
      ensures forall py, px :: 0 <= py < height && 0 <= px < width ==> screen[py, px] == Painted(Cover(scale, x, y, px, py), old(screen[py, px]))
    {
      hide Cover, Painted;
      SaveRegion(x, y);
      DrawArrow(x, y);
    }

    predicate Fits(paint: Paint) {
      |paint| == height && forall r :: 0 <= r < height ==> |paint[r]| == width
    }

    /** Put a drawing on the screen: some pixels get new values, the rest stay. */
    method Draw(paint: Paint, mark: bool)
      requires Shape() && Fits(paint)
      modifies this`dirty, screen
      ensures forall py, px :: 0 <= py < height && 0 <= px < width ==>
        (screen[py, px] == if paint[py][px].Some? then paint[py][px].value else old(screen[py, px]))
      ensures forall px, py :: InBox(old(dirty), px, py) ==> InBox(dirty, px, py)
      ensures mark ==> forall py, px :: 0 <= py < height && 0 <= px < width && paint[py][px].Some? ==> InBox(dirty, px, py)
    {
      var row := 0;
      while row < height
        invariant row <= height
        invariant forall py, px :: 0 <= py < height && 0 <= px < width ==>
          (screen[py, px] == if py < row && paint[py][px].Some? then paint[py][px].value else old(screen[py, px]))
        invariant forall px, py :: InBox(old(dirty), px, py) ==> InBox(dirty, px, py)
        invariant mark ==> forall py, px :: 0 <= py < row && 0 <= px < width && paint[py][px].Some? ==> InBox(dirty, px, py)
      {
        DrawRow(paint[row], row, mark);
        row := row + 1;
      }
    }

    method DrawRow(line: seq<Option<Pixel>>, row: nat, mark: bool)
      requires Shape() && row < height && |line| == width
      modifies this`dirty, screen
      ensures forall py, px :: 0 <= py < height && 0 <= px < width ==>
        (screen[py, px] == if py == row && line[px].Some? then line[px].value else old(screen[py, px]))
      ensures forall px, py :: InBox(old(dirty), px, py) ==> InBox(dirty, px, py)
      ensures mark ==> forall px :: 0 <= px < width && line[px].Some? ==> InBox(dirty, px, row)
    {
      var col := 0;
      while col < width
        invariant col <= width
        invariant forall py, px :: 0 <= py < height && 0 <= px < width ==>
          (screen[py, px] == if py == row && px < col && line[px].Some? then line[px].value else old(screen[py, px]))
        invariant forall px, py :: InBox(old(dirty), px, py) ==> InBox(dirty, px, py)
        invariant mark ==> forall px :: 0 <= px < col && line[px].Some? ==> InBox(dirty, px, row)
      {
        if line[col].Some? {
          screen[row, col] := line[col].value;
          if mark {
            assert InBox(Some(Box(col, row, col, row)), col, row);
            MarkDirty(col, row, col, row);
          }
        }
        col := col + 1;
      }
    }

    /** A console write: the pointer comes off, the text is drawn, the pointer goes back. */
    method ConsoleBytes(paint: Paint)
      requires Valid() && Fits(paint)
      modifies this, screen, save
      ensures Valid() && x == old(x) && y == old(y) && hardware == old(hardware) && shown == old(shown) && visible == old(visible)
      ensures bg == Overlay(old(bg), paint) && accX == old(accX) && accY == old(accY)
      ensures forall py, px :: 0 <= py < height && 0 <= px < width ==>
        (bg(py, px) == if paint[py][px].Some? then paint[py][px].value else old(bg)(py, px))
    {
      if !visible {
        hide Cover, Ink;
        Draw(paint, true);
        bg := Overlay(bg, paint);
        return;
      }
      hide GhostFree, SaveHolds, Rewrites, OneSprite, TrueSave, Damaged, Marked, Grows, Shows, Kept, Snapshot;
      ghost var s, k, b, box := Snapshot(), Kept(), bg, dirty;
      ShowsNow(s);
      SeenAs(s);
      ghost var s' := Rewrite(paint, s);
      bg := Overlay(bg, paint);
      RewriteTrue(x, y, paint, s, k, s', Kept(), b);
      MarkedTrans(shown, s, s', box, dirty);
      SeenAs(s');
    }

    /** A repaint that covers every opaque pixel of the sprite needs no erasing first. */
    method WithWriter(paint: Paint)
      requires Valid() && Fits(paint)
      requires visible ==> forall py, px :: 0 <= py < height && 0 <= px < width && Cover(scale, x, y, px, py).Some? ==> paint[py][px].Some?
      modifies this, screen, save
      ensures Valid() && x == old(x) && y == old(y) && hardware == old(hardware) && shown == old(shown)
      ensures forall py, px :: 0 <= py < height && 0 <= px < width ==>
        (bg(py, px) == if paint[py][px].Some? then paint[py][px].value else old(bg)(py, px))
    {
      hide Cover, Ink;
      Draw(paint, false);
      bg := Overlay(bg, paint);
      if visible {
        Refresh();
      }
      if width != 0 && height != 0 {
        MarkDirty(0, 0, width - 1, height - 1);
      }
    }

    /** The device takes the pointer over: the sprite is erased for good. */
    method HandToHardware()
      requires Valid()
      modifies this, screen
      ensures Valid() && hardware && bg == old(bg) && Clean()
    {
      var was := Hide();
      hardware := true;
    }

    /**
     A mouse packet: the pointer moves by the accumulated motion, clamped to the screen, and the
     sprite moves by difference, never leaving a trace and never reading its own pixels back. The
     lock is given up between storing the position and repainting; `gap` is a console write of
     another processor that gets in there. With none the picture and the save buffer stay true;
     with one each stays true exactly when every pixel it takes from the gap comes out right.
     */
    method MoveCursor(dx: int, dy: int, gap: Option<Paint>)
      requires Valid() && (gap.Some? ==> Fits(gap.value))
      modifies this, screen, save, prev
      ensures Shape() && Damaged() && shown == old(shown) && hardware == old(hardware) && visible == old(visible)
      ensures bg == if gap.Some? then Overlay(old(bg), gap.value) else old(bg)
      ensures accX == Sensitivity(old(accX), dx).1 && accY == Sensitivity(old(accY), dy).1
      ensures var mx, my := Sensitivity(old(accX), dx).0, Sensitivity(old(accY), dy).0;
        if mx == 0 && my == 0 then x == old(x) && y == old(y)
        else x == Clamp(old(x) + mx, width, spriteW) && y == Clamp(old(y) + my, height, spriteH)
      ensures gap.None? || hardware || (x == old(x) && y == old(y)) ==> Valid()
      ensures gap.Some? && !hardware && !(x == old(x) && y == old(y)) ==> var nx, ny := x, y;
        && (SaveHolds() <==> SaveSurvives(old(x), old(y), nx, ny, gap.value, old(Kept()), old(bg)))
        && (GhostFree() <==> PictureSurvives(old(x), old(y), nx, ny, gap.value, old(Kept()), old(bg)))
        && (Valid() <==> SaveHolds() && GhostFree())
      ensures gap.None? && hardware ==> forall py, px :: 0 <= py < height && 0 <= px < width ==> screen[py, px] == old(screen[py, px])
    {
      hide Cover, Ink, Sensitivity, GhostFree, SaveHolds, Damaged, SaveSurvives, PictureSurvives, Overlay, Clamp;
      var (mx, ax) := Sensitivity(accX, dx);
      var (my, ay) := Sensitivity(accY, dy);
      accX, accY := ax, ay;
      var nx := if mx == 0 && my == 0 then x else Clamp(x + mx, width, spriteW);
      var ny := if mx == 0 && my == 0 then y else Clamp(y + my, height, spriteH);
      if nx == x && ny == y {
        if gap.Some? { ConsoleBytes(gap.value); }
      } else if hardware {
        MoveHidden(nx, ny);
        if gap.Some? { ConsoleBytes(gap.value); }
      } else if gap.None? {
        MoveSprite(nx, ny);
      } else {
        TornMove(nx, ny, gap.value);
      }
    }

    method MoveHidden(nx: nat, ny: nat)
      requires Valid() && !visible
      modifies this`x, this`y
      ensures Valid() && x == nx && y == ny
    {
      hide Cover, Ink;
      x, y := nx, ny;
    }

    // ---- repainting, and what may get in between ----

    ghost predicate Shows(s: Picture)
      requires Shape()
      reads screen
    {
      forall py, px :: 0 <= py < height && 0 <= px < width ==> screen[py, px] == s(py, px)
    }

    /** The save buffer as a picture of its own. */
    ghost function Kept(): (k: Picture)
      requires Shape()
      reads save
      ensures forall r, c :: 0 <= r < spriteH && 0 <= c < spriteW ==> k(r, c) == save[r, c]
    {
      var rows := seq(spriteH, r requires 0 <= r < spriteH reads save => seq(spriteW, c requires 0 <= c < spriteW reads save => save[r, c]));
      (r, c) => if 0 <= r < |rows| && 0 <= c < |rows[r]| then rows[r][c] else Pixel(0, 0, 0, 0)
    }

    /** A pixel after a drawing; outside the screen nothing is drawn. */
    function Drawn(paint: Paint, py: nat, px: nat, p: Pixel): Pixel
      requires Fits(paint)
    {
      if py < height && px < width && paint[py][px].Some? then paint[py][px].value else p
    }

    /** The picture `s` is `b` with one sprite at (cx, cy). */
    ghost predicate OneSprite(cx: nat, cy: nat, s: Picture, b: Picture)
      requires Shape()
    {
      forall py, px :: 0 <= py < height && 0 <= px < width ==> s(py, px) == Painted(Cover(scale, cx, cy, px, py), b(py, px))
    }

    /** The save buffer `k` is `b` under (cx, cy). */
    ghost predicate TrueSave(cx: nat, cy: nat, k: Picture, b: Picture)
      requires Shape()
    {
      forall r, c :: 0 <= r < spriteH && 0 <= c < spriteW && cy + r < height && cx + c < width ==> k(r, c) == b(cy + r, cx + c)
    }

    /** What a console write around a pointer at (cx, cy) makes of a screen and a save buffer. */
    ghost predicate Rewrites(cx: nat, cy: nat, paint: Paint, s: Picture, k: Picture, s': Picture, k': Picture)
      requires Shape() && Fits(paint)
    {
      && (forall r, c :: 0 <= r < spriteH && 0 <= c < spriteW ==> k'(r, c) == Drawn(paint, cy + r, cx + c, k(r, c)))
      && (forall py, px :: 0 <= py < height && 0 <= px < width ==>
        s'(py, px) == Painted(Cover(scale, cx, cy, px, py), Drawn(paint, py, px, if InRect(cx, cy, spriteW, spriteH, px, py) then k(py - cy, px - cx) else s(py, px))))
    }

    /** What repainting from (ox, oy) to (cx, cy) makes of them. */
    ghost predicate Repaints(ox: nat, oy: nat, cx: nat, cy: nat, s: Picture, k: Picture, s': Picture, k': Picture)
      requires Shape()
    {
      && (forall r, c :: 0 <= r < spriteH && 0 <= c < spriteW && cy + r < height && cx + c < width ==>
        k'(r, c) == if InRect(ox, oy, spriteW, spriteH, cx + c, cy + r) then k(cy + r - oy, cx + c - ox) else s(cy + r, cx + c))
      && (forall py, px :: 0 <= py < height && 0 <= px < width ==>
        s'(py, px) == Painted(Cover(scale, cx, cy, px, py),
          if InRect(ox, oy, spriteW, spriteH, px, py) && Cover(scale, cx, cy, px, py).None? then k(py - oy, px - ox) else s(py, px)))
    }

    /** Put the save buffer back over the rectangle at (cx, cy), then draw. */
    ghost predicate Redraws(cx: nat, cy: nat, paint: Paint, s: Picture, k: Picture, d: Picture)
      requires Shape() && Fits(paint)
    {
      forall py, px :: 0 <= py < height && 0 <= px < width ==>
        d(py, px) == Drawn(paint, py, px, if InRect(cx, cy, spriteW, spriteH, px, py) then k(py - cy, px - cx) else s(py, px))
    }

    /** Save what is under (cx, cy), as far as the screen goes. */
    ghost predicate Resaves(cx: nat, cy: nat, d: Picture, k: Picture, k': Picture)
      requires Shape()
    {
      forall r, c :: 0 <= r < spriteH && 0 <= c < spriteW ==> k'(r, c) == if cy + r < height && cx + c < width then d(cy + r, cx + c) else k(r, c)
    }

    /**
     The transaction of a console write around a visible pointer: put the save buffer back over
     the sprite's rectangle, draw, save what is there now, and stamp the sprite again.
     */
    method Rewrite(paint: Paint, ghost s: Picture) returns (ghost s': Picture)
      requires Shape() && Fits(paint) && visible && !hardware && Shows(s)
      modifies this`visible, this`dirty, screen, save
      ensures visible && Shows(s') && Rewrites(x, y, paint, s, old(Kept()), s', Kept())
      ensures Grows(old(dirty), dirty) && Marked(s', s, dirty)
    {
      hide Rewrites, Marked, Grows, Shows, Redraws, Resaves, OneSprite, InBox, InRect, Kept;
      ghost var k := Kept();
      ghost var d := Redraw(paint, s);
      Resave(d);
      s' := Stamp(d);
      visible := true;
      RewritesIs(x, y, paint, s, k, d, s', Kept());
      RewritesMarked(paint, s, k, s', Kept());
    }

    lemma RewritesIs(cx: nat, cy: nat, paint: Paint, s: Picture, k: Picture, d: Picture, s': Picture, k': Picture)
      requires Shape() && Fits(paint) && Redraws(cx, cy, paint, s, k, d) && Resaves(cx, cy, d, k, k') && OneSprite(cx, cy, s', d)
      ensures Rewrites(cx, cy, paint, s, k, s', k')
    {
      hide Cover, Painted;
    }

    method Redraw(paint: Paint, ghost s: Picture) returns (ghost d: Picture)
      requires Shape() && Fits(paint) && Shows(s)
      modifies this`visible, this`dirty, screen
      ensures Shows(d) && Redraws(x, y, paint, s, Kept(), d) && Grows(old(dirty), dirty)
      ensures forall px, py :: InRect(x, y, spriteW, spriteH, px, py) ==> InBox(dirty, px, py)
      ensures forall py, px :: 0 <= py < height && 0 <= px < width && paint[py][px].Some? ==> InBox(dirty, px, py)
    {
      hide Kept, Snapshot;
      EraseSprite();
      visible := false;
      MarkDirty(x, y, x + spriteW - 1, y + spriteH - 1);
      Draw(paint, true);
      d := Snapshot();
    }

    method Resave(ghost d: Picture)
      requires Shape() && Shows(d)
      modifies save
      ensures Resaves(x, y, d, old(Kept()), Kept())
    {
      hide Kept;
      SaveRegion(x, y);
    }

    method Stamp(ghost d: Picture) returns (ghost s: Picture)
      requires Shape() && !hardware && Shows(d)
      modifies screen
      ensures Shows(s) && OneSprite(x, y, s, d)
    {
      hide Cover, Painted, Snapshot;
      DrawArrow(x, y);
      s := Snapshot();
    }

    /** Repaint by difference: the sprite was at (ox, oy) and belongs at the current position. */
    method Repaint(ox: nat, oy: nat, ghost s: Picture) returns (ghost s': Picture)
      requires Shape() && !hardware && Shows(s)
      modifies this`dirty, screen, save, prev
      ensures Shows(s') && Repaints(ox, oy, x, y, s, old(Kept()), s', Kept())
      ensures Grows(old(dirty), dirty) && Marked(s', s, dirty)
    {
      hide Repaints, Shows, Marked, Grows, Vacates, Captures, OneSprite, PrevIs, InBox, InRect, Kept;
      ghost var k := Kept();
      ghost var v := Vacate(ox, oy, s, k);
      Capture(ox, oy, v, k);
      s' := Stamp(v);
      MarkMove(ox, oy);
      RepaintsIs(ox, oy, x, y, s, k, v, s', Kept());
      RepaintsMarked(ox, oy, s, k, s', Kept());
    }

    lemma ShowsNow(s: Picture)
      requires Shape() && s == Snapshot()
      ensures Shows(s)
    {
    }

    lemma RepaintsIs(ox: nat, oy: nat, cx: nat, cy: nat, s: Picture, k: Picture, v: Picture, s': Picture, k': Picture)
      requires Shape() && Vacates(ox, oy, cx, cy, s, k, v) && Captures(ox, oy, cx, cy, v, k, k') && OneSprite(cx, cy, s', v)
      ensures Repaints(ox, oy, cx, cy, s, k, s', k')
    {
      hide Cover, Painted;
    }

    /** The old sprite's pixels come back from the snapshot `k`, but for those the new one paints. */
    ghost predicate Vacates(ox: nat, oy: nat, cx: nat, cy: nat, s: Picture, k: Picture, v: Picture)
      requires Shape()
    {
      forall py, px :: 0 <= py < height && 0 <= px < width ==>
        v(py, px) == if InRect(ox, oy, spriteW, spriteH, px, py) && Cover(scale, cx, cy, px, py).None? then k(py - oy, px - ox) else s(py, px)
    }

    /** The background under the new position, from that snapshot where the old sprite was. */
    ghost predicate Captures(ox: nat, oy: nat, cx: nat, cy: nat, v: Picture, k: Picture, k': Picture)
      requires Shape()
    {
      forall r, c :: 0 <= r < spriteH && 0 <= c < spriteW && cy + r < height && cx + c < width ==>
        k'(r, c) == if InRect(ox, oy, spriteW, spriteH, cx + c, cy + r) then k(cy + r - oy, cx + c - ox) else v(cy + r, cx + c)
    }

    ghost predicate PrevIs(k: Picture)
      requires Shape()
      reads prev
    {
      forall r, c :: 0 <= r < spriteH && 0 <= c < spriteW ==> prev[r, c] == k(r, c)
    }

    method Vacate(ox: nat, oy: nat, ghost s: Picture, ghost k: Picture) returns (ghost v: Picture)
      requires Shape() && Shows(s) && k == Kept()
      modifies screen, prev
      ensures Shows(v) && PrevIs(k) && Vacates(ox, oy, x, y, s, k, v)
    {
      hide Cover, Kept, Snapshot;
      forall r, c | 0 <= r < spriteH && 0 <= c < spriteW {
        prev[r, c] := save[r, c];
      }
      RestoreVacated(ox, oy, x, y);
      v := Snapshot();
    }

    method Capture(ox: nat, oy: nat, ghost v: Picture, ghost k: Picture)
      requires Shape() && Shows(v) && PrevIs(k)
      modifies save
      ensures Captures(ox, oy, x, y, v, k, Kept())
    {
      hide Kept;
      CaptureSave(x, y, ox, oy);
    }

    /** Every pixel where two pictures differ lies in the box. */
    ghost predicate Marked(s': Picture, s: Picture, box: Option<Box>) {
      forall py: nat, px: nat :: py < height && px < width && s'(py, px) != s(py, px) ==> InBox(box, px, py)
    }

    ghost predicate Grows(box: Option<Box>, box': Option<Box>) {
      forall px, py :: InBox(box, px, py) ==> InBox(box', px, py)
    }

    lemma MarkedTrans(s: Picture, s': Picture, s'': Picture, box: Option<Box>, box': Option<Box>)
      requires Marked(s', s, box) && Grows(box, box') && Marked(s'', s', box')
      ensures Marked(s'', s, box')
    {
      hide InBox;
    }

    lemma RepaintsMarked(ox: nat, oy: nat, s: Picture, k: Picture, s': Picture, k': Picture)
      requires Shape() && Repaints(ox, oy, x, y, s, k, s', k')
      requires forall px: nat, py: nat :: (InRect(ox, oy, spriteW, spriteH, px, py) || InRect(x, y, spriteW, spriteH, px, py)) && px < width && py < height ==>
        InBox(dirty, px, py)
      ensures Marked(s', s, dirty)
    {
      hide InBox, Cover, Painted;
      forall py: nat, px: nat | py < height && px < width && s'(py, px) != s(py, px) ensures InBox(dirty, px, py) {
        PaintedNone(s(py, px));
      }
    }

    lemma RewritesMarked(paint: Paint, s: Picture, k: Picture, s': Picture, k': Picture)
      requires Shape() && Fits(paint) && Rewrites(x, y, paint, s, k, s', k')
      requires forall px, py :: InRect(x, y, spriteW, spriteH, px, py) ==> InBox(dirty, px, py)
      requires forall py, px :: 0 <= py < height && 0 <= px < width && paint[py][px].Some? ==> InBox(dirty, px, py)
      ensures Marked(s', s, dirty)
    {
      hide InBox, Cover, Painted;
      forall py: nat, px: nat | py < height && px < width && s'(py, px) != s(py, px) ensures InBox(dirty, px, py) {
        PaintedNone(s(py, px));
      }
    }

    method MarkMove(ox: nat, oy: nat)
      requires Shape()
      modifies this`dirty
      ensures Grows(old(dirty), dirty)
      ensures forall px: nat, py: nat :: (InRect(ox, oy, spriteW, spriteH, px, py) || InRect(x, y, spriteW, spriteH, px, py)) && px < width && py < height ==>
        InBox(dirty, px, py)
    {
      var x1 := Min(Max(ox, x) + spriteW - 1, Pred(width));
      var y1 := Min(Max(oy, y) + spriteH - 1, Pred(height));
      if x1 >= Min(ox, x) && y1 >= Min(oy, y) {
        MarkDirty(Min(ox, x), Min(oy, y), x1, y1);
        assert forall px: nat, py: nat :: (InRect(ox, oy, spriteW, spriteH, px, py) || InRect(x, y, spriteW, spriteH, px, py)) && px < width && py < height ==>
          InBox(Some(Box(Min(ox, x), Min(oy, y), x1, y1)), px, py);
      }
    }

    lemma PaintedNone(p: Pixel)
      ensures Painted(None, p) == p
    {
    }

    /** Stamping the sprite over its own older pixels is stamping it on the background. */
    lemma Restamp(n: Option<nat>, o: Option<nat>, p: Pixel)
      ensures Painted(n, Painted(if n.Some? then o else None, p)) == Painted(n, p)
    {
      if n.Some? && o.Some? { InkOver(format, n.value, o.value, p); }
    }

    /**
     What a console write in the gap of a move from (ox, oy) to (nx, ny) makes the save buffer hold
     for a pixel, `k` being the save buffer before. The write puts that back at the new position,
     draws, and saves the result; the repaint takes that for the background under the old sprite,
     and elsewhere saves it with the sprite on it.
     */
    function TornSave(ox: nat, oy: nat, nx: nat, ny: nat, paint: Paint, k: Picture, py: nat, px: nat): Pixel
      requires Shape() && Fits(paint)
    {
      if InRect(ox, oy, spriteW, spriteH, px, py) then Drawn(paint, ny + (py - oy), nx + (px - ox), k(py - oy, px - ox))
      else Painted(Cover(scale, nx, ny, px, py), Drawn(paint, py, px, k(py - ny, px - nx)))
    }

    /** What it makes the screen show, `b` being the background before. */
    function TornPixel(ox: nat, oy: nat, nx: nat, ny: nat, paint: Paint, k: Picture, b: Picture, py: nat, px: nat): Pixel
      requires Shape() && Fits(paint)
    {
      var n := Cover(scale, nx, ny, px, py);
      if n.None? && InRect(ox, oy, spriteW, spriteH, px, py) then Drawn(paint, ny + (py - oy), nx + (px - ox), k(py - oy, px - ox))
      else if InRect(nx, ny, spriteW, spriteH, px, py) then Painted(n, Drawn(paint, py, px, k(py - ny, px - nx)))
      else Drawn(paint, py, px, b(py, px))
    }

    /** The save buffer is nevertheless the background. */
    ghost predicate SaveSurvives(ox: nat, oy: nat, nx: nat, ny: nat, paint: Paint, k: Picture, b: Picture)
      requires Shape() && Fits(paint)
    {
      forall py: nat, px: nat :: py < height && px < width && InRect(nx, ny, spriteW, spriteH, px, py) ==>
        TornSave(ox, oy, nx, ny, paint, k, py, px) == Drawn(paint, py, px, b(py, px))
    }

    /** The screen is nevertheless the background with one sprite. */
    ghost predicate PictureSurvives(ox: nat, oy: nat, nx: nat, ny: nat, paint: Paint, k: Picture, b: Picture)
      requires Shape() && Fits(paint)
    {
      forall py: nat, px: nat :: py < height && px < width ==>
        TornPixel(ox, oy, nx, ny, paint, k, b, py, px) == Painted(Cover(scale, nx, ny, px, py), Drawn(paint, py, px, b(py, px)))
    }

    /** A console write around a pointer that is where it is said to be gives a true picture. */
    lemma RewriteTrue(cx: nat, cy: nat, paint: Paint, s: Picture, k: Picture, s': Picture, k': Picture, b: Picture)
      requires Shape() && Fits(paint) && OneSprite(cx, cy, s, b) && TrueSave(cx, cy, k, b) && Rewrites(cx, cy, paint, s, k, s', k')
      ensures OneSprite(cx, cy, s', Overlay(b, paint)) && TrueSave(cx, cy, k', Overlay(b, paint))
    {
      hide Cover, Painted;
      forall py, px | 0 <= py < height && 0 <= px < width ensures s'(py, px) == Painted(Cover(scale, cx, cy, px, py), Overlay(b, paint)(py, px)) {
        PaintedNone(b(py, px));
        if InRect(cx, cy, spriteW, spriteH, px, py) { assert k(py - cy, px - cx) == b(cy + (py - cy), cx + (px - cx)); }
      }
    }

    /** A repaint of a true picture gives a true picture. */
    lemma RepaintTrue(ox: nat, oy: nat, cx: nat, cy: nat, s: Picture, k: Picture, s': Picture, k': Picture, b: Picture)
      requires Shape() && OneSprite(ox, oy, s, b) && TrueSave(ox, oy, k, b) && Repaints(ox, oy, cx, cy, s, k, s', k')
      ensures OneSprite(cx, cy, s', b) && TrueSave(cx, cy, k', b)
    {
      hide Cover, Painted;
      forall py, px | 0 <= py < height && 0 <= px < width ensures s'(py, px) == Painted(Cover(scale, cx, cy, px, py), b(py, px)) {
        Restamp(Cover(scale, cx, cy, px, py), Cover(scale, ox, oy, px, py), b(py, px));
        PaintedNone(b(py, px));
        if InRect(ox, oy, spriteW, spriteH, px, py) { assert k(py - oy, px - ox) == b(oy + (py - oy), ox + (px - ox)); }
      }
      forall r, c | 0 <= r < spriteH && 0 <= c < spriteW && cy + r < height && cx + c < width ensures k'(r, c) == b(cy + r, cx + c) {
        PaintedNone(b(cy + r, cx + c));
        if InRect(ox, oy, spriteW, spriteH, cx + c, cy + r) {
          assert k(cy + r - oy, cx + c - ox) == b(oy + (cy + r - oy), ox + (cx + c - ox));
        }
      }
    }

    /** A console write in the gap: each half stays true exactly when its pixels come out right. */
    lemma TornTrue(ox: nat, oy: nat, nx: nat, ny: nat, paint: Paint, s: Picture, k: Picture, s1: Picture, k1: Picture, s2: Picture, k2: Picture, b: Picture)
      requires Shape() && Fits(paint) && OneSprite(ox, oy, s, b)
      requires Rewrites(nx, ny, paint, s, k, s1, k1) && Repaints(ox, oy, nx, ny, s1, k1, s2, k2)
      ensures TrueSave(nx, ny, k2, Overlay(b, paint)) <==> SaveSurvives(ox, oy, nx, ny, paint, k, b)
      ensures OneSprite(nx, ny, s2, Overlay(b, paint)) <==> PictureSurvives(ox, oy, nx, ny, paint, k, b)
    {
      hide Cover, Painted, Rewrites, Repaints, OneSprite, TornSave, TornPixel, Drawn, Overlay;
      forall py: nat, px: nat | py < height && px < width
        ensures Overlay(b, paint)(py, px) == Drawn(paint, py, px, b(py, px))
        ensures s2(py, px) == TornPixel(ox, oy, nx, ny, paint, k, b, py, px)
        ensures InRect(nx, ny, spriteW, spriteH, px, py) ==> k2(py - ny, px - nx) == TornSave(ox, oy, nx, ny, paint, k, py, px)
      {
        TornAt(ox, oy, nx, ny, paint, s, k, s1, k1, s2, k2, b, py, px);
      }
      assert TrueSave(nx, ny, k2, Overlay(b, paint)) <==> SaveSurvives(ox, oy, nx, ny, paint, k, b) by {
        if SaveSurvives(ox, oy, nx, ny, paint, k, b) {
          forall r: nat, c: nat | r < spriteH && c < spriteW && ny + r < height && nx + c < width ensures k2(r, c) == Overlay(b, paint)(ny + r, nx + c) {
            assert k2(ny + r - ny, nx + c - nx) == TornSave(ox, oy, nx, ny, paint, k, ny + r, nx + c);
          }
        }
        if TrueSave(nx, ny, k2, Overlay(b, paint)) {
          forall py: nat, px: nat | py < height && px < width && InRect(nx, ny, spriteW, spriteH, px, py)
            ensures TornSave(ox, oy, nx, ny, paint, k, py, px) == Drawn(paint, py, px, b(py, px))
          {
            assert k2(py - ny, px - nx) == Overlay(b, paint)(ny + (py - ny), nx + (px - nx));
          }
        }
      }
      OneSpriteIff(ox, oy, nx, ny, paint, k, s2, b);
    }

    lemma OneSpriteIff(ox: nat, oy: nat, nx: nat, ny: nat, paint: Paint, k: Picture, s2: Picture, b: Picture)
      requires Shape() && Fits(paint)
      requires forall py: nat, px: nat :: py < height && px < width ==>
        s2(py, px) == TornPixel(ox, oy, nx, ny, paint, k, b, py, px) && Overlay(b, paint)(py, px) == Drawn(paint, py, px, b(py, px))
      ensures OneSprite(nx, ny, s2, Overlay(b, paint)) <==> PictureSurvives(ox, oy, nx, ny, paint, k, b)
    {
      hide Cover, Painted, TornPixel, Drawn, Overlay;
    }

    /** One pixel of it. */
    lemma TornAt(ox: nat, oy: nat, nx: nat, ny: nat, paint: Paint, s: Picture, k: Picture, s1: Picture, k1: Picture, s2: Picture, k2: Picture, b: Picture, py: nat, px: nat)
      requires Shape() && Fits(paint) && OneSprite(ox, oy, s, b) && py < height && px < width
      requires Rewrites(nx, ny, paint, s, k, s1, k1) && Repaints(ox, oy, nx, ny, s1, k1, s2, k2)
      ensures Overlay(b, paint)(py, px) == Drawn(paint, py, px, b(py, px))
      ensures s2(py, px) == TornPixel(ox, oy, nx, ny, paint, k, b, py, px)
      ensures InRect(nx, ny, spriteW, spriteH, px, py) ==> k2(py - ny, px - nx) == TornSave(ox, oy, nx, ny, paint, k, py, px)
    {
      hide Cover, Painted;
      var n := Cover(scale, nx, ny, px, py);
      PaintedNone(b(py, px));
      if InRect(ox, oy, spriteW, spriteH, px, py) {
        assert k1(py - oy, px - ox) == Drawn(paint, ny + (py - oy), nx + (px - ox), k(py - oy, px - ox));
        PaintedNone(k1(py - oy, px - ox));
      }
      if InRect(nx, ny, spriteW, spriteH, px, py) { Restamp(n, n, Drawn(paint, py, px, k(py - ny, px - nx))); }
      PaintedNone(s1(py, px));
      PaintedNone(Drawn(paint, py, px, s(py, px)));
    }

    /** A move with a console write in its gap. */
    method TornMove(nx: nat, ny: nat, paint: Paint)
      requires Valid() && visible && Fits(paint)
      modifies this`x, this`y, this`visible, this`dirty, this`bg, screen, save, prev
      ensures Shape() && Damaged() && visible && x == nx && y == ny && bg == Overlay(old(bg), paint)
      ensures SaveHolds() <==> SaveSurvives(old(x), old(y), nx, ny, paint, old(Kept()), old(bg))
      ensures GhostFree() <==> PictureSurvives(old(x), old(y), nx, ny, paint, old(Kept()), old(bg))
    {
      hide Overlay, SaveSurvives, PictureSurvives, Rewrites, Repaints, OneSprite, TrueSave, GhostFree, SaveHolds, Damaged, Marked, Grows, Shows, Kept, Snapshot;
      var ox, oy := x, y;
      ghost var b, s, k := bg, Snapshot(), Kept();
      ShowsNow(s);
      SeenAs(s);
      ghost var box := dirty;
      x, y := nx, ny;
      ghost var s1 := Rewrite(paint, s);
      ghost var k1, box1 := Kept(), dirty;
      bg := Overlay(bg, paint);
      ghost var s2 := Repaint(ox, oy, s1);
      TornTrue(ox, oy, nx, ny, paint, s, k, s1, k1, s2, Kept(), b);
      MarkedTrans(shown, s, s1, box, box1);
      MarkedTrans(shown, s1, s2, box1, dirty);
      SeenAs(s2);
    }

    /** When the tip of the pointer lands clear of the old sprite, its outline must be the background already, or it is saved as such. */
    lemma TipTears(ox: nat, oy: nat, nx: nat, ny: nat, paint: Paint, k: Picture, b: Picture)
      requires Shape() && Fits(paint) && nx < width && ny < height && !InRect(ox, oy, spriteW, spriteH, nx, ny)
      requires Ink(format, CURSOR_OUTLINE, Drawn(paint, ny, nx, k(0, 0))) != Drawn(paint, ny, nx, b(ny, nx))
      ensures !SaveSurvives(ox, oy, nx, ny, paint, k, b)
    {
      hide Cover, Drawn, Ink;
      BlockCell(scale, nx, ny, 0, 0, nx, ny);
      assert InRect(nx, ny, spriteW, spriteH, nx, ny);
      assert TornSave(ox, oy, nx, ny, paint, k, ny, nx) == Ink(format, CURSOR_OUTLINE, Drawn(paint, ny, nx, k(ny - ny, nx - nx)));
    }

    /** With nothing in the gap a move leaves one sprite and a true save buffer. */
    method MoveSprite(nx: nat, ny: nat)
      requires Valid() && visible
      modifies this`x, this`y, this`dirty, screen, save, prev
      ensures Valid() && x == nx && y == ny
    {
      hide GhostFree, SaveHolds, Repaints, OneSprite, TrueSave, Damaged, Marked, Grows, Shows, Kept, Snapshot;
      var ox, oy := x, y;
      ghost var s, k, box := Snapshot(), Kept(), dirty;
      ShowsNow(s);
      SeenAs(s);
      x, y := nx, ny;
      ghost var s' := Repaint(ox, oy, s);
      RepaintTrue(ox, oy, nx, ny, s, k, s', Kept(), bg);
      MarkedTrans(shown, s, s', box, dirty);
      SeenAs(s');
    }

    /** The invariants, told from the pictures on the screen and in the save buffer. */
    lemma SeenAs(s: Picture)
      requires Shape() && visible && Shows(s)
      ensures GhostFree() <==> OneSprite(x, y, s, bg)
      ensures SaveHolds() <==> TrueSave(x, y, Kept(), bg)
      ensures Damaged() <==> Marked(s, shown, dirty)
    {
      hide Cover, Painted, InBox, Kept;
    }

    /** Take the damage box and push exactly that rectangle: nothing stale is left. */
    method Present()
      requires Valid()
      modifies this
      ensures Valid() && dirty == None && bg == old(bg) && visible == old(visible)
      ensures forall py, px :: 0 <= py < height && 0 <= px < width ==> shown(py, px) == screen[py, px]
    {
      hide Cover, Ink;
      var box := dirty;
      dirty := None;
      ghost var now := Snapshot();
      ghost var was := shown;
      shown := (py, px) => if 0 <= py && 0 <= px && InBox(box, px, py) then now(py, px) else was(py, px);
    }

    ghost function Snapshot(): (p: Picture)
      requires Shape()
      reads this, screen
      ensures forall py, px :: 0 <= py < height && 0 <= px < width ==> p(py, px) == screen[py, px]
    {
      var rows := seq(height, r requires 0 <= r < height reads this, screen => seq(width, c requires 0 <= c < width reads this, screen => screen[r, c]));
      (py, px) => if 0 <= py < |rows| && 0 <= px < |rows[py]| then rows[py][px] else Pixel(0, 0, 0, 0)
    }
  }

  ghost function Overlay(p: Picture, paint: Paint): Picture {
    (py, px) => if 0 <= py < |paint| && 0 <= px < |paint[py]| && paint[py][px].Some? then paint[py][px].value else p(py, px)
  }

  /** A black screen, a pointer thrown into the corner, and an empty console write in the gap: the save buffer is no longer true. */
  method TornOnce() returns (d: Display)
    ensures fresh(d) && d.Shape() && d.visible && d.x == d.y == 0 && !d.SaveHolds() && !d.Valid()
  {
    hide Cover;
    var screen := new Pixel[64, 64]((r, c) => Pixel(0, 0, 0, 0));
    d := new Display(screen, 1, Rgb, (py, px) => Pixel(0, 0, 0, 0));
    var paint: Paint := seq(64, r => seq(64, c => None));
    ghost var k, b := d.Kept(), d.bg;
    assert d.x == d.y == 32 && d.height == d.width == 64;
    assert k(0, 0) == b(32 + 0, 32 + 0) == Pixel(0, 0, 0, 0) == b(0, 0);
    d.TipTears(32, 32, 0, 0, paint, k, b);
    d.MoveCursor(-96, -96, Some(paint));
  }

  lemma BlockCell(cs: nat, cx: nat, cy: nat, row: nat, col: nat, px: nat, py: nat)
    requires 1 <= cs <= CURSOR_SCALE_MAX && row < CURSOR_H && col < CURSOR_W
    requires InRect(cx + col * cs, cy + row * cs, cs, cs, px, py)
    ensures Cover(cs, cx, cy, px, py) == Cell(row, col)
  {
    hide Cell, Cover;
    DivBlock(cs, row, py - cy);
    DivBlock(cs, col, px - cx);
    CoverAt(cs, cx, cy, row, col, px, py);
  }

  lemma CoverAt(cs: nat, cx: nat, cy: nat, row: nat, col: nat, px: nat, py: nat)
    requires 1 <= cs <= CURSOR_SCALE_MAX && row < CURSOR_H && col < CURSOR_W && cx <= px && cy <= py
    requires (py - cy) / cs == row && (px - cx) / cs == col
    ensures Cover(cs, cx, cy, px, py) == Cell(row, col)
  {
    hide Cell;
  }

  lemma DivBlock(cs: nat, k: nat, d: nat)
    requires 1 <= cs <= CURSOR_SCALE_MAX && k * cs <= d < k * cs + cs
    ensures d / cs == k
  {
    assert cs == 1 || cs == 2;
  }
}
