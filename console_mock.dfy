/**
 * The scenarios of tests/unit/test_console.c, run against the console model: the mock
 * console there is a copy of the kernel's init, set-colour and clear functions.
 */
module ConsoleMock {
  import Console

  /** A 1920x1080 console with a 4-byte-per-pixel pitch. */
  method InitScenario() returns (con: Console.Console)
    ensures con.framebuffer != null
    ensures con.width == 1920 && con.height == 1080 && con.pitch == 1920 * 4
    ensures con.x == 0 && con.y == 0
    ensures con.fgColor == 0xFFFF_FFFF && con.bgColor == 0
  {
    var fb := new bv32[800 * 600];
    con := new Console.Console();
    con.Init(fb, 1920, 1080, 1920 * 4);
  }

  method SetColorScenario() returns (con: Console.Console)
    ensures con.fgColor == 0xFF00_00FF && con.bgColor == 0x00FF_00FF
  {
    var fb := new bv32[800 * 600];
    con := new Console.Console();
    con.Init(fb, 1920, 1080, 1920 * 4);
    con.SetColor(0xFF00_00FF, 0x00FF_00FF);
  }

  /** Clearing an 800x600 screen from cursor (100, 200): the cursor goes home and
      pixels 0, 1 and 10 take the background colour. */
  method ClearScenario() returns (x: nat, y: nat, p0: bv32, p1: bv32, p10: bv32)
    ensures x == 0 && y == 0
    ensures p0 == 0x0011_2233 && p1 == 0x0011_2233 && p10 == 0x0011_2233
  {
    var fb := new bv32[800 * 600];
    var con := new Console.Console();
    con.Init(fb, 800, 600, 800 * 4);
    con.SetColor(0xFFFF_FFFF, 0x0011_2233);
    con.x, con.y := 100, 200;
    ghost var before := fb[..];
    con.Clear();
    Console.PaintedPixel(before, 800, 0, 0, 800, 600, Console.Solid(0x0011_2233), 0, 0);
    Console.PaintedPixel(before, 800, 0, 0, 800, 600, Console.Solid(0x0011_2233), 1, 0);
    Console.PaintedPixel(before, 800, 0, 0, 800, 600, Console.Solid(0x0011_2233), 10, 0);
    return con.x, con.y, fb[0], fb[1], fb[10];
  }

  /** Without a framebuffer, clearing changes nothing. */
  method NullFramebufferScenario() returns (con: Console.Console)
    ensures con.framebuffer == null && con.x == 0 && con.y == 0
    ensures con.width == 1920 && con.height == 1080
  {
    con := new Console.Console();
    con.Init(null, 1920, 1080, 1920 * 4);
    con.Clear();
  }

  /** Small dimensions are stored as given. */
  method SmallDimensionsScenario() returns (con: Console.Console)
    ensures con.width == 64 && con.height == 48 && con.pitch == 64 * 4
  {
    var fb := new bv32[800 * 600];
    con := new Console.Console();
    con.Init(fb, 64, 48, 64 * 4);
  }
}
