/** The rescalings from the port's 0..=65535 space, with the integer types they run in. */
module Rescale {
  import opened Common
  import opened Bytes

  const FULL: nat := 65535

  /** v * m / 65535, rounded down: the one rescale every pointing back end makes. */
  function Scaled(v: u16, m: nat): (r: nat)
    ensures 65535 * r <= v * m < 65535 * r + 65535
  {
    DivisionBounds(v, m);
    v * m / FULL
  }

  lemma DivisionBounds(v: nat, m: nat)
    ensures FULL * (v * m / FULL) <= v * m < FULL * (v * m / FULL) + FULL
  {
  }

  lemma Monotone(v: u16, w: u16, m: nat)
    requires v <= w
    ensures Scaled(v, m) <= Scaled(w, m)
  {
    assert v * m <= w * m;
    DivisionBounds(v, m);
    DivisionBounds(w, m);
  }

  lemma Ends(m: nat)
    ensures Scaled(0, m) == 0 && Scaled(65535, m) == m
  {
  }

  lemma StaysInRange(v: u16, m: nat)
    ensures 0 <= Scaled(v, m) <= m
  {
    Monotone(v, 65535, m);
    Ends(m);
  }

  lemma ProductsGrow(a: nat, b: nat, m: nat)
    requires a <= b
    ensures a * m <= b * m
  {
  }

  /** No value of the target range is out of reach as long as it is not wider than the source. */
  lemma EveryValueIsReached(m: nat, r: nat) returns (v: u16)
    requires r <= m <= FULL
    ensures Scaled(v, m) == r
  {
    if m == 0 {
      v := 0;
    } else {
      // The least v with v * m >= r * FULL overshoots by less than m, and m <= FULL.
      var least := (r * FULL + m - 1) / m;
      assert r * FULL <= least * m < r * FULL + m by {
        assert m * ((r * FULL + m - 1) / m) <= r * FULL + m - 1 < m * ((r * FULL + m - 1) / m) + m;
      }
      assert least <= FULL by {
        if least > FULL {
          ProductsGrow(FULL + 1, least, m);
          ProductsGrow(r, m, FULL);
          assert false;
        }
      }
      v := least;
      DivisionBounds(v, m);
    }
  }

  // ---------------------------------------------------------------------------
  // Pressure
  // ---------------------------------------------------------------------------

  const TABLET_PRESSURE_MAX: nat := 8191

  const PEN_PRESSURE_MAX: nat := 1024

  function TabletPressure(pressure: u16): nat {
    Scaled(pressure, TABLET_PRESSURE_MAX)
  }

  function PenPressure(pressure: u16): nat {
    Scaled(pressure, PEN_PRESSURE_MAX)
  }

  /** The products stay below the i32 and u32 the back ends multiply in. */
  lemma PressureProductsFit(pressure: u16)
    ensures pressure * TABLET_PRESSURE_MAX < 0x8000_0000
    ensures pressure * PEN_PRESSURE_MAX < 0x1_0000_0000
    ensures TabletPressure(pressure) <= TABLET_PRESSURE_MAX && PenPressure(pressure) <= PEN_PRESSURE_MAX
  {
    StaysInRange(pressure, TABLET_PRESSURE_MAX);
    StaysInRange(pressure, PEN_PRESSURE_MAX);
  }

  // ---------------------------------------------------------------------------
  // Pixels
  // ---------------------------------------------------------------------------

  type i32 = x: int | -0x8000_0000 <= x < 0x8000_0000

  type Extent = x: i32 | 1 <= x witness 1

  /** The virtual screen; its size is read clamped to at least one pixel. */
  datatype Screen = Screen(left: i32, top: i32, width: Extent, height: Extent)

  /** Where a coordinate pair lands, before the sum is taken in 32 bits. */
  datatype Pixel = Pixel(x: int, y: int)

  /** A coordinate pair on the virtual screen's pixels. */
  function PixelOf(s: Screen, x: u16, y: u16): Pixel {
    Pixel(s.left + Scaled(x, s.width - 1), s.top + Scaled(y, s.height - 1))
  }

  /** The products fit the i64 they are taken in, and the quotients the i32 they are cast to. */
  lemma PixelProductsFit(s: Screen, x: u16, y: u16)
    ensures 0 <= x * (s.width - 1) < 0x8000_0000_0000_0000 && 0 <= y * (s.height - 1) < 0x8000_0000_0000_0000
    ensures 0 <= Scaled(x, s.width - 1) < 0x8000_0000 && 0 <= Scaled(y, s.height - 1) < 0x8000_0000
  {
    ProductsGrow(x, FULL, s.width - 1);
    ProductsGrow(y, FULL, s.height - 1);
    StaysInRange(x, s.width - 1);
    StaysInRange(y, s.height - 1);
  }

  predicate FitsI32(p: Pixel) {
    -0x8000_0000 <= p.x < 0x8000_0000 && -0x8000_0000 <= p.y < 0x8000_0000
  }

  /** The 32-bit sums never overflow if and only if the screen's last column and row are 32-bit. */
  lemma PixelsFitExactly(s: Screen)
    ensures (forall x: u16, y: u16 :: FitsI32(PixelOf(s, x, y)))
            <==> s.left + s.width - 1 < 0x8000_0000 && s.top + s.height - 1 < 0x8000_0000
  {
    if s.left + s.width - 1 < 0x8000_0000 && s.top + s.height - 1 < 0x8000_0000 {
      forall x: u16, y: u16
        ensures FitsI32(PixelOf(s, x, y))
      {
        PixelsLieOnScreen(s, x, y);
      }
    } else {
      PixelsLieOnScreen(s, 65535, 65535);
      assert !FitsI32(PixelOf(s, 65535, 65535));
    }
  }

  /** Every pixel lies on the screen and the corners map to the corners. */
  lemma PixelsLieOnScreen(s: Screen, x: u16, y: u16)
    ensures var p := PixelOf(s, x, y);
            s.left <= p.x < s.left + s.width && s.top <= p.y < s.top + s.height
    ensures PixelOf(s, 0, 0) == Pixel(s.left, s.top)
    ensures PixelOf(s, 65535, 65535) == Pixel(s.left + s.width - 1, s.top + s.height - 1)
  {
    StaysInRange(x, s.width - 1);
    StaysInRange(y, s.height - 1);
    Ends(s.width - 1);
    Ends(s.height - 1);
  }

  /** Casting to a signed sixteen-bit word wraps. */
  function AsI16(v: nat): i16 {
    var low := v % 0x1_0000;
    if low < 0x8000 then low else low - 0x1_0000
  }

  /** A root window pixel: the product in u32, cast to i16 at the end. */
  function ToRoot(value: u16, extent: u16): i16 {
    if extent == 0 then 0 else AsI16(value * (extent - 1) % 0x1_0000_0000 / FULL)
  }

  /** The u32 product never wraps, and the cast takes 65536 from exactly the pixels beyond 32767. */
  lemma RootProductFits(value: u16, extent: u16)
    requires extent >= 1
    ensures value * (extent - 1) < 0x1_0000_0000
    ensures var pixel := Scaled(value, extent - 1); ToRoot(value, extent) == if pixel <= 32767 then pixel else pixel - 65536
  {
    StaysInRange(value, extent - 1);
    CastWraps(Scaled(value, extent - 1));
    hide AsI16;
    ProductsGrow(value, FULL, extent - 1);
    SmallRemainder(value * (extent - 1));
  }

  lemma CastWraps(v: u16)
    ensures AsI16(v) == if v <= 32767 then v else v - 65536
  {
  }

  lemma SmallRemainder(p: nat)
    requires p < 0x1_0000_0000
    ensures p % 0x1_0000_0000 == p
  {
  }

  /** The cast is harmless over the whole input range just when the root window is at most 32768 wide. */
  lemma RootPixelsExactlyUpTo(extent: u16)
    requires extent >= 1
    ensures (forall v: u16 :: ToRoot(v, extent) == Scaled(v, extent - 1)) <==> extent <= 0x8000
  {
    if extent <= 0x8000 {
      forall v: u16
        ensures ToRoot(v, extent) == Scaled(v, extent - 1)
      {
        RootProductFits(v, extent);
        StaysInRange(v, extent - 1);
      }
    } else {
      RootProductFits(65535, extent);
      Ends(extent - 1);
      assert ToRoot(65535, extent) != Scaled(65535, extent - 1);
    }
  }
}
