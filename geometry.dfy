/**
 * Integer geometry shared by every revision of the window manager: the `clamp`
 * helper, the cascade placement of new windows, and the absolute targets that a
 * drag or resize gesture computes from the point where the gesture started.
 * Viewport and element sizes are CSS pixels, passed in by the caller.
 */
module Geometry {

  datatype Pos = Pos(x: int, y: int)
  datatype Size = Size(w: int, h: int)

  function Max(a: int, b: int): int { if a < b then b else a }
  function Min(a: int, b: int): int { if a < b then a else b }

  /** `Math.max(lo, Math.min(hi, v))`: the lower bound wins when the bounds cross. */
  function Clamp(v: int, lo: int, hi: int): (r: int)
    ensures lo <= r
    ensures lo <= hi ==> r <= hi
    ensures lo <= v <= hi ==> r == v
    ensures v < lo || hi < lo ==> r == lo
    ensures lo <= hi < v ==> r == hi
  {
    Max(lo, Min(hi, v))
  }

  /** Clamp picks the point of [lo, hi] nearest to v. */
  lemma ClampNearest(v: int, lo: int, hi: int, u: int)
    requires lo <= u <= hi
    ensures var r := Clamp(v, lo, hi); (r - v) * (r - v) <= (u - v) * (u - v)
  {
    var r := Clamp(v, lo, hi);
    if v < lo {
      assert r == lo && v < r <= u;
      assert 0 < r - v <= u - v;
      MulMono(r - v, u - v);
    } else if hi < v {
      assert r == hi && u <= r < v;
      assert 0 < v - r <= v - u;
      MulMono(v - r, v - u);
    }
  }

  lemma MulMono(a: int, b: int)
    requires 0 <= a <= b
    ensures a * a <= b * b
  {
    assert a * a <= a * b;
    assert a * b <= b * b;
  }

  /** Clamping twice into the same interval changes nothing. */
  lemma ClampIdempotent(v: int, lo: int, hi: int)
    ensures Clamp(Clamp(v, lo, hi), lo, hi) == Clamp(v, lo, hi)
  {
  }

  // ---------------------------------------------------------------------------
  // Cascade placement (script_bundle_fixed.js applyCascadePosition)

  const CASCADE_STEP_DESKTOP := 26
  const CASCADE_STEP_MOBILE := 10
  const MAX_SHIFT_DESKTOP := 260
  const MAX_SHIFT_MOBILE := 28
  const PAD := 8
  const TASKBAR_PAD := 56
  const DESKTOP_BASE_LEFT := 80
  const DESKTOP_BASE_TOP := 60

  function Step(mobile: bool): int { if mobile then CASCADE_STEP_MOBILE else CASCADE_STEP_DESKTOP }
  function MaxShift(mobile: bool): int { if mobile then MAX_SHIFT_MOBILE else MAX_SHIFT_DESKTOP }

  /** The stagger of the n-th cascaded window (n counts from 1). */
  function CascadeShift(n: nat, mobile: bool): (s: int)
    requires n >= 1
    ensures 0 <= s < MaxShift(mobile)
  {
    ((n - 1) * Step(mobile)) % MaxShift(mobile)
  }

  /** On a desktop the stagger repeats after exactly ten opens. */
  lemma {:induction false} DesktopCascadePeriod(n: nat)
    requires n >= 1
    ensures CascadeShift(n + 10, false) == CascadeShift(n, false)
  {
    var a := (n - 1) * 26;
    assert (n + 10 - 1) * 26 == a + 260;
    assert (a + 260) % 260 == a % 260;
  }

  /** ...and the ten staggers of one round are pairwise different. */
  lemma {:induction false} DesktopCascadeDistinct(i: nat, j: nat)
    requires 1 <= i < j <= 10
    ensures CascadeShift(i, false) != CascadeShift(j, false)
  {
    assert (i - 1) * 26 < 260 && (j - 1) * 26 < 260;
    assert ((i - 1) * 26) % 260 == (i - 1) * 26;
    assert ((j - 1) * 26) % 260 == (j - 1) * 26;
  }

  /** On a touch screen the stagger repeats after fourteen opens. */
  lemma {:induction false} MobileCascadePeriod(n: nat)
    requires n >= 1
    ensures CascadeShift(n + 14, true) == CascadeShift(n, true)
  {
    var a := (n - 1) * 10;
    assert (n + 14 - 1) * 10 == a + 5 * 28;
    assert (a + 140) % 28 == a % 28;
  }


  /** Where a window starts before clamping: 80/60 plus the stagger on a desktop. On a
      touch screen the left edge is `round(innerWidth * 0.04 + shift)`, which is the
      rounded 4% base plus the stagger because the stagger is whole; the top edge
      `round(innerHeight * 0.08 + shift * 0.6)` is given by the caller as it is. */
  function CascadeStart(shift: int, mobile: bool, mobileStart: Pos): (r: Pos)
    ensures mobile ==> r == Pos(mobileStart.x + shift, mobileStart.y)
    ensures !mobile ==> r.x - DESKTOP_BASE_LEFT == r.y - DESKTOP_BASE_TOP == shift
  {
    if mobile then Pos(mobileStart.x + shift, mobileStart.y)
    else Pos(DESKTOP_BASE_LEFT + shift, DESKTOP_BASE_TOP + shift)
  }

  /** Two windows opened one after the other never share a stagger, on either form factor. */
  lemma {:induction false} ConsecutiveOpensStagger(n: nat, mobile: bool)
    requires n >= 1
    ensures CascadeShift(n + 1, mobile) != CascadeShift(n, mobile)
  {
    if mobile {
      var a := (n - 1) * 10;
      assert (n + 1 - 1) * 10 == a + 10;
      ModAdvances(a, 10, 28);
    } else {
      var a := (n - 1) * 26;
      assert (n + 1 - 1) * 26 == a + 26;
      ModAdvances(a, 26, 260);
    }
  }

  /** Adding less than a full period always moves a remainder. */
  lemma ModAdvances(a: int, s: int, m: int)
    requires 0 < s < m
    ensures (a + s) % m != a % m
  {
    var q, r := a / m, a % m;
    if r + s < m {
      assert a + s == q * m + (r + s);
      ModOf(a + s, q, r + s, m);
    } else {
      assert a + s == (q + 1) * m + (r + s - m);
      ModOf(a + s, q + 1, r + s - m, m);
    }
  }

  /** The remainder of q * m + r is r when 0 <= r < m. */
  lemma ModOf(x: int, q: int, r: int, m: int)
    requires 0 <= r < m && x == q * m + r
    ensures x % m == r
  {
    var q', r' := x / m, x % m;
    assert x == q' * m + r';
    if q' < q {
      MulGap(q', q, m);
    } else if q < q' {
      MulGap(q, q', m);
    }
  }

  /** Multiples of m that differ are at least m apart. */
  lemma MulGap(a: int, b: int, m: int)
    requires a < b && 0 < m
    ensures a * m + m <= b * m
  {
    var k := b - a;
    MulAtLeast(k, m);
    assert b * m == (a + k) * m;
  }

  lemma MulAtLeast(k: int, m: int)
    requires k >= 1 && m > 0
    ensures k * m >= m
  {
  }

  /** Keep a w x h window 8px inside the viewport and 56px above its bottom edge. */
  function ClampIntoViewport(p: Pos, size: Size, vw: int, vh: int): (r: Pos)
    ensures PAD <= r.x <= Max(PAD, vw - size.w - PAD)
    ensures PAD <= r.y <= Max(PAD, vh - size.h - TASKBAR_PAD)
    ensures PAD + size.w + PAD <= vw ==> r.x + size.w + PAD <= vw
    ensures PAD + size.h + TASKBAR_PAD <= vh ==> r.y + size.h + TASKBAR_PAD <= vh
    ensures PAD <= p.x && p.x + size.w + PAD <= vw ==> r.x == p.x
    ensures PAD <= p.y && p.y + size.h + TASKBAR_PAD <= vh ==> r.y == p.y
  {
    var maxLeft := Max(PAD, vw - size.w - PAD);
    var maxTop := Max(PAD, vh - size.h - TASKBAR_PAD);
    Pos(Clamp(p.x, PAD, maxLeft), Clamp(p.y, PAD, maxTop))
  }

  /** The complete placement of the n-th cascaded window. */
  function CascadePlacement(n: nat, mobile: bool, mobileStart: Pos, size: Size, vw: int, vh: int): (r: Pos)
    requires n >= 1
  {
    ClampIntoViewport(CascadeStart(CascadeShift(n, mobile), mobile, mobileStart), size, vw, vh)
  }

  /** On a roomy touch screen the n-th window lands 10px further right per open, wrapping
      after 28px, at the top edge the browser computed. */
  lemma {:induction false} MobilePlacementUnclamped(n: nat, base: Pos, size: Size, vw: int, vh: int)
    requires n >= 1
    requires PAD <= base.x && base.x + MAX_SHIFT_MOBILE + size.w + PAD <= vw
    requires PAD <= base.y && base.y + size.h + TASKBAR_PAD <= vh
    ensures CascadePlacement(n, true, base, size, vw, vh) == Pos(base.x + CascadeShift(n, true), base.y)
  {
    var s := CascadeShift(n, true);
    assert 0 <= s < MAX_SHIFT_MOBILE;
  }

  /** A desktop window opened on a roomy viewport lands exactly on its cascade slot. */
  lemma {:induction false} DesktopPlacementUnclamped(n: nat, size: Size, vw: int, vh: int, anyStart: Pos)
    requires n >= 1
    requires DESKTOP_BASE_LEFT + MAX_SHIFT_DESKTOP + size.w + PAD <= vw
    requires DESKTOP_BASE_TOP + MAX_SHIFT_DESKTOP + size.h + TASKBAR_PAD <= vh
    ensures CascadePlacement(n, false, anyStart, size, vw, vh)
         == Pos(DESKTOP_BASE_LEFT + CascadeShift(n, false), DESKTOP_BASE_TOP + CascadeShift(n, false))
  {
    var s := CascadeShift(n, false);
    assert 0 <= s < MAX_SHIFT_DESKTOP;
  }

  // ---------------------------------------------------------------------------
  // Pointer gestures. Each move computes an absolute geometry from the captured start.

  /** Drag target with the taskbar strip reserved at the bottom (script_bundle_fixed.js,
      script_fixed.js, test/script_music_v3.js). */
  function DragTarget(startLeft: int, startTop: int, dx: int, dy: int,
                      vw: int, vh: int, taskbarH: int, size: Size): (r: Pos)
    ensures 0 <= r.x <= Max(0, vw - size.w)
    ensures 0 <= r.y <= Max(0, vh - taskbarH - size.h)
    ensures size.w <= vw ==> r.x + size.w <= vw
    ensures size.h <= vh - taskbarH ==> r.y + size.h <= vh - taskbarH
    ensures 0 <= startLeft + dx && startLeft + dx + size.w <= vw ==> r.x == startLeft + dx
    ensures 0 <= startTop + dy && startTop + dy + size.h <= vh - taskbarH ==> r.y == startTop + dy
  {
    Pos(Clamp(startLeft + dx, 0, Max(0, vw - size.w)),
        Clamp(startTop + dy, 0, Max(0, vh - taskbarH - size.h)))
  }

  const MIN_WIDTH := 260
  const MIN_HEIGHT := 180

  /** Resize target: at least 260 x 180, and otherwise not past the right edge or the
      top of the taskbar, measured from the window's current top-left. */
  function ResizeTarget(startW: int, startH: int, dx: int, dy: int, at: Pos,
                        vw: int, vh: int, taskbarH: int): (r: Size)
    ensures MIN_WIDTH <= r.w <= Max(MIN_WIDTH, vw - at.x)
    ensures MIN_HEIGHT <= r.h <= Max(MIN_HEIGHT, vh - taskbarH - at.y)
    ensures MIN_WIDTH <= vw - at.x ==> at.x + r.w <= vw
    ensures MIN_HEIGHT <= vh - taskbarH - at.y ==> at.y + r.h <= vh - taskbarH
    ensures MIN_WIDTH <= startW + dx <= vw - at.x ==> r.w == startW + dx
    ensures MIN_HEIGHT <= startH + dy <= vh - taskbarH - at.y ==> r.h == startH + dy
  {
    Size(Clamp(startW + dx, MIN_WIDTH, Max(MIN_WIDTH, vw - at.x)),
         Clamp(startH + dy, MIN_HEIGHT, Max(MIN_HEIGHT, vh - taskbarH - at.y)))
  }

  /** Drag target of script.js: the whole viewport, no taskbar deduction. */
  function LegacyDragTarget(startLeft: int, startTop: int, dx: int, dy: int,
                            vw: int, vh: int, size: Size): (r: Pos)
    ensures 0 <= r.x <= Max(0, vw - size.w)
    ensures 0 <= r.y <= Max(0, vh - size.h)
    ensures size.w <= vw ==> r.x + size.w <= vw
    ensures size.h <= vh ==> r.y + size.h <= vh
  {
    Pos(Min(Max(0, vw - size.w), Max(0, startLeft + dx)),
        Min(Max(0, vh - size.h), Max(0, startTop + dy)))
  }

  /** script.js writes min(maxLeft, max(0, v)), which is the bundle's clamp with the
      taskbar height taken as zero. */
  lemma {:induction false} LegacyDragIsBundleDragWithoutTaskbar(startLeft: int, startTop: int,
      dx: int, dy: int, vw: int, vh: int, size: Size)
    ensures LegacyDragTarget(startLeft, startTop, dx, dy, vw, vh, size)
         == DragTarget(startLeft, startTop, dx, dy, vw, vh, 0, size)
  {
  }

  /** Drag target of script_music.js: only bounded below by 0. */
  function MusicDragTarget(startLeft: int, startTop: int, dx: int, dy: int): (r: Pos)
    ensures 0 <= r.x && 0 <= r.y
    ensures 0 <= startLeft + dx ==> r.x == startLeft + dx
    ensures 0 <= startTop + dy ==> r.y == startTop + dy
  {
    Pos(Max(0, startLeft + dx), Max(0, startTop + dy))
  }
}
