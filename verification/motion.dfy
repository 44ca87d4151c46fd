/**
 * The car's horizontal motion and the scrolling camera of Vehicle/vehicle.py:
 * which arrow keys are held, how `animate` changes the velocity each frame, and
 * how the view follows the car's box.
 *
 * Velocities are in tenths of a pixel per frame, so DRAG 0.2, ACCL 0.5 and
 * SPEED_CAP 15 become 2, 5 and 150 and every step is exact.
 */
module Motion {
  const Drag: int := 2
  const Accel: int := 5
  const SpeedCap: int := 150

  const ScreenWidth: int := 800
  const ScreenHeight: int := 600
  const ViewportMargin: int := 40
  const RightMargin: int := 500

  /** The keys the window tells apart; every other key is ignored. */
  datatype Key = LeftArrow | RightArrow | OtherKey(symbol: int)

  /** Which arrow keys are held down (`LEFT_DOWN`, `RIGHT_DOWN`). */
  datatype Held = Held(left: bool, right: bool)

  /** `on_key_press`: an arrow key becomes held; any other key changes nothing. */
  function Press(h: Held, k: Key): (r: Held)
    ensures r.left <==> h.left || k.LeftArrow?
    ensures r.right <==> h.right || k.RightArrow?
  {
    match k
    case LeftArrow => h.(left := true)
    case RightArrow => h.(right := true)
    case OtherKey(_) => h
  }

  /** `on_key_release`: an arrow key stops being held; any other key changes nothing. */
  function Release(h: Held, k: Key): (r: Held)
    ensures r.left <==> h.left && !k.LeftArrow?
    ensures r.right <==> h.right && !k.RightArrow?
  {
    match k
    case LeftArrow => h.(left := false)
    case RightArrow => h.(right := false)
    case OtherKey(_) => h
  }

  /** Pressing a key and releasing it leaves the flags as releasing alone would. */
  lemma PressThenRelease(h: Held, k: Key)
    ensures Release(Press(h, k), k) == Release(h, k)
    ensures Press(Release(h, k), k) == Press(h, k)
  {
  }

  /** A key repeated (auto-repeat) has no further effect. */
  lemma PressIdempotent(h: Held, k: Key)
    ensures Press(Press(h, k), k) == Press(h, k)
    ensures Release(Release(h, k), k) == Release(h, k)
  {
  }

  /**
   * Drag pulls a moving car towards rest by DRAG, overshooting to the other side
   * only when it was slower than DRAG; a car at rest stays at rest.
   */
  function ApplyDrag(vx: int): (r: int)
    ensures vx == 0 ==> r == 0
    ensures vx > 0 ==> r == vx - Drag && -Drag < r
    ensures vx < 0 ==> r == vx + Drag && r < Drag
  {
    if vx > 0 then vx - Drag
    else if vx < 0 then vx + Drag
    else vx
  }

  /**
   * Acceleration: the left arrow, when the speed leftward is below the cap, pushes
   * left by ACCL; otherwise the right arrow, when the speed rightward is below the
   * cap, pushes right by ACCL. The cap is checked before the push is added.
   */
  function Accelerate(vx: int, h: Held): (r: int)
    ensures r == vx || r == vx - Accel || r == vx + Accel
    ensures r < vx <==> h.left && vx > -SpeedCap
    ensures r > vx <==> !(h.left && vx > -SpeedCap) && h.right && vx < SpeedCap
  {
    if h.left && vx > -SpeedCap then vx - Accel
    else if h.right && vx < SpeedCap then vx + Accel
    else vx
  }

  /** One frame of `animate`'s velocity update: drag first, then acceleration. */
  function VelocityStep(vx: int, h: Held): (r: int)
    ensures -(Drag + Accel) <= r - vx <= Drag + Accel
  {
    Accelerate(ApplyDrag(vx), h)
  }

  /** With both arrows held, the left one wins whenever it can still accelerate. */
  lemma LeftWins(vx: int)
    requires ApplyDrag(vx) > -SpeedCap
    ensures VelocityStep(vx, Held(true, true)) == ApplyDrag(vx) - Accel
  {
  }

  /**
   * The speed cap is soft: a speed below SPEED_CAP + ACCL stays below it, but the
   * last push may carry the speed past SPEED_CAP.
   */
  lemma VelocityBounded(vx: int, h: Held)
    requires -(SpeedCap + Accel) < vx < SpeedCap + Accel
    ensures -(SpeedCap + Accel) < VelocityStep(vx, h) < SpeedCap + Accel
  {
  }

  /** The velocity after `n` frames with the same keys held. */
  function Hold(vx: int, n: nat, h: Held): int {
    if n == 0 then vx else VelocityStep(Hold(vx, n - 1, h), h)
  }

  /** Holding the left arrow from rest loses 0.3 pixels per frame after the first 0.5. */
  lemma {:induction false} HoldLeftFromRest(n: nat)
    requires 1 <= n <= 50
    ensures Hold(0, n, Held(true, false)) == -3 * n - 2
  {
    if n > 1 {
      HoldLeftFromRest(n - 1);
    }
  }

  /**
   * Holding the left arrow from rest passes SPEED_CAP at frame 50 and reaches
   * 15.4 pixels per frame at frame 54.
   */
  lemma SoftCapExceeded()
    ensures Hold(0, 50, Held(true, false)) == -152
    ensures Hold(0, 54, Held(true, false)) == -(SpeedCap + Accel - 1)
  {
    var left := Held(true, false);
    HoldLeftFromRest(50);
    assert Hold(0, 51, left) == -150;
    assert Hold(0, 52, left) == -153;
    assert Hold(0, 53, left) == -151;
  }

  /** Without keys, an odd velocity never comes to rest: drag keeps flipping its sign. */
  lemma {:induction false} DragNeverStopsOdd(vx: int, n: nat)
    requires vx % 2 == 1
    ensures Hold(vx, n, Held(false, false)) % 2 == 1
  {
    if n > 0 {
      DragNeverStopsOdd(vx, n - 1);
    }
  }

  /** Without keys, an even velocity of 2k tenths comes to rest after k frames. */
  lemma {:induction false} DragStopsEven(k: nat, negative: bool)
    ensures Hold(if negative then -2 * k else 2 * k, k, Held(false, false)) == 0
  {
    if k > 0 {
      var vx := if negative then -2 * k else 2 * k;
      var nxt := if negative then -2 * (k - 1) else 2 * (k - 1);
      HoldShift(vx, k - 1, Held(false, false));
      assert VelocityStep(vx, Held(false, false)) == nxt;
      DragStopsEven(k - 1, negative);
    }
  }

  /** Holding for `n + 1` frames is one frame, then `n` frames. */
  lemma {:induction false} HoldShift(vx: int, n: nat, h: Held)
    ensures Hold(vx, n + 1, h) == Hold(VelocityStep(vx, h), n, h)
  {
    if n > 0 {
      HoldShift(vx, n - 1, h);
    }
  }

  /** The car sprite's edges in pixels, after the physics engine has moved it. */
  datatype Box = Box(left: int, right: int, bottom: int, top: int)

  /** How far the view has scrolled (`view_left`, `view_bottom`). */
  datatype View = View(left: int, bottom: int)

  /** The view after the scroll checks, and whether any of them fired. */
  datatype Scrolled = Scrolled(view: View, changed: bool)

  /** The rectangle passed to `set_viewport`: left, right, bottom, top. */
  datatype Rect = Rect(left: int, right: int, bottom: int, top: int)

  /**
   * The dead zone: the car's box lies between the left margin and the right
   * boundary horizontally, and between the bottom and top margins vertically.
   */
  predicate InDeadZone(v: View, b: Box) {
    v.left + ViewportMargin <= b.left && b.right <= v.left + ScreenWidth - RightMargin &&
    v.bottom + ViewportMargin <= b.bottom && b.top <= v.bottom + ScreenHeight - ViewportMargin
  }

  /** Scroll left: when the car is left of the left boundary, the view moves left onto it. */
  function CheckLeft(s: Scrolled, b: Box): (r: Scrolled)
    ensures r.view.bottom == s.view.bottom && r.view.left <= s.view.left
    ensures r.view.left + ViewportMargin <= b.left
    ensures r.changed <==> s.changed || b.left < s.view.left + ViewportMargin
    ensures r.view.left < s.view.left ==> r.view.left + ViewportMargin == b.left
  {
    var boundary := s.view.left + ViewportMargin;
    if b.left < boundary then Scrolled(s.view.(left := s.view.left - (boundary - b.left)), true)
    else s
  }

  /** Scroll right: when the car is right of the right boundary, the view moves right onto it. */
  function CheckRight(s: Scrolled, b: Box): (r: Scrolled)
    ensures r.view.bottom == s.view.bottom && r.view.left >= s.view.left
    ensures b.right <= r.view.left + ScreenWidth - RightMargin
    ensures r.changed <==> s.changed || b.right > s.view.left + ScreenWidth - RightMargin
    ensures r.view.left > s.view.left ==> b.right == r.view.left + ScreenWidth - RightMargin
  {
    var boundary := s.view.left + ScreenWidth - RightMargin;
    if b.right > boundary then Scrolled(s.view.(left := s.view.left + (b.right - boundary)), true)
    else s
  }

  /** Scroll up: when the car is above the top boundary, the view moves up onto it. */
  function CheckUp(s: Scrolled, b: Box): (r: Scrolled)
    ensures r.view.left == s.view.left && r.view.bottom >= s.view.bottom
    ensures b.top <= r.view.bottom + ScreenHeight - ViewportMargin
    ensures r.changed <==> s.changed || b.top > s.view.bottom + ScreenHeight - ViewportMargin
    ensures r.view.bottom > s.view.bottom ==> b.top == r.view.bottom + ScreenHeight - ViewportMargin
  {
    var boundary := s.view.bottom + ScreenHeight - ViewportMargin;
    if b.top > boundary then Scrolled(s.view.(bottom := s.view.bottom + (b.top - boundary)), true)
    else s
  }

  /** Scroll down: when the car is below the bottom boundary, the view moves down onto it. */
  function CheckDown(s: Scrolled, b: Box): (r: Scrolled)
    ensures r.view.left == s.view.left && r.view.bottom <= s.view.bottom
    ensures r.view.bottom + ViewportMargin <= b.bottom
    ensures r.changed <==> s.changed || b.bottom < s.view.bottom + ViewportMargin
    ensures r.view.bottom < s.view.bottom ==> r.view.bottom + ViewportMargin == b.bottom
  {
    var boundary := s.view.bottom + ViewportMargin;
    if b.bottom < boundary then Scrolled(s.view.(bottom := s.view.bottom - (boundary - b.bottom)), true)
    else s
  }

  /**
   * The four scroll checks in `animate`'s order, each seeing the view the previous
   * one left. The view changes exactly when the car is outside the dead zone, and
   * each axis only follows the car's edges on that axis.
   */
  function Scroll(v: View, b: Box): (r: Scrolled)
    ensures r.changed <==> !InDeadZone(v, b)
    ensures !r.changed ==> r.view == v
    ensures r.view.left == CheckRight(CheckLeft(Scrolled(v, false), b), b).view.left
    ensures r.view.bottom == CheckDown(CheckUp(Scrolled(v, false), b), b).view.bottom
  {
    CheckDown(CheckUp(CheckRight(CheckLeft(Scrolled(v, false), b), b), b), b)
  }

  /**
   * A car no wider and no taller than the dead zone ends every frame inside the
   * new dead zone, so scrolling again for the same box changes nothing.
   */
  lemma ScrollSettles(v: View, b: Box)
    requires b.left <= b.right && b.right - b.left <= ScreenWidth - RightMargin - ViewportMargin
    requires b.bottom <= b.top && b.top - b.bottom <= ScreenHeight - 2 * ViewportMargin
    ensures InDeadZone(Scroll(v, b).view, b)
    ensures Scroll(Scroll(v, b).view, b) == Scrolled(Scroll(v, b).view, false)
  {
    var s1 := CheckLeft(Scrolled(v, false), b);
    var s2 := CheckRight(s1, b);
    var s3 := CheckUp(s2, b);
    var s4 := CheckDown(s3, b);
    assert s2.view.left + ViewportMargin <= b.left;
    assert s4.view.bottom + ScreenHeight - ViewportMargin >= b.top;
  }

  /**
   * A car wider than the dead zone is never settled: whatever the view, the right
   * check leaves the car's right edge on the right boundary, and scrolling again
   * from there still reports a change, since the left check then fires. From the
   * origin, a 300-pixel car sends the view left and then back to where it was.
   */
  lemma WideCarNeverSettles(v: View, b: Box)
    requires b.right - b.left > ScreenWidth - RightMargin - ViewportMargin
    ensures Scroll(v, b).changed && !InDeadZone(v, b)
    ensures Scroll(v, b).view.left == b.right - (ScreenWidth - RightMargin)
    ensures Scroll(Scroll(v, b).view, b).changed
    ensures Scroll(View(0, 0), Box(0, 300, 100, 150)) == Scrolled(View(0, 0), true)
  {
  }

  /** The viewport `set_viewport` receives: one screen, starting at the view. */
  function Viewport(v: View): (r: Rect)
    ensures r.right - r.left == ScreenWidth && r.top - r.bottom == ScreenHeight
    ensures r.left == v.left && r.bottom == v.bottom
  {
    Rect(v.left, ScreenWidth + v.left, v.bottom, ScreenHeight + v.bottom)
  }
}
