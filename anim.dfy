/** Sprite-sheet animation state shared by the runner ("Scarfy") and the
    nebula obstacles, the ground test, and the per-frame animation update.
    Floating-point fields are modelled as `real`. */
module Anim {

  /** A raylib `Rectangle`: top-left corner and size. */
  datatype Rect = Rect(x: real, y: real, width: real, height: real)

  /** A raylib `Vector2`. */
  datatype Vec2 = Vec2(x: real, y: real)

  /** The `AnimData` record: the sub-rectangle of the sprite sheet that is
      shown, the world position, the frame counter, the time a frame is held
      (`updateTime`) and the time accumulated since the last advance
      (`runningTime`). */
  datatype AnimData = AnimData(rect: Rect, pos: Vec2, frame: int, updateTime: real, runningTime: real)

  /** An entity is grounded when its top edge is at or below the window
      height minus its own height, i.e. its bottom edge touches the floor. */
  function IsOnGround(data: AnimData, windowHeight: int): (grounded: bool)
    ensures grounded <==> data.pos.y + data.rect.height >= windowHeight as real
  {
    data.pos.y >= windowHeight as real - data.rect.height
  }

  /** The boundary is inclusive: standing exactly on the floor is grounded,
      and any height above it, however small, is airborne. Lowering an
      entity never takes it off the ground. */
  lemma GroundBoundary(data: AnimData, windowHeight: int, rise: real, drop: real)
    requires data.pos.y == windowHeight as real - data.rect.height
    requires rise > 0.0 && drop >= 0.0
    ensures IsOnGround(data, windowHeight)
    ensures !IsOnGround(data.(pos := data.pos.(y := data.pos.y - rise)), windowHeight)
    ensures IsOnGround(data.(pos := data.pos.(y := data.pos.y + drop)), windowHeight)
  {
  }

  /** Whether adding `deltaTime` to the accumulator reaches the hold time,
      so that `UpdateAnimData` advances the frame. */
  predicate IsDue(data: AnimData, deltaTime: real)
  {
    data.runningTime + deltaTime >= data.updateTime
  }

  /** The frame shown before `frame` in the cycle `0..maxFrame`. */
  function PrevFrame(frame: int, maxFrame: int): int
  {
    if frame == 0 then maxFrame else frame - 1
  }

  /** `rect.x` selects the cell of the frame before the current one: the
      update copies the frame into `rect.x` before it increments it. */
  predicate ShowsPrevFrame(data: AnimData, maxFrame: int)
  {
    data.rect.x == PrevFrame(data.frame, maxFrame) as real * data.rect.width
  }

  /** One call of `updateAnimData`: accumulate the delta; once the hold time
      is reached, reset the accumulator, select the cell of the current
      frame and step the frame counter, wrapping past `maxFrame` to 0. */
  function UpdateAnimData(data: AnimData, deltaTime: real, maxFrame: int): (r: AnimData)
    // the geometry, the position and the hold time are never touched
    ensures r.pos == data.pos && r.updateTime == data.updateTime
    ensures r.rect.y == data.rect.y && r.rect.width == data.rect.width && r.rect.height == data.rect.height
    // not yet due: only the accumulator moves, by exactly the delta
    ensures !IsDue(data, deltaTime) ==>
              r.runningTime == data.runningTime + deltaTime && r.frame == data.frame && r.rect == data.rect
    // due: the accumulator restarts and the cell of the old frame is selected
    ensures IsDue(data, deltaTime) ==>
              r.runningTime == 0.0 && r.rect.x == data.frame as real * data.rect.width
    // the counter stays in 0..maxFrame; when due it steps by one, wrapping
    // to 0 exactly when the old frame was the last one
    ensures 0 <= data.frame <= maxFrame ==> 0 <= r.frame <= maxFrame
    ensures IsDue(data, deltaTime) ==>
              (data.frame + 1 > maxFrame ==> r.frame == 0) && (data.frame + 1 <= maxFrame ==> r.frame == data.frame + 1)
    // the selected cell is that of the frame before the new one
    ensures 0 <= data.frame <= maxFrame && IsDue(data, deltaTime) ==> ShowsPrevFrame(r, maxFrame)
  {
    var accumulated := data.(runningTime := data.runningTime + deltaTime);
    if accumulated.runningTime >= accumulated.updateTime then
      var selected := accumulated.(runningTime := 0.0, rect := accumulated.rect.(x := accumulated.frame as real * accumulated.rect.width));
      var stepped := selected.(frame := selected.frame + 1);
      if stepped.frame > maxFrame then stepped.(frame := 0) else stepped
    else
      accumulated
  }

  /** For a frame in range, one update steps the counter by one modulo
      `maxFrame + 1` when it is due, and by zero otherwise. */
  lemma UpdateFrameMod(data: AnimData, deltaTime: real, maxFrame: int)
    requires 0 <= data.frame <= maxFrame
    ensures UpdateAnimData(data, deltaTime, maxFrame).frame
            == (data.frame + if IsDue(data, deltaTime) then 1 else 0) % (maxFrame + 1)
  {
    var f := data.frame + if IsDue(data, deltaTime) then 1 else 0;
    if f <= maxFrame {
      ModUnique(f, maxFrame + 1, 0, f);
    } else {
      ModUnique(f, maxFrame + 1, 1, 0);
    }
  }

  /** Successive calls of `UpdateAnimData` with the deltas of `deltas`. */
  function Run(data: AnimData, deltas: seq<real>, maxFrame: int): AnimData
    decreases |deltas|
  {
    if deltas == [] then data
    else Run(UpdateAnimData(data, deltas[0], maxFrame), deltas[1..], maxFrame)
  }

  /** How many of the calls in `Run(data, deltas, maxFrame)` advance the frame. */
  function AdvanceCount(data: AnimData, deltas: seq<real>, maxFrame: int): nat
    decreases |deltas|
  {
    if deltas == [] then 0
    else (if IsDue(data, deltas[0]) then 1 else 0)
         + AdvanceCount(UpdateAnimData(data, deltas[0], maxFrame), deltas[1..], maxFrame)
  }

  /** Adding a multiple of the modulus does not change a remainder. */
  lemma {:induction false} ModShift(a: nat, n: nat)
    requires n > 0
    ensures (n + a) % n == a % n
  {
    var q, r := a / n, a % n;
    assert a == q * n + r;
    assert n + a == (q + 1) * n + r;
    ModUnique(n + a, n, q + 1, r);
  }

  /** A remainder is determined by any decomposition with a remainder in
      range. */
  lemma ModUnique(x: nat, n: nat, q: nat, r: nat)
    requires 0 <= r < n && x == q * n + r
    ensures x % n == r
  {
    var q', r' := x / n, x % n;
    assert x == q' * n + r';
    if q' < q {
      MulGap(q', q, n);
    } else if q' > q {
      MulGap(q, q', n);
    }
  }

  /** Distinct multiples of `n` lie at least `n` apart. */
  lemma {:induction false} MulGap(a: nat, b: nat, n: nat)
    requires a < b
    ensures a * n + n <= b * n
    decreases b - a
  {
    if a + 1 < b {
      MulGap(a, b - 1, n);
    }
    assert b * n == (b - 1) * n + n;
  }

  /** `(a % n + b) % n == (a + b) % n` in the one case the counter needs:
      `a` is at most `n`. */
  lemma {:induction false} ModStep(a: nat, b: nat, n: nat)
    requires 0 < n && a <= n
    ensures (a % n + b) % n == (a + b) % n
  {
    if a < n {
      ModUnique(a, n, 0, a);
    } else {
      ModUnique(a, n, 1, 0);
      ModShift(b, n);
    }
  }

  /** Over any sequence of deltas the frame counter stays in `0..maxFrame`,
      and it equals the starting frame plus the number of advances, modulo
      `maxFrame + 1`. */
  lemma {:induction false} RunFrame(data: AnimData, deltas: seq<real>, maxFrame: int)
    requires 0 <= data.frame <= maxFrame
    ensures 0 <= Run(data, deltas, maxFrame).frame <= maxFrame
    ensures Run(data, deltas, maxFrame).frame == (data.frame + AdvanceCount(data, deltas, maxFrame)) % (maxFrame + 1)
    decreases |deltas|
  {
    if deltas != [] {
      var next := UpdateAnimData(data, deltas[0], maxFrame);
      var step := if IsDue(data, deltas[0]) then 1 else 0;
      var rest := AdvanceCount(next, deltas[1..], maxFrame);
      RunFrame(next, deltas[1..], maxFrame);
      UpdateFrameMod(data, deltas[0], maxFrame);
      ModStep(data.frame + step, rest, maxFrame + 1);
      assert data.frame + step + rest == data.frame + AdvanceCount(data, deltas, maxFrame);
    }
  }

  /** A run never changes the position, the cell size, `rect.y` or the hold
      time. */
  lemma {:induction false} RunKeepsGeometry(data: AnimData, deltas: seq<real>, maxFrame: int)
    ensures var r := Run(data, deltas, maxFrame);
            r.pos == data.pos && r.updateTime == data.updateTime &&
            r.rect.y == data.rect.y && r.rect.width == data.rect.width && r.rect.height == data.rect.height
    decreases |deltas|
  {
    if deltas != [] {
      RunKeepsGeometry(UpdateAnimData(data, deltas[0], maxFrame), deltas[1..], maxFrame);
    }
  }

  /** Every delta in the sequence is non-negative, as a frame time is. */
  predicate NonNegative(deltas: seq<real>)
  {
    forall k :: 0 <= k < |deltas| ==> deltas[k] >= 0.0
  }

  /** An entity whose hold time is 0 (every nebula) advances on every call
      with a non-negative delta. */
  lemma {:induction false} ZeroHoldAlwaysAdvances(data: AnimData, deltas: seq<real>, maxFrame: int)
    requires data.updateTime == 0.0 && data.runningTime >= 0.0
    requires NonNegative(deltas)
    ensures AdvanceCount(data, deltas, maxFrame) == |deltas|
    decreases |deltas|
  {
    if deltas != [] {
      var next := UpdateAnimData(data, deltas[0], maxFrame);
      assert NonNegative(deltas[1..]) by {
        forall k | 0 <= k < |deltas[1..]| ensures deltas[1..][k] >= 0.0 {
          assert deltas[1..][k] == deltas[k + 1];
        }
      }
      ZeroHoldAlwaysAdvances(next, deltas[1..], maxFrame);
    }
  }

  /** Starting from frame 0 with hold time 0, k non-negative deltas leave the
      counter at `k % (maxFrame + 1)`. */
  lemma ZeroHoldFrameAfterRun(data: AnimData, deltas: seq<real>, maxFrame: int)
    requires data.updateTime == 0.0 && data.runningTime >= 0.0 && data.frame == 0 && maxFrame >= 0
    requires NonNegative(deltas)
    ensures Run(data, deltas, maxFrame).frame == |deltas| % (maxFrame + 1)
  {
    ZeroHoldAlwaysAdvances(data, deltas, maxFrame);
    RunFrame(data, deltas, maxFrame);
  }

  /** After an update with a non-negative delta from a state whose
      accumulator lies in `[0, updateTime)`, it still lies there; with hold
      time 0 it is 0. */
  lemma UpdateKeepsAccumulatorBelowHold(data: AnimData, deltaTime: real, maxFrame: int)
    requires deltaTime >= 0.0 && 0.0 <= data.runningTime
    ensures var r := UpdateAnimData(data, deltaTime, maxFrame);
            0.0 <= r.runningTime && (r.runningTime < r.updateTime || r.runningTime == 0.0)
  {
  }

  /** A delta of 0 leaves the frame and the rectangle alone only while the
      accumulator is below the hold time; an entity whose accumulator has
      already reached it advances even on a zero delta. */
  lemma ZeroDeltaAdvancesIffDue(data: AnimData, maxFrame: int)
    requires 0 <= data.frame <= maxFrame && 0 < maxFrame
    ensures UpdateAnimData(data, 0.0, maxFrame).frame == data.frame <==> data.runningTime < data.updateTime
    ensures data.runningTime < data.updateTime ==> UpdateAnimData(data, 0.0, maxFrame).rect == data.rect
  {
  }
}
