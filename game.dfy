/** The game state of Dapper Dasher as a value, and one iteration of the
    main loop without the drawing: background scroll, ground check and
    gravity, jump, obstacle drift, runner integration, animation, collision
    and the outcome. */
module Game {
  import opened Anim

  const WindowWidth: int := 512
  const WindowHeight: int := 358
  /** Acceleration due to gravity, pixels per second squared. */
  const Gravity: int := 1000
  const NebulaCount: int := 6
  /** Horizontal distance between consecutive nebulae at start. */
  const NebulaSpacing: int := 300
  /** Horizontal velocity of the nebulae, pixels per second. */
  const NebVel: int := -200
  /** Vertical velocity given by a jump, pixels per second. */
  const JumpVel: int := -600
  const RunnerMaxFrame: int := 5
  const NebulaMaxFrame: int := 7
  const RunnerHoldTime: real := 1.0 / 12.0
  /** Inward padding of a nebula's collision rectangle. */
  const Pad: real := 50.0
  /** Scroll speeds of the far, middle and near background layers. */
  const BackgroundSpeed: int := 20
  const MidgroundSpeed: int := 40
  const ForegroundSpeed: int := 80

  /** Pixel sizes of the five textures the game loads. */
  datatype Textures = Textures(
    nebulaWidth: int, nebulaHeight: int,
    scarfyWidth: int, scarfyHeight: int,
    backgroundWidth: int, midgroundWidth: int, foregroundWidth: int)
  {
    predicate Valid()
    {
      nebulaWidth > 0 && nebulaHeight > 0 && scarfyWidth > 0 && scarfyHeight > 0 &&
      backgroundWidth > 0 && midgroundWidth > 0 && foregroundWidth > 0
    }
  }

  /** The state the main loop carries from one frame to the next. */
  datatype World = World(
    scarfy: AnimData, scarfyVel: int, isInAir: bool,
    nebulae: seq<AnimData>, finishLine: real, collision: bool,
    bgX: real, mgX: real, fgX: real)

  datatype Outcome = Playing | Lost | Won

  /** Conversion of a float to `int`: truncation toward zero. */
  function TruncToInt(x: real): (n: int)
    ensures 0.0 <= x ==> 0 <= n && n as real <= x < n as real + 1.0
    ensures x < 0.0 ==> n <= 0 && n as real - 1.0 < x <= n as real
  {
    if x >= 0.0 then x.Floor else -((-x).Floor)
  }

  /** One background layer: move left by `speed * dt`; once the offset has
      moved a whole doubled texture width, restart at 0. */
  function Scroll(offset: real, speed: int, dt: real, textureWidth: int): (r: real)
    ensures r == 0.0 || r == offset - speed as real * dt
    ensures offset - speed as real * dt > -2.0 * textureWidth as real ==> r == offset - speed as real * dt
    ensures -2.0 * textureWidth as real < offset <= 0.0 && speed as real * dt >= 0.0 ==>
              -2.0 * textureWidth as real < r <= 0.0
  {
    var moved := offset - speed as real * dt;
    if moved <= -(textureWidth * 2) as real then 0.0 else moved
  }

  /** The rectangle a nebula collides with: its sprite cell shrunk by `Pad`
      on every side. */
  function NebulaHitbox(nebula: AnimData): (box: Rect)
    // the hitbox has the cell's centre and leaves a margin of `Pad` on every side
    ensures box.x + box.width / 2.0 == nebula.pos.x + nebula.rect.width / 2.0
    ensures box.y + box.height / 2.0 == nebula.pos.y + nebula.rect.height / 2.0
    ensures box.x - nebula.pos.x == Pad && (nebula.pos.x + nebula.rect.width) - (box.x + box.width) == Pad
    ensures box.y - nebula.pos.y == Pad && (nebula.pos.y + nebula.rect.height) - (box.y + box.height) == Pad
  {
    Rect(nebula.pos.x + Pad, nebula.pos.y + Pad, nebula.rect.width - 2.0 * Pad, nebula.rect.height - 2.0 * Pad)
  }

  /** The rectangle the runner collides with: its whole sprite cell. */
  function RunnerHitbox(runner: AnimData): (box: Rect)
    // the hitbox is the drawn cell: its bottom reaches the floor exactly when the runner is grounded
    ensures box.x == runner.pos.x && box.y == runner.pos.y
    ensures box.width == runner.rect.width && box.height == runner.rect.height
    ensures IsOnGround(runner, WindowHeight) <==> box.y + box.height >= WindowHeight as real
  {
    Rect(runner.pos.x, runner.pos.y, runner.rect.width, runner.rect.height)
  }

  /** Strict axis-aligned overlap of two rectangles, as raylib's
      `CheckCollisionRecs` computes it. */
  predicate Overlaps(a: Rect, b: Rect): (overlap: bool)
    // rectangles that only share an edge do not overlap
    ensures a.x + a.width == b.x || b.x + b.width == a.x || a.y + a.height == b.y || b.y + b.height == a.y ==> !overlap
    // the test does not depend on the order of its arguments
    ensures overlap <==> b.x < a.x + a.width && b.x + b.width > a.x && b.y < a.y + a.height && b.y + b.height > a.y
  {
    a.x < b.x + b.width && a.x + a.width > b.x &&
    a.y < b.y + b.height && a.y + a.height > b.y
  }

  predicate Hit(nebula: AnimData, runner: AnimData)
  {
    Overlaps(NebulaHitbox(nebula), RunnerHitbox(runner))
  }

  /** Some nebula of `nebulae` overlaps the runner, accumulated over the
      nebulae in order as the collision loop does. */
  predicate AnyHit(nebulae: seq<AnimData>, runner: AnimData): (hit: bool)
    ensures hit <==> exists j :: 0 <= j < |nebulae| && Hit(nebulae[j], runner)
    decreases |nebulae|
  {
    if nebulae == [] then false
    else AnyHit(nebulae[..|nebulae| - 1], runner) || Hit(nebulae[|nebulae| - 1], runner)
  }

  /** Every nebula moved horizontally by `dx`. */
  function DriftAll(nebulae: seq<AnimData>, dx: real): (r: seq<AnimData>)
    // the same nebulae, each moved by `dx`, with nothing but `pos.x` changed
    ensures |r| == |nebulae|
    ensures forall j :: 0 <= j < |r| ==>
              r[j].pos.x == nebulae[j].pos.x + dx && r[j] == nebulae[j].(pos := nebulae[j].pos.(x := r[j].pos.x))
  {
    seq(|nebulae|, j requires 0 <= j < |nebulae| => nebulae[j].(pos := nebulae[j].pos.(x := nebulae[j].pos.x + dx)))
  }

  /** Every nebula animated with the nebula frame count. */
  function AnimateAll(nebulae: seq<AnimData>, dt: real): (r: seq<AnimData>)
    // animation never moves a nebula or resizes its cell, and keeps its frame in range
    ensures |r| == |nebulae|
    ensures forall j :: 0 <= j < |r| ==>
              r[j].pos == nebulae[j].pos && r[j].rect.width == nebulae[j].rect.width &&
              r[j].rect.height == nebulae[j].rect.height &&
              (0 <= nebulae[j].frame <= NebulaMaxFrame ==> 0 <= r[j].frame <= NebulaMaxFrame)
  {
    seq(|nebulae|, j requires 0 <= j < |nebulae| => UpdateAnimData(nebulae[j], dt, NebulaMaxFrame))
  }

  /** The ground check followed by the jump check: the runner's new vertical
      velocity and airborne flag. */
  function Vertical(runner: AnimData, vel: int, dt: real, spacePressed: bool): (r: (int, bool))
    // the airborne flag is exactly "not on the ground"
    ensures r.1 <==> !IsOnGround(runner, WindowHeight)
    // on the ground the velocity is reset, and a press gives exactly the jump velocity
    ensures !r.1 ==> r.0 == if spacePressed then JumpVel else 0
    // in the air gravity is added (then truncated to an integer) and a press is ignored
    ensures r.1 ==> -1.0 < r.0 as real - (vel as real + Gravity as real * dt) < 1.0
    ensures r.1 && 0 <= vel && dt >= 0.0 ==> vel <= r.0
  {
    var (v, inAir) :=
      if IsOnGround(runner, WindowHeight) then (0, false)
      else (TruncToInt(vel as real + Gravity as real * dt), true);
    (if spacePressed && !inAir then v + JumpVel else v, inAir)
  }

  /** The runner's vertical position integrated with its new velocity; its
      animation advances only while it is not airborne. */
  function MoveRunner(runner: AnimData, vel: int, inAir: bool, dt: real): (r: AnimData)
    // the runner only ever moves vertically, by `vel * dt`, and keeps its cell size
    ensures r.pos.x == runner.pos.x && r.pos.y == runner.pos.y + vel as real * dt
    ensures r.rect.width == runner.rect.width && r.rect.height == runner.rect.height
    // in the air the animation is frozen
    ensures inAir ==> r.frame == runner.frame && r.rect == runner.rect && r.runningTime == runner.runningTime
    // on the ground the frame counter keeps in range
    ensures 0 <= runner.frame <= RunnerMaxFrame ==> 0 <= r.frame <= RunnerMaxFrame
  {
    var moved := runner.(pos := runner.pos.(y := runner.pos.y + vel as real * dt));
    if !inAir then UpdateAnimData(moved, dt, RunnerMaxFrame) else moved
  }

  /** The outcome of a frame, in the order the loop tests it: a collision
      loses even past the finish line; otherwise reaching it wins. */
  function OutcomeOf(w: World): (o: Outcome)
    ensures o == Lost <==> w.collision
    ensures o == Won <==> !w.collision && w.scarfy.pos.x >= w.finishLine
    ensures o == Playing <==> !w.collision && w.scarfy.pos.x < w.finishLine
  {
    if w.collision then Lost
    else if w.scarfy.pos.x >= w.finishLine then Won
    else Playing
  }

  /** One iteration of the main loop, without the drawing. */
  function Next(w: World, tex: Textures, dt: real, spacePressed: bool): (n: World)
    // the array keeps its size, the runner its column, and the finish line drifts with the nebulae
    ensures |n.nebulae| == |w.nebulae| && n.scarfy.pos.x == w.scarfy.pos.x
    ensures n.finishLine == w.finishLine + NebVel as real * dt
    // the collision flag is never cleared
    ensures w.collision ==> n.collision
  {
    var bgX := Scroll(w.bgX, BackgroundSpeed, dt, tex.backgroundWidth);
    var mgX := Scroll(w.mgX, MidgroundSpeed, dt, tex.midgroundWidth);
    var fgX := Scroll(w.fgX, ForegroundSpeed, dt, tex.foregroundWidth);
    var (vel, inAir) := Vertical(w.scarfy, w.scarfyVel, dt, spacePressed);
    var drifted := DriftAll(w.nebulae, NebVel as real * dt);
    var finishLine := w.finishLine + NebVel as real * dt;
    var scarfy := MoveRunner(w.scarfy, vel, inAir, dt);
    var nebulae := AnimateAll(drifted, dt);
    var collision := w.collision || AnyHit(nebulae, scarfy);
    World(scarfy, vel, inAir, nebulae, finishLine, collision, bgX, mgX, fgX)
  }

  /** `Next` phase by phase: a state built from the results of each phase in
      the loop's order is the next state. */
  lemma NextByPhases(w: World, tex: Textures, dt: real, spacePressed: bool, n: World)
    requires n.bgX == Scroll(w.bgX, BackgroundSpeed, dt, tex.backgroundWidth)
    requires n.mgX == Scroll(w.mgX, MidgroundSpeed, dt, tex.midgroundWidth)
    requires n.fgX == Scroll(w.fgX, ForegroundSpeed, dt, tex.foregroundWidth)
    requires (n.scarfyVel, n.isInAir) == Vertical(w.scarfy, w.scarfyVel, dt, spacePressed)
    requires n.finishLine == w.finishLine + NebVel as real * dt
    requires n.nebulae == AnimateAll(DriftAll(w.nebulae, NebVel as real * dt), dt)
    requires n.scarfy == MoveRunner(w.scarfy, n.scarfyVel, n.isInAir, dt)
    requires n.collision == (w.collision || AnyHit(n.nebulae, n.scarfy))
    ensures n == Next(w, tex, dt, spacePressed)
  {
  }

  /** The nebula at index `i` when the game starts: cell 1/8 of the sheet
      (integer division), spaced `NebulaSpacing` apart from the right edge
      of the window, standing on the floor, advancing on every frame. */
  function InitialNebula(tex: Textures, i: int): (r: AnimData)
    // exactly on the floor, `NebulaSpacing * i` right of the window's edge
    ensures r.pos.y + r.rect.height == WindowHeight as real
    ensures r.pos.x == WindowWidth as real + (NebulaSpacing * i) as real
    // at the first frame, and due on every non-negative delta
    ensures r.frame == 0 && r.runningTime == 0.0
    ensures forall dt :: dt >= 0.0 ==> IsDue(r, dt)
  {
    AnimData(
      Rect(0.0, 0.0, (tex.nebulaWidth / 8) as real, (tex.nebulaHeight / 8) as real),
      Vec2((WindowWidth + NebulaSpacing * i) as real, (WindowHeight - tex.nebulaHeight / 8) as real),
      0, 0.0, 0.0)
  }

  /** Where the runner stands: horizontally centred, on the floor. */
  function RunnerX(tex: Textures): (x: real)
    // the runner's cell is centred on the middle column of the window
    ensures x + (tex.scarfyWidth as real / 6.0) / 2.0 == (WindowWidth / 2) as real
  {
    (WindowWidth / 2) as real - (tex.scarfyWidth as real / 6.0) / 2.0
  }

  /** The runner when the game starts: cell 1/6 of the sheet, frame 0. */
  function InitialRunner(tex: Textures): (r: AnimData)
    // one sixth of the sheet wide, exactly on the floor, at the first frame
    ensures r.rect.width * 6.0 == tex.scarfyWidth as real
    ensures r.pos.y + r.rect.height == WindowHeight as real && r.pos.x == RunnerX(tex)
    ensures r.frame == 0 && r.runningTime == 0.0 && r.updateTime == RunnerHoldTime
  {
    AnimData(
      Rect(0.0, 0.0, tex.scarfyWidth as real / 6.0, tex.scarfyHeight as real / 1.0),
      Vec2(RunnerX(tex), WindowHeight as real - tex.scarfyHeight as real / 1.0),
      0, RunnerHoldTime, 0.0)
  }

  /** The state before the first frame; the finish line starts at the last
      nebula. */
  function InitialWorld(tex: Textures): (w: World)
    // six nebulae, the finish line on the last one, no collision, the runner at rest
    ensures |w.nebulae| == NebulaCount && w.finishLine == w.nebulae[NebulaCount - 1].pos.x
    ensures w.finishLine == (WindowWidth + NebulaSpacing * (NebulaCount - 1)) as real
    ensures !w.collision && !w.isInAir && w.scarfyVel == 0
    ensures w.bgX == 0.0 && w.mgX == 0.0 && w.fgX == 0.0
  {
    var nebulae := seq(NebulaCount, i requires 0 <= i < NebulaCount => InitialNebula(tex, i));
    World(InitialRunner(tex), 0, false, nebulae, nebulae[NebulaCount - 1].pos.x, false, 0.0, 0.0, 0.0)
  }

  /** A nebula's animation state as it stays throughout the game: hold time
      0, accumulator 0, frame in range. */
  predicate NebulaInv(nebula: AnimData)
  {
    0 <= nebula.frame <= NebulaMaxFrame && nebula.updateTime == 0.0 && nebula.runningTime == 0.0
  }

  predicate NebulaeInv(nebulae: seq<AnimData>)
  {
    forall j :: 0 <= j < |nebulae| ==> NebulaInv(nebulae[j])
  }

  /** What holds of the state at the top of every iteration. */
  predicate Inv(w: World, tex: Textures)
  {
    && |w.nebulae| == NebulaCount
    && w.finishLine == w.nebulae[NebulaCount - 1].pos.x
    && NebulaeInv(w.nebulae)
    && 0 <= w.scarfy.frame <= RunnerMaxFrame
    && w.scarfy.updateTime == RunnerHoldTime
    && 0.0 <= w.scarfy.runningTime < RunnerHoldTime
    && w.scarfy.pos.x == RunnerX(tex)
    && (!w.isInAir ==> w.scarfyVel == 0 || w.scarfyVel == JumpVel)
    && -2.0 * tex.backgroundWidth as real < w.bgX <= 0.0
    && -2.0 * tex.midgroundWidth as real < w.mgX <= 0.0
    && -2.0 * tex.foregroundWidth as real < w.fgX <= 0.0
  }

  /** The game starts in a state satisfying the invariant, with no
      collision, the finish line at the last nebula, and the runner and every
      nebula standing exactly on the floor, which counts as grounded. */
  lemma InitialInv(tex: Textures)
    requires tex.Valid()
    ensures var w := InitialWorld(tex);
            Inv(w, tex) && !w.collision && OutcomeOf(w) == Playing &&
            w.finishLine == (WindowWidth + NebulaSpacing * (NebulaCount - 1)) as real &&
            w.scarfy.pos.y + w.scarfy.rect.height == WindowHeight as real &&
            IsOnGround(w.scarfy, WindowHeight) &&
            forall j :: 0 <= j < NebulaCount ==>
              w.nebulae[j].pos.y + w.nebulae[j].rect.height == WindowHeight as real &&
              IsOnGround(w.nebulae[j], WindowHeight)
  {
    var w := InitialWorld(tex);
    assert RunnerX(tex) < 256.0;
    forall j | 0 <= j < NebulaCount
      ensures w.nebulae[j].pos.y + w.nebulae[j].rect.height == WindowHeight as real
      ensures IsOnGround(w.nebulae[j], WindowHeight) && NebulaInv(w.nebulae[j])
    {
      assert w.nebulae[j] == InitialNebula(tex, j);
    }
  }

  /** One frame keeps the invariant. */
  lemma NextKeepsInv(w: World, tex: Textures, dt: real, spacePressed: bool)
    requires tex.Valid() && Inv(w, tex) && dt >= 0.0
    ensures Inv(Next(w, tex, dt, spacePressed), tex)
  {
    var n := Next(w, tex, dt, spacePressed);
    var drifted := DriftAll(w.nebulae, NebVel as real * dt);
    forall j | 0 <= j < NebulaCount
      ensures NebulaInv(n.nebulae[j])
    {
      assert NebulaInv(drifted[j]);
      assert n.nebulae[j] == UpdateAnimData(drifted[j], dt, NebulaMaxFrame);
    }
    assert n.nebulae[NebulaCount - 1].pos.x == drifted[NebulaCount - 1].pos.x;
  }

  /** Collision and outcome of one frame: the flag is never cleared, it is
      set exactly when some nebula overlaps the runner after this frame's
      movement, a loss is never undone, and a win needs no collision. */
  lemma NextCollision(w: World, tex: Textures, dt: real, spacePressed: bool)
    ensures var n := Next(w, tex, dt, spacePressed);
            n.collision == (w.collision || AnyHit(n.nebulae, n.scarfy)) &&
            (OutcomeOf(w) == Lost ==> OutcomeOf(n) == Lost) &&
            (OutcomeOf(n) == Won ==> !w.collision && !AnyHit(n.nebulae, n.scarfy))
  {
  }

  /** The runner in one frame: on the ground it lands (velocity 0, or the
      jump velocity on a press) and animates; in the air it falls under
      gravity, ignores the key and keeps its frame and cell. Its horizontal
      position never changes. */
  lemma NextRunner(w: World, tex: Textures, dt: real, spacePressed: bool)
    ensures var n := Next(w, tex, dt, spacePressed);
            && n.scarfy.pos.x == w.scarfy.pos.x
            && n.scarfy.pos.y == w.scarfy.pos.y + n.scarfyVel as real * dt
            && (IsOnGround(w.scarfy, WindowHeight) ==>
                  !n.isInAir && n.scarfyVel == (if spacePressed then JumpVel else 0) &&
                  n.scarfy == UpdateAnimData(w.scarfy.(pos := w.scarfy.pos.(y := w.scarfy.pos.y + n.scarfyVel as real * dt)),
                                             dt, RunnerMaxFrame))
            && (!IsOnGround(w.scarfy, WindowHeight) ==>
                  n.isInAir && n.scarfyVel == TruncToInt(w.scarfyVel as real + Gravity as real * dt) &&
                  n.scarfy.frame == w.scarfy.frame && n.scarfy.rect == w.scarfy.rect)
  {
    var n := Next(w, tex, dt, spacePressed);
    var vi := Vertical(w.scarfy, w.scarfyVel, dt, spacePressed);
    assert n.scarfyVel == vi.0 && n.isInAir == vi.1;
    assert n.scarfy == MoveRunner(w.scarfy, vi.0, vi.1, dt);
    if IsOnGround(w.scarfy, WindowHeight) {
      assert !vi.1 && vi.0 == if spacePressed then JumpVel else 0;
    } else {
      assert vi.1 && vi.0 == TruncToInt(w.scarfyVel as real + Gravity as real * dt);
    }
  }

  /** A press while standing exactly on the floor at rest: the velocity
      becomes the jump velocity at once, the flag still says grounded, the
      runner rises by `-JumpVel * dt`, and the next frame finds it airborne. */
  lemma JumpFromRest(w: World, tex: Textures, dt: real, dt2: real, spacePressed2: bool)
    requires w.scarfy.pos.y == WindowHeight as real - w.scarfy.rect.height && w.scarfyVel == 0
    requires dt > 0.0
    ensures var n := Next(w, tex, dt, true);
            n.scarfyVel == JumpVel && !n.isInAir &&
            n.scarfy.pos.y == w.scarfy.pos.y + JumpVel as real * dt &&
            Next(n, tex, dt2, spacePressed2).isInAir
  {
    var n := Next(w, tex, dt, true);
    assert IsOnGround(w.scarfy, WindowHeight);
    assert n.scarfy.rect.height == w.scarfy.rect.height;
    assert !IsOnGround(n.scarfy, WindowHeight);
  }

  /** Every nebula and the finish line move left by the same amount, and
      each nebula advances exactly one frame. */
  lemma NextNebulae(w: World, tex: Textures, dt: real, spacePressed: bool)
    requires NebulaeInv(w.nebulae) && dt >= 0.0
    ensures var n := Next(w, tex, dt, spacePressed);
            |n.nebulae| == |w.nebulae| && NebulaeInv(n.nebulae) &&
            n.finishLine == w.finishLine + NebVel as real * dt &&
            forall j :: 0 <= j < |w.nebulae| ==>
              n.nebulae[j].pos.x == w.nebulae[j].pos.x + NebVel as real * dt &&
              n.nebulae[j].frame == (w.nebulae[j].frame + 1) % (NebulaMaxFrame + 1)
  {
    StepNebulae(w.nebulae, dt);
  }

  /** The nebula array in one frame, on its own: drift then animation keep
      every nebula's invariant, and step every frame counter by one modulo 8. */
  lemma StepNebulae(nebulae: seq<AnimData>, dt: real)
    requires NebulaeInv(nebulae) && dt >= 0.0
    ensures var next := AnimateAll(DriftAll(nebulae, NebVel as real * dt), dt);
            |next| == |nebulae| && NebulaeInv(next) &&
            forall j :: 0 <= j < |nebulae| ==>
              next[j].pos.x == nebulae[j].pos.x + NebVel as real * dt &&
              next[j].frame == (nebulae[j].frame + 1) % (NebulaMaxFrame + 1)
  {
    var drifted := DriftAll(nebulae, NebVel as real * dt);
    var next := AnimateAll(drifted, dt);
    forall j | 0 <= j < |nebulae|
      ensures next[j].pos.x == nebulae[j].pos.x + NebVel as real * dt
      ensures next[j].frame == (nebulae[j].frame + 1) % (NebulaMaxFrame + 1)
      ensures NebulaInv(next[j])
    {
      assert NebulaInv(nebulae[j]);
      assert IsDue(drifted[j], dt);
      UpdateFrameMod(drifted[j], dt, NebulaMaxFrame);
    }
  }


  /** The inputs of one frame: its duration and whether the jump key was
      pressed during it. */
  datatype Input = Input(dt: real, spacePressed: bool)

  predicate ValidInputs(inputs: seq<Input>)
  {
    forall k :: 0 <= k < |inputs| ==> inputs[k].dt >= 0.0
  }

  /** The state after running the loop body once per input. */
  function RunWorld(w: World, tex: Textures, inputs: seq<Input>): (r: World)
    // over any number of frames the array keeps its size, the runner its
    // column, and a collision is never forgotten
    ensures |r.nebulae| == |w.nebulae| && r.scarfy.pos.x == w.scarfy.pos.x
    ensures w.collision ==> r.collision
    decreases |inputs|
  {
    if inputs == [] then w
    else RunWorld(Next(w, tex, inputs[0].dt, inputs[0].spacePressed), tex, inputs[1..])
  }

  /** Total elapsed time of the inputs. */
  function TotalTime(inputs: seq<Input>): real
    decreases |inputs|
  {
    if inputs == [] then 0.0 else inputs[0].dt + TotalTime(inputs[1..])
  }

  lemma ValidInputsTail(inputs: seq<Input>)
    requires inputs != [] && ValidInputs(inputs)
    ensures inputs[0].dt >= 0.0 && ValidInputs(inputs[1..])
  {
    forall k | 0 <= k < |inputs[1..]| ensures inputs[1..][k].dt >= 0.0 {
      assert inputs[1..][k] == inputs[k + 1];
    }
  }

  /** The invariant holds after any number of frames. */
  lemma {:induction false} RunKeepsInv(w: World, tex: Textures, inputs: seq<Input>)
    requires tex.Valid() && Inv(w, tex) && ValidInputs(inputs)
    ensures Inv(RunWorld(w, tex, inputs), tex)
    decreases |inputs|
  {
    if inputs != [] {
      ValidInputsTail(inputs);
      NextKeepsInv(w, tex, inputs[0].dt, inputs[0].spacePressed);
      RunKeepsInv(Next(w, tex, inputs[0].dt, inputs[0].spacePressed), tex, inputs[1..]);
    }
  }

  /** Once set, the collision flag stays set over any later frames, so a lost
      game stays lost. */
  lemma {:induction false} CollisionSticky(w: World, tex: Textures, inputs: seq<Input>)
    requires w.collision
    ensures RunWorld(w, tex, inputs).collision && OutcomeOf(RunWorld(w, tex, inputs)) == Lost
    decreases |inputs|
  {
    if inputs != [] {
      CollisionSticky(Next(w, tex, inputs[0].dt, inputs[0].spacePressed), tex, inputs[1..]);
    }
  }

  /** Over any frames, every nebula and the finish line have moved by
      `NebVel` times the elapsed time, and the runner has not moved
      horizontally. */
  lemma {:induction false} RunDrift(w: World, tex: Textures, inputs: seq<Input>)
    requires Inv(w, tex) && ValidInputs(inputs) && tex.Valid()
    ensures var r := RunWorld(w, tex, inputs);
            |r.nebulae| == |w.nebulae| &&
            r.finishLine == w.finishLine + NebVel as real * TotalTime(inputs) &&
            r.scarfy.pos.x == w.scarfy.pos.x &&
            forall j :: 0 <= j < |w.nebulae| ==>
              r.nebulae[j].pos.x == w.nebulae[j].pos.x + NebVel as real * TotalTime(inputs)
    decreases |inputs|
  {
    if inputs != [] {
      var input := inputs[0];
      var n := Next(w, tex, input.dt, input.spacePressed);
      ValidInputsTail(inputs);
      NextKeepsInv(w, tex, input.dt, input.spacePressed);
      NextNebulae(w, tex, input.dt, input.spacePressed);
      NextRunner(w, tex, input.dt, input.spacePressed);
      RunDrift(n, tex, inputs[1..]);
    }
  }

  /** One more frame on top of `k`: counters that stepped once to `(f + 1) % 8`
      and then by `k` have stepped by `total == k + 1` in all. */
  lemma {:induction false} NebulaFramesStep(start: seq<AnimData>, next: seq<AnimData>, last: seq<AnimData>, k: nat, total: nat)
    requires NebulaeInv(start) && |next| == |start| && |last| == |start| && total == k + 1
    requires forall j :: 0 <= j < |start| ==> next[j].frame == (start[j].frame + 1) % (NebulaMaxFrame + 1)
    requires forall j :: 0 <= j < |start| ==> last[j].frame == (next[j].frame + k) % (NebulaMaxFrame + 1)
    ensures forall j :: 0 <= j < |start| ==> last[j].frame == (start[j].frame + total) % (NebulaMaxFrame + 1)
  {
    forall j | 0 <= j < |start|
      ensures last[j].frame == (start[j].frame + total) % (NebulaMaxFrame + 1)
    {
      assert NebulaInv(start[j]);
      ModStep(start[j].frame + 1, k, NebulaMaxFrame + 1);
    }
  }

  /** The nebula array after drifting and animating once per input. */
  function NebulaeAfter(nebulae: seq<AnimData>, inputs: seq<Input>): seq<AnimData>
    decreases |inputs|
  {
    if inputs == [] then nebulae
    else NebulaeAfter(AnimateAll(DriftAll(nebulae, NebVel as real * inputs[0].dt), inputs[0].dt), inputs[1..])
  }

  /** The nebulae of a run depend on nothing but the nebulae and the inputs. */
  lemma {:induction false} RunWorldNebulae(w: World, tex: Textures, inputs: seq<Input>)
    ensures RunWorld(w, tex, inputs).nebulae == NebulaeAfter(w.nebulae, inputs)
    decreases |inputs|
  {
    if inputs != [] {
      RunWorldNebulae(Next(w, tex, inputs[0].dt, inputs[0].spacePressed), tex, inputs[1..]);
    }
  }

  /** Over any inputs, each nebula's frame has advanced once per input. */
  lemma {:induction false} NebulaeAfterFrames(nebulae: seq<AnimData>, inputs: seq<Input>)
    requires NebulaeInv(nebulae) && ValidInputs(inputs)
    ensures var r := NebulaeAfter(nebulae, inputs);
            |r| == |nebulae| &&
            forall j :: 0 <= j < |nebulae| ==> r[j].frame == (nebulae[j].frame + |inputs|) % (NebulaMaxFrame + 1)
    decreases |inputs|
  {
    if inputs != [] {
      ValidInputsTail(inputs);
      var next := AnimateAll(DriftAll(nebulae, NebVel as real * inputs[0].dt), inputs[0].dt);
      var rest := NebulaeAfter(next, inputs[1..]);
      assert rest == NebulaeAfter(nebulae, inputs);
      StepNebulae(nebulae, inputs[0].dt);
      NebulaeAfterFrames(next, inputs[1..]);
      NebulaFramesStep(nebulae, next, rest, |inputs[1..]|, |inputs|);
    }
  }

  /** Over any frames, each nebula's frame has advanced once per frame. */
  lemma RunNebulaFrames(w: World, tex: Textures, inputs: seq<Input>)
    requires NebulaeInv(w.nebulae) && ValidInputs(inputs)
    ensures var r := RunWorld(w, tex, inputs);
            |r.nebulae| == |w.nebulae| &&
            forall j :: 0 <= j < |w.nebulae| ==>
              r.nebulae[j].frame == (w.nebulae[j].frame + |inputs|) % (NebulaMaxFrame + 1)
  {
    RunWorldNebulae(w, tex, inputs);
    NebulaeAfterFrames(w.nebulae, inputs);
  }

  /** From the start, the game is won after some frames exactly when no
      collision has happened and the finish line, which started at the last
      nebula, has drifted to the runner's fixed horizontal position. */
  lemma WonIffFinishReached(tex: Textures, inputs: seq<Input>)
    requires tex.Valid() && ValidInputs(inputs)
    ensures var r := RunWorld(InitialWorld(tex), tex, inputs);
            OutcomeOf(r) == Won <==>
              !r.collision &&
              (WindowWidth + NebulaSpacing * (NebulaCount - 1)) as real + NebVel as real * TotalTime(inputs) <= RunnerX(tex)
  {
    InitialInv(tex);
    RunDrift(InitialWorld(tex), tex, inputs);
  }

  /** The nebula at index `j` of the example in `WonCanTurnLost`: spaced
      `NebulaSpacing` apart as at the start, the last one at x = 192. */
  function ExampleNebula(j: int): AnimData
  {
    AnimData(Rect(0.0, 0.0, 200.0, 200.0), Vec2((192 - NebulaSpacing * (NebulaCount - 1 - j)) as real, 158.0), 0, 0.0, 0.0)
  }

  /** A win is not final: the outcome is recomputed every frame, so a runner
      that has reached the finish line while falling onto the last nebula
      loses on the next frame. The nebulae keep the spacing they start with. */
  lemma WonCanTurnLost()
    ensures var tex := Textures(1600, 1600, 768, 128, 1, 1, 1);
            var runner := AnimData(Rect(0.0, 0.0, 128.0, 128.0), Vec2(192.0, 0.0), 0, RunnerHoldTime, 0.0);
            var w := World(runner, 1000, true, seq(NebulaCount, ExampleNebula), 192.0, false, 0.0, 0.0, 0.0);
            var n := Next(w, tex, 0.1, false);
            tex.Valid() && Inv(w, tex) && OutcomeOf(w) == Won && OutcomeOf(n) == Lost &&
            forall j :: 0 <= j < NebulaCount - 1 ==> w.nebulae[j + 1].pos.x - w.nebulae[j].pos.x == NebulaSpacing as real
  {
    var tex := Textures(1600, 1600, 768, 128, 1, 1, 1);
    var runner := AnimData(Rect(0.0, 0.0, 128.0, 128.0), Vec2(192.0, 0.0), 0, RunnerHoldTime, 0.0);
    var w := World(runner, 1000, true, seq(NebulaCount, ExampleNebula), 192.0, false, 0.0, 0.0, 0.0);
    var n := Next(w, tex, 0.1, false);
    assert TruncToInt(1100.0) == 1100;
    assert n.nebulae[NebulaCount - 1].pos.x == 172.0;
    assert Hit(n.nebulae[NebulaCount - 1], n.scarfy);
  }
}
