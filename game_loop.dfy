/** The main loop's state as the program keeps it: scalar locals updated in
    place and a fixed array of six nebulae, with `Step` doing one loop
    iteration minus the drawing. */
module GameLoop {
  import opened Anim
  import opened Game

  class GameState {
    const tex: Textures
    var scarfyData: AnimData
    var scarfyVel: int
    var isInAir: bool
    const nebulae: array<AnimData>
    var finishLine: real
    var collision: bool
    var bgX: real
    var mgX: real
    var fgX: real

    /** The state as a value. */
    ghost function Snapshot(): World
      reads this, nebulae
    {
      World(scarfyData, scarfyVel, isInAir, nebulae[..], finishLine, collision, bgX, mgX, fgX)
    }

    ghost predicate Valid()
      reads this, nebulae
    {
      tex.Valid() && nebulae.Length == NebulaCount && Inv(Snapshot(), tex)
    }

    /** The set-up before the loop, given the sizes of the loaded textures. */
    constructor (textures: Textures)
      requires textures.Valid()
      ensures Valid() && fresh(nebulae)
      ensures tex == textures && Snapshot() == InitialWorld(textures)
    {
      var a := new AnimData[NebulaCount];
      for i := 0 to NebulaCount
        invariant forall j :: 0 <= j < i ==> a[j] == InitialNebula(textures, j)
      {
        a[i] := InitialNebula(textures, i);
      }
      tex := textures;
      nebulae := a;
      finishLine := a[NebulaCount - 1].pos.x;
      scarfyData := InitialRunner(textures);
      isInAir := false;
      scarfyVel := 0;
      collision := false;
      bgX, mgX, fgX := 0.0, 0.0, 0.0;
      new;
      assert nebulae[..] == InitialWorld(textures).nebulae;
      InitialInv(textures);
    }

    /** One iteration of the main loop without the drawing; returns the
        outcome the drawing branches on. */
    method Step(dt: real, spacePressed: bool) returns (outcome: Outcome)
      requires Valid() && dt >= 0.0
      modifies this, nebulae
      ensures Valid()
      ensures Snapshot() == Next(old(Snapshot()), tex, dt, spacePressed)
      ensures outcome == OutcomeOf(Snapshot())
      // a collision is never forgotten, and it decides the outcome
      ensures old(collision) ==> collision && outcome == Lost
      ensures collision <==> old(collision) || AnyHit(nebulae[..], scarfyData)
      // the finish line stays at the last nebula, both moving by NebVel * dt
      ensures finishLine == nebulae[NebulaCount - 1].pos.x == old(finishLine) + NebVel as real * dt
      // the runner keeps its column and every frame counter stays in range
      ensures scarfyData.pos.x == old(scarfyData.pos.x) && 0 <= scarfyData.frame <= RunnerMaxFrame
      ensures forall j :: 0 <= j < NebulaCount ==> 0 <= nebulae[j].frame <= NebulaMaxFrame
    {
      ghost var w := Snapshot();
      Update(dt, spacePressed);
      outcome := if collision then Lost else if scarfyData.pos.x >= finishLine then Won else Playing;
      NextKeepsInv(w, tex, dt, spacePressed);
      NextNebulae(w, tex, dt, spacePressed);
      NextRunner(w, tex, dt, spacePressed);
    }

    /** The state changes of one iteration, in the loop's order. */
    method Update(dt: real, spacePressed: bool)
      requires nebulae.Length == NebulaCount && dt >= 0.0
      modifies this, nebulae
      ensures Snapshot() == Next(old(Snapshot()), tex, dt, spacePressed)
    {
      ghost var w := Snapshot();
      ScrollLayers(dt);
      GroundAndJump(dt, spacePressed);
      ghost var vel, inAir := scarfyVel, isInAir;
      assert (vel, inAir) == Vertical(w.scarfy, w.scarfyVel, dt, spacePressed);
      var dx := NebVel as real * dt;
      DriftNebulae(dx);
      ghost var drifted := nebulae[..];
      assert drifted == DriftAll(w.nebulae, dx);
      finishLine := finishLine + dx;
      IntegrateRunner(dt);
      ghost var runner := scarfyData;
      AnimateNebulae(dt);
      CheckCollisions();

      ghost var n := World(runner, vel, inAir, nebulae[..], finishLine, collision, bgX, mgX, fgX);
      assert n.nebulae == AnimateAll(drifted, dt);
      assert n.collision == (w.collision || AnyHit(n.nebulae, n.scarfy));
      NextByPhases(w, tex, dt, spacePressed, n);
    }

    /** Scroll the three background layers. */
    method ScrollLayers(dt: real)
      modifies this`bgX, this`mgX, this`fgX
      ensures bgX == Scroll(old(bgX), BackgroundSpeed, dt, tex.backgroundWidth)
      ensures mgX == Scroll(old(mgX), MidgroundSpeed, dt, tex.midgroundWidth)
      ensures fgX == Scroll(old(fgX), ForegroundSpeed, dt, tex.foregroundWidth)
    {
      bgX := bgX - BackgroundSpeed as real * dt;
      if bgX <= -(tex.backgroundWidth * 2) as real {
        bgX := 0.0;
      }
      mgX := mgX - MidgroundSpeed as real * dt;
      if mgX <= -(tex.midgroundWidth * 2) as real {
        mgX := 0.0;
      }
      fgX := fgX - ForegroundSpeed as real * dt;
      if fgX <= -(tex.foregroundWidth * 2) as real {
        fgX := 0.0;
      }
    }

    /** The ground check (reset or gravity) and the jump check. */
    method GroundAndJump(dt: real, spacePressed: bool)
      modifies this`scarfyVel, this`isInAir
      ensures (scarfyVel, isInAir) == Vertical(scarfyData, old(scarfyVel), dt, spacePressed)
    {
      if IsOnGround(scarfyData, WindowHeight) {
        scarfyVel := 0;
        isInAir := false;
      } else {
        scarfyVel := TruncToInt(scarfyVel as real + Gravity as real * dt);
        isInAir := true;
      }
      if spacePressed && !isInAir {
        scarfyVel := scarfyVel + JumpVel;
      }
    }

    /** Integrate the runner's vertical position; animate it only while it
        is not airborne. */
    method IntegrateRunner(dt: real)
      modifies this`scarfyData
      ensures scarfyData == MoveRunner(old(scarfyData), scarfyVel, isInAir, dt)
    {
      scarfyData := scarfyData.(pos := scarfyData.pos.(y := scarfyData.pos.y + scarfyVel as real * dt));
      if !isInAir {
        scarfyData := UpdateAnimData(scarfyData, dt, RunnerMaxFrame);
      }
    }

    /** Move every nebula horizontally by `dx`. */
    method DriftNebulae(dx: real)
      modifies nebulae
      ensures nebulae[..] == DriftAll(old(nebulae[..]), dx)
    {
      for i := 0 to nebulae.Length
        invariant forall j :: 0 <= j < i ==> nebulae[j] == old(nebulae[j]).(pos := old(nebulae[j]).pos.(x := old(nebulae[j]).pos.x + dx))
        invariant forall j :: i <= j < nebulae.Length ==> nebulae[j] == old(nebulae[j])
      {
        nebulae[i] := nebulae[i].(pos := nebulae[i].pos.(x := nebulae[i].pos.x + dx));
      }
    }

    /** Advance the animation of every nebula. */
    method AnimateNebulae(dt: real)
      modifies nebulae
      ensures nebulae[..] == AnimateAll(old(nebulae[..]), dt)
    {
      for i := 0 to nebulae.Length
        invariant forall j :: 0 <= j < i ==> nebulae[j] == UpdateAnimData(old(nebulae[j]), dt, NebulaMaxFrame)
        invariant forall j :: i <= j < nebulae.Length ==> nebulae[j] == old(nebulae[j])
      {
        nebulae[i] := UpdateAnimData(nebulae[i], dt, NebulaMaxFrame);
      }
    }

    /** Set the collision flag if any nebula overlaps the runner; never
        clear it. */
    method CheckCollisions()
      modifies this`collision
      ensures collision <==> old(collision) || AnyHit(nebulae[..], scarfyData)
    {
      for i := 0 to nebulae.Length
        invariant collision <==> old(collision) || exists j :: 0 <= j < i && Hit(nebulae[j], scarfyData)
      {
        if Hit(nebulae[i], scarfyData) {
          collision := true;
        }
      }
    }
  }
}
