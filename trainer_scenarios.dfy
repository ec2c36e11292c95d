/** Two complete headless lives of a fresh agent at (50, 300), worked out
    frame by frame while the first obstacle is still far to the right.
    Whatever the random gap centres are, a genome that never jumps hits the
    ground and a genome that always jumps hits the ceiling, both on frame 22. */
module TrainerScenarios {
  import opened Geometry
  import opened Course
  import opened TrainerSpec

  /** The frame on which both agents die. */
  const DeathFrame: nat := 22

  /** Triangular numbers: the distance fallen from rest after n frames of gravity 1. */
  function Tri(n: nat): nat {
    if n == 0 then 0 else Tri(n - 1) + n
  }

  lemma {:induction false} TriMonotone(m: nat, n: nat)
    requires m <= n
    ensures Tri(m) <= Tri(n)
    decreases n
  {
    if m < n {
      TriMonotone(m, n - 1);
    }
  }

  lemma {:induction false} TriClosedForm(n: nat)
    ensures 2 * Tri(n) == n * (n + 1)
  {
    if n > 0 {
      TriClosedForm(n - 1);
    }
  }

  /** The first obstacle after n frames at the base speed. */
  function EarlyObstacle(gap: int, n: nat): ObstacleState
    requires GapInRange(gap)
  {
    Scroll(NewObstacle(gap), SpeedBase * n as real)
  }

  /** A fresh agent in the start column. */
  predicate InStartColumn(a: AgentState) {
    a.rect.x == AgentStartX as real && a.rect.width == AgentSize
  }

  /** Before frame 22 the first obstacle is still far to the right: sweeping
      it only scrolls it, and kills the agent exactly when it is out of bounds. */
  lemma SweepFarObstacle(a: AgentState, gap: int, n: nat)
    requires GapInRange(gap) && n < DeathFrame && InStartColumn(a)
    ensures Sweep(a, [], [EarlyObstacle(gap, n)], SpeedBase)
            == (a.(alive := a.alive && !OutOfBounds(a)), [EarlyObstacle(gap, n + 1)])
  {
    var o := EarlyObstacle(gap, n);
    ScrollRepeated(NewObstacle(gap), SpeedBase * n as real, SpeedBase);
    assert Scroll(o, SpeedBase) == EarlyObstacle(gap, n + 1);
    var v := Visit(a, o, SpeedBase);
    assert v.1 == EarlyObstacle(gap, n + 1);
    assert v == (a.(alive := a.alive && !OutOfBounds(a)), EarlyObstacle(gap, n + 1));
    assert v.1.top.Right() >= 0.0;
    assert [o][1..] == [];
    assert [] + [v.1] == [v.1];
    assert Sweep(a, [], [o], SpeedBase) == Sweep(v.0, [v.1], [], SpeedBase);
  }

  // ---------------------------------------------- the genome that never jumps

  const Silent: Genome := [0.0, 0.0, 0.0]

  /** The life of the silent genome after n frames. */
  function Falling(gap: int, n: nat): Sim
    requires GapInRange(gap)
  {
    Sim(AgentState(Box(AgentStartX as real, AgentStartY as real + Tri(n) as real, AgentSize, AgentSize),
                   n, n < DeathFrame, n, 0, Silent),
        [EarlyObstacle(gap, n)], n)
  }

  /** The silent genome's physics step on frame n + 1: it falls by n + 1 and
      is out of bounds exactly from frame 22 on. */
  lemma FallingStep(gap: int, n: nat)
    requires GapInRange(gap) && n < DeathFrame
    ensures var a1 := Fall(Decide(Falling(gap, n).agent, Falling(gap, n).obstacles));
      && a1 == Falling(gap, n + 1).agent.(alive := true)
      && OutOfBounds(a1) == (n + 1 >= DeathFrame)
      && a1.(alive := a1.alive && !OutOfBounds(a1)) == Falling(gap, n + 1).agent
  {
    var s := Falling(gap, n);
    assert Decide(s.agent, s.obstacles) == s.agent;
    var a1 := Fall(s.agent);
    assert a1.rect.y == AgentStartY as real + Tri(n + 1) as real;
    if n + 1 < DeathFrame {
      TriMonotone(n + 1, 21);
      TriClosedForm(21);
    } else {
      TriClosedForm(22);
    }
  }

  lemma FallingFrame(gap: int, n: nat, gaps: seq<int>, maxFrames: nat)
    requires GapInRange(gap) && n < DeathFrame && n < maxFrames && GapsCover(gaps, maxFrames)
    ensures Frame(Falling(gap, n), gaps, maxFrames) == Falling(gap, n + 1)
  {
    var s := Falling(gap, n);
    FallingStep(gap, n);
    var a1 := Fall(Decide(s.agent, s.obstacles));
    assert Speed(s.agent.passed) == SpeedBase;
    SweepFarObstacle(a1, gap, n);
    assert (n + 1) % SpawnRate != 0;
    FrameSteps(s, gaps, maxFrames, a1, s.obstacles, n + 1);
  }

  lemma {:induction false} FallingRun(gap: int, n: nat, gaps: seq<int>, maxFrames: nat)
    requires GapInRange(gap) && n <= DeathFrame <= maxFrames && GapsCover(gaps, maxFrames)
    ensures Run(Falling(gap, n), gaps, maxFrames) == Falling(gap, DeathFrame)
    decreases DeathFrame - n
  {
    if n < DeathFrame {
      FallingFrame(gap, n, gaps, maxFrames);
      FallingRun(gap, n + 1, gaps, maxFrames);
    }
  }

  /** The genome [0, 0, 0] never jumps: it falls onto the ground after exactly
      22 frames, passes nothing, and scores fitness 22. */
  lemma SilentGenomeHitsGround(gaps: seq<int>, maxFrames: nat)
    requires DeathFrame <= maxFrames && GapsCover(gaps, maxFrames)
    ensures var r := Simulate(NewAgent(AgentStartX as real, AgentStartY as real, Silent), gaps, maxFrames);
      && !r.alive && r.frames == 22 && r.passed == 0 && Fitness(r) == 22
      && r.rect.Bottom() >= GroundLine as real && r.rect.Top() > 0.0
  {
    var gap := gaps[0];
    assert Start(NewAgent(AgentStartX as real, AgentStartY as real, Silent), gap) == Falling(gap, 0);
    FallingRun(gap, 0, gaps, maxFrames);
    TriClosedForm(22);
  }

  // ---------------------------------------------- the genome that always jumps

  const Eager: Genome := [0.0, 0.0, 1.0]

  /** The life of the always-jumping genome after n frames: every frame it
      jumps to -15, gravity makes that -14, and it rises 14 pixels. */
  function Rising(gap: int, n: nat): Sim
    requires GapInRange(gap)
  {
    Sim(AgentState(Box(AgentStartX as real, AgentStartY as real - 14.0 * n as real, AgentSize, AgentSize),
                   if n == 0 then 0 else JumpStrength + Gravity, n < DeathFrame, n, 0, Eager),
        [EarlyObstacle(gap, n)], n)
  }

  lemma RisingFrame(gap: int, n: nat, gaps: seq<int>, maxFrames: nat)
    requires GapInRange(gap) && n < DeathFrame && n < maxFrames && GapsCover(gaps, maxFrames)
    ensures Frame(Rising(gap, n), gaps, maxFrames) == Rising(gap, n + 1)
  {
    var s := Rising(gap, n);
    assert Ahead(s.agent, s.obstacles[0]);
    assert Decide(s.agent, s.obstacles) == Jump(s.agent);
    var a1 := Fall(Jump(s.agent));
    assert OutOfBounds(a1) == (n + 1 >= DeathFrame);
    SweepFarObstacle(a1, gap, n);
    FrameSteps(s, gaps, maxFrames, a1, s.obstacles, n + 1);
  }

  lemma {:induction false} RisingRun(gap: int, n: nat, gaps: seq<int>, maxFrames: nat)
    requires GapInRange(gap) && n <= DeathFrame <= maxFrames && GapsCover(gaps, maxFrames)
    ensures Run(Rising(gap, n), gaps, maxFrames) == Rising(gap, DeathFrame)
    decreases DeathFrame - n
  {
    if n < DeathFrame {
      RisingFrame(gap, n, gaps, maxFrames);
      RisingRun(gap, n + 1, gaps, maxFrames);
    }
  }

  /** The genome [0, 0, 1] jumps on every frame: it dies at the ceiling, not on
      the ground, after exactly 22 frames, with fitness 22. */
  lemma EagerGenomeHitsCeiling(gaps: seq<int>, maxFrames: nat)
    requires DeathFrame <= maxFrames && GapsCover(gaps, maxFrames)
    ensures var r := Simulate(NewAgent(AgentStartX as real, AgentStartY as real, Eager), gaps, maxFrames);
      && !r.alive && r.frames == 22 && r.passed == 0 && Fitness(r) == 22
      && r.rect.Top() <= 0.0 && r.rect.Bottom() < GroundLine as real
  {
    var gap := gaps[0];
    assert Start(NewAgent(AgentStartX as real, AgentStartY as real, Eager), gap) == Rising(gap, 0);
    RisingRun(gap, 0, gaps, maxFrames);
  }
}
