/** The headless trainer's game rules as functions on values: the speed
    schedule, the agent's physics and perceptron decision, one obstacle sweep,
    one frame, and a whole simulated life up to the frame cap.
    The classes in TrainerObjects and the method in Simulation are proved to
    follow these definitions. */
module TrainerSpec {
  import opened Geometry
  import opened Course

  const SpeedBase: real := 5.0
  const SpeedCap: real := 15.0
  const IncrementRate: int := 10
  const IncrementValue: real := 0.5
  const PassBonus: int := 1000

  /** Obstacle speed: half a pixel faster for every ten obstacles passed, capped at 15. */
  function Speed(obstaclesPassed: nat): (s: real)
    ensures SpeedBase <= s <= SpeedCap
  {
    var speed := SpeedBase + (obstaclesPassed / IncrementRate) as real * IncrementValue;
    if speed < SpeedCap then speed else SpeedCap
  }

  const NumGenes: nat := 3

  /** Three perceptron weights: horizontal distance, vertical distance, bias. */
  type Genome = g: seq<real> | |g| == NumGenes witness [0.0, 0.0, 0.0]

  datatype Option<T> = None | Some(value: T)

  /** The trainer's agent: its rectangle, vertical velocity, whether it is
      alive, frames survived, obstacles passed and its genome. */
  datatype AgentState = AgentState(rect: Box, velocity: int, alive: bool, frames: nat, passed: nat, genome: Genome)

  /** An agent as built by the constructor: a 30 by 30 square at (x, y), at rest, alive, no counts. */
  function NewAgent(x: real, y: real, genome: Genome): (a: AgentState)
    ensures a.alive && a.velocity == 0 && a.frames == 0 && a.passed == 0
    ensures a.rect.Left() == x && a.rect.Top() == y && a.rect.width == AgentSize && a.rect.height == AgentSize
    ensures a.genome == genome
  {
    AgentState(Box(x, y, AgentSize, AgentSize), 0, true, 0, 0, genome)
  }

  /** A jump sets the vertical velocity to the jump impulse and nothing else. */
  function Jump(a: AgentState): (r: AgentState)
    ensures r.velocity == JumpStrength
    ensures r.(velocity := a.velocity) == a
  {
    a.(velocity := JumpStrength)
  }

  /** One physics step: a live agent gains gravity, then moves by its new
      velocity and survives one more frame; a dead agent does not change. */
  function Fall(a: AgentState): (r: AgentState)
    ensures !a.alive ==> r == a
    ensures a.alive ==> r.velocity == a.velocity + Gravity && r.frames == a.frames + 1
    ensures a.alive ==> r.rect == Moved(a.rect, 0.0, r.velocity as real)
    ensures r.alive == a.alive && r.passed == a.passed && r.genome == a.genome
  {
    if a.alive then
      var v := a.velocity + Gravity;
      a.(velocity := v, rect := Moved(a.rect, 0.0, v as real), frames := a.frames + 1)
    else a
  }

  /** An obstacle is still ahead while the right edge of its bottom pillar is
      right of the agent's left edge. */
  predicate Ahead(a: AgentState, o: ObstacleState) {
    o.bottom.Right() > a.rect.Left()
  }

  /** The index of the first obstacle, in list order, that is still ahead. */
  function FirstAhead(a: AgentState, obs: seq<ObstacleState>): (r: Option<nat>)
    ensures r.Some? ==> r.value < |obs| && Ahead(a, obs[r.value])
    ensures r.Some? ==> forall j :: 0 <= j < r.value ==> !Ahead(a, obs[j])
    ensures r.None? ==> forall j :: 0 <= j < |obs| ==> !Ahead(a, obs[j])
  {
    if obs == [] then None
    else if Ahead(a, obs[0]) then Some(0)
    else match FirstAhead(a, obs[1..])
      case None => None
      case Some(k) => Some(k + 1)
  }

  /** The perceptron's output for an obstacle: normalised horizontal distance
      to the pillars, normalised vertical distance from the agent's centre to
      the gap's centre, and the bias. With the agent's right edge at the
      pillars and its centre level with the gap's, only the bias is left. */
  function Output(g: Genome, a: AgentState, o: ObstacleState): (r: real)
    ensures o.top.Left() == a.rect.Right() && o.top.Bottom() + (ObstacleGap / 2) as real == a.rect.CenterY()
            ==> r == g[2]
  {
    var inputX := (o.top.Left() - a.rect.Right()) / ScreenWidth as real;
    var gapCenterY := o.top.Bottom() + (ObstacleGap / 2) as real;
    var inputY := (gapCenterY - a.rect.CenterY()) / ScreenHeight as real;
    g[0] * inputX + g[1] * inputY + g[2]
  }

  /** The decision: a live agent that has an obstacle ahead jumps when the
      perceptron's output for the first such obstacle is strictly positive. */
  function Decide(a: AgentState, obs: seq<ObstacleState>): (r: AgentState)
    ensures r == a || r == Jump(a)
    ensures r != a ==> a.alive && FirstAhead(a, obs).Some?
  {
    if !a.alive then a
    else match FirstAhead(a, obs)
      case None => a
      case Some(i) => if Output(a.genome, a, obs[i]) > 0.0 then Jump(a) else a
  }

  /** The agent touches the ground line or the ceiling: for the agent's
      30-pixel square, its top is not strictly between the ceiling and 30
      pixels above the ground line. */
  predicate OutOfBounds(a: AgentState)
    ensures a.rect.height == AgentSize ==>
      (OutOfBounds(a) <==> !(0.0 < a.rect.Top() < (GroundLine - AgentSize) as real))
  {
    a.rect.Bottom() >= GroundLine as real || a.rect.Top() <= 0.0
  }

  /** The agent's left edge is past the right edge of the top pillar. */
  predicate Beyond(a: AgentState, o: ObstacleState) {
    a.rect.Left() > o.top.Right()
  }

  /** The collision step against an obstacle that has already scrolled: a
      pillar hit or touching the ground or the ceiling kills the agent. */
  function Collide(a: AgentState, moved: ObstacleState): (r: AgentState)
    ensures r.alive == (a.alive && !OutOfBounds(a) && !Overlap(a.rect, moved.top) && !Overlap(a.rect, moved.bottom))
    ensures r.(alive := a.alive) == a
  {
    if Overlap(a.rect, moved.top) || Overlap(a.rect, moved.bottom) || OutOfBounds(a) then a.(alive := false) else a
  }

  /** The scoring step: an obstacle not yet scored that the agent is beyond
      is marked and counted, whether or not the agent is still alive. */
  function Score(a: AgentState, moved: ObstacleState): (r: (AgentState, ObstacleState))
    ensures r.1 == moved.(passed := moved.passed || Beyond(a, moved))
    ensures r.0 == a.(passed := a.passed + (if !moved.passed && r.1.passed then 1 else 0))
  {
    if !moved.passed && Beyond(a, moved) then (a.(passed := a.passed + 1), moved.(passed := true))
    else (a, moved)
  }

  /** One pass of the per-obstacle loop: scroll the obstacle, kill the agent
      on a pillar hit or out of bounds, then score the obstacle. */
  function Visit(a: AgentState, o: ObstacleState, speed: real): (r: (AgentState, ObstacleState))
    ensures r.1 == Scroll(o, speed).(passed := r.1.passed)
    ensures r.1.passed == (o.passed || Beyond(a, Scroll(o, speed)))
    ensures r.0.passed == a.passed + (if !o.passed && r.1.passed then 1 else 0)
    ensures r.0.alive == (a.alive && !OutOfBounds(a)
                          && !Overlap(a.rect, r.1.top) && !Overlap(a.rect, r.1.bottom))
    ensures r.0.(alive := a.alive, passed := a.passed) == a
  {
    var moved := Scroll(o, speed);
    Score(Collide(a, moved), moved)
  }

  /** The whole per-obstacle loop over the rest of the list: the agent is
      threaded through the visits, and each visited obstacle is kept, in order,
      unless its top pillar has gone past the left edge. */
  function Sweep(a: AgentState, kept: seq<ObstacleState>, rest: seq<ObstacleState>, speed: real): (r: (AgentState, seq<ObstacleState>))
    ensures r.0.rect == a.rect && r.0.velocity == a.velocity && r.0.frames == a.frames && r.0.genome == a.genome
    ensures r.0.alive ==> a.alive
    ensures r.0.passed >= a.passed
    ensures |r.1| <= |kept| + |rest|
    decreases |rest|
  {
    if rest == [] then (a, kept)
    else
      var v := Visit(a, rest[0], speed);
      Sweep(v.0, if v.1.top.Right() < 0.0 then kept else kept + [v.1], rest[1..], speed)
  }

  /** The state of one simulated life between frames. */
  datatype Sim = Sim(agent: AgentState, obstacles: seq<ObstacleState>, timer: int)

  /** Enough random gap centres for every obstacle a life of maxFrames can
      build (one at the start and one every SpawnRate frames), all in range. */
  predicate GapsCover(gaps: seq<int>, maxFrames: nat) {
    && |gaps| > maxFrames / SpawnRate
    && forall k :: 0 <= k < |gaps| ==> GapInRange(gaps[k])
  }

  /** One frame of a live agent: speed from the current score, decision,
      physics, spawn timer, then the obstacle sweep. The k-th obstacle built in
      a life takes gaps[k]; a spawn on frame f builds obstacle f / SpawnRate. */
  function Frame(s: Sim, gaps: seq<int>, maxFrames: nat): (r: Sim)
    requires s.agent.alive && s.agent.frames < maxFrames
    requires GapsCover(gaps, maxFrames)
    ensures r.agent.frames == s.agent.frames + 1
    ensures r.agent.passed >= s.agent.passed
    ensures r.timer == if (s.timer + 1) % SpawnRate == 0 then 0 else s.timer + 1
  {
    var speed := Speed(s.agent.passed);
    var a1 := Fall(Decide(s.agent, s.obstacles));
    var timer := s.timer + 1;
    var spawn := timer % SpawnRate == 0;
    var obs := if spawn then s.obstacles + [NewObstacle(gaps[a1.frames / SpawnRate])] else s.obstacles;
    var swept := Sweep(a1, [], obs, speed);
    Sim(swept.0, swept.1, if spawn then 0 else timer)
  }

  /** A frame, step by step: the decision and physics, the spawn timer, then
      the sweep at the speed read before the frame. */
  lemma FrameSteps(s: Sim, gaps: seq<int>, maxFrames: nat, a1: AgentState, obs: seq<ObstacleState>, timer: int)
    requires s.agent.alive && s.agent.frames < maxFrames && GapsCover(gaps, maxFrames)
    requires a1 == Fall(Decide(s.agent, s.obstacles))
    requires timer == if (s.timer + 1) % SpawnRate == 0 then 0 else s.timer + 1
    requires obs == if (s.timer + 1) % SpawnRate == 0 then s.obstacles + [NewObstacle(gaps[a1.frames / SpawnRate])] else s.obstacles
    ensures var swept := Sweep(a1, [], obs, Speed(s.agent.passed));
      Frame(s, gaps, maxFrames) == Sim(swept.0, swept.1, timer)
  {
  }

  /** Frames are run while the agent is alive and under the frame cap. */
  function Run(s: Sim, gaps: seq<int>, maxFrames: nat): (r: Sim)
    requires s.agent.frames <= maxFrames
    requires GapsCover(gaps, maxFrames)
    ensures !r.agent.alive || r.agent.frames >= maxFrames
    decreases maxFrames - s.agent.frames
  {
    if s.agent.alive && s.agent.frames < maxFrames then Run(Frame(s, gaps, maxFrames), gaps, maxFrames)
    else s
  }

  /** The start of a life: the agent is revived with its counters cleared
      (its rectangle and velocity are kept), one obstacle is on screen and the
      spawn timer is zero. */
  function Start(a: AgentState, firstGap: int): (s: Sim)
    requires GapInRange(firstGap)
    ensures s.agent.alive && s.agent.frames == 0 && s.agent.passed == 0
    ensures s.agent.(alive := a.alive, frames := a.frames, passed := a.passed) == a
    ensures s.obstacles == [NewObstacle(firstGap)] && s.timer == 0
  {
    Sim(a.(alive := true, frames := 0, passed := 0), [NewObstacle(firstGap)], 0)
  }

  /** Fitness: frames survived plus a bonus of PassBonus per obstacle passed. */
  function Fitness(a: AgentState): (f: int)
    ensures f >= a.frames && f >= PassBonus * a.passed
  {
    a.frames + a.passed * PassBonus
  }

  /** The agent at the end of a simulated life, which ends dead or at the
      frame cap. */
  function Simulate(a: AgentState, gaps: seq<int>, maxFrames: nat): (r: AgentState)
    requires GapsCover(gaps, maxFrames)
    ensures !r.alive || r.frames >= maxFrames
  {
    Run(Start(a, gaps[0]), gaps, maxFrames).agent
  }
}
