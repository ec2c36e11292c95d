/** The trainer's agent and obstacle objects. Each method is proved to
    change its object exactly as the matching function of TrainerSpec says. */
module TrainerObjects {
  import opened Geometry
  import opened Course
  import opened TrainerSpec
  import opened HeadlessRects

  class Agent {
    const rect: AgentRect
    var velocity: int
    var alive: bool
    var framesSurvived: nat
    var obstaclesPassed: nat
    var genome: Genome

    ghost predicate Valid()
      reads this, rect
    {
      rect.Valid()
    }

    function Model(): AgentState
      reads this, rect
    {
      AgentState(rect.Shape(), velocity, alive, framesSurvived, obstaclesPassed, genome)
    }

    /** A new agent at (x, y) with a genome drawn uniformly from [-2.5, 2.5). */
    constructor (x: real, y: real, initialGenome: Genome)
      requires forall i :: 0 <= i < 3 ==> -2.5 <= initialGenome[i] < 2.5
      ensures Valid() && fresh(rect)
      ensures Model() == NewAgent(x, y, initialGenome)
    {
      rect := new AgentRect(x, y, AgentSize, AgentSize);
      velocity := 0;
      alive := true;
      framesSurvived := 0;
      obstaclesPassed := 0;
      genome := initialGenome;
    }

    method Jump()
      modifies this
      ensures Model() == TrainerSpec.Jump(old(Model()))
    {
      velocity := JumpStrength;
    }

    method Update()
      requires Valid()
      modifies this, rect
      ensures Valid() && Model() == Fall(old(Model()))
    {
      if alive {
        velocity := velocity + Gravity;
        rect.MoveIp(0.0, velocity as real);
        framesSurvived := framesSurvived + 1;
      }
    }

    /** Looks for the first obstacle still ahead and jumps when the
        perceptron's output for it is strictly positive. */
    method DecideAction(obstacles: seq<Obstacle>)
      requires Valid() && AllValid(obstacles)
      modifies this
      ensures Valid() && Model() == Decide(old(Model()), Models(obstacles))
    {
      if !alive {
        return;
      }
      ghost var models := Models(obstacles);
      ghost var a := Model();
      var next: Obstacle? := null;
      var i := 0;
      while i < |obstacles|
        invariant 0 <= i <= |obstacles|
        invariant forall j :: 0 <= j < i ==> !Ahead(a, models[j])
      {
        if obstacles[i].rectBottom.right > rect.left {
          next := obstacles[i];
          break;
        }
        i := i + 1;
      }
      if next == null {
        assert FirstAhead(a, models) == None;
      } else {
        assert next == obstacles[i] && Ahead(a, models[i]);
        assert FirstAhead(a, models) == Some(i);
        var output := Perceive(next);
        if output > 0.0 {
          Jump();
        }
      }
    }

    /** The perceptron's output for the chosen obstacle. */
    method Perceive(next: Obstacle) returns (output: real)
      requires Valid() && next.Valid()
      ensures output == Output(genome, Model(), next.Model())
    {
      var wDistX, wDistY, bias := genome[0], genome[1], genome[2];
      var distX := next.rectTop.left - rect.right;
      var inputX := distX / ScreenWidth as real;
      var gapCenterY := next.rectTop.bottom + (ObstacleGap / 2) as real;
      var distY := gapCenterY - rect.centery;
      var inputY := distY / ScreenHeight as real;
      ghost var a, o := Model(), next.Model();
      assert distX == o.top.Left() - a.rect.Right();
      assert gapCenterY == o.top.Bottom() + (ObstacleGap / 2) as real;
      assert distY == gapCenterY - a.rect.CenterY();
      output := wDistX * inputX + wDistY * inputY + bias;
    }
  }

  class Obstacle {
    const rectTop: PillarRect
    const rectBottom: PillarRect
    var passed: bool

    ghost predicate Valid()
      reads rectTop, rectBottom
    {
      rectTop != rectBottom && rectTop.Valid() && rectBottom.Valid()
    }

    function Model(): ObstacleState
      reads this, rectTop, rectBottom
    {
      ObstacleState(rectTop.Shape(), rectBottom.Shape(), passed)
    }

    /** A new obstacle at the right edge around a gap centre drawn from
        [MinGapCenter, MaxGapCenter]. */
    constructor (gapCenter: int)
      requires GapInRange(gapCenter)
      ensures Valid() && fresh(rectTop) && fresh(rectBottom)
      ensures Model() == NewObstacle(gapCenter)
    {
      rectTop := new PillarRect(ScreenWidth as real, 0.0, PipeWidth, gapCenter - ObstacleGap / 2);
      rectBottom := new PillarRect(ScreenWidth as real, (gapCenter + ObstacleGap / 2) as real, PipeWidth,
                                   ScreenHeight - GroundHeight - (gapCenter + ObstacleGap / 2));
      passed := false;
    }

    /** Scrolls both pillars left by the current speed. */
    method Update(speed: real)
      requires Valid()
      modifies rectTop, rectBottom
      ensures Valid() && Model() == Scroll(old(Model()), speed)
    {
      rectTop.MoveIp(-speed, 0.0);
      rectBottom.MoveIp(-speed, 0.0);
    }
  }

  ghost predicate AllValid(obs: seq<Obstacle>)
    reads set o | o in obs :: o.rectTop, set o | o in obs :: o.rectBottom
  {
    forall j :: 0 <= j < |obs| ==> obs[j].Valid()
  }

  /** Two obstacles share neither themselves nor a pillar. */
  ghost predicate Apart(p: Obstacle, q: Obstacle) {
    && p != q
    && p.rectTop != q.rectTop && p.rectTop != q.rectBottom
    && p.rectBottom != q.rectTop && p.rectBottom != q.rectBottom
  }

  /** Distinct entries of the list are distinct obstacles with distinct pillars. */
  ghost predicate Separate(obs: seq<Obstacle>) {
    forall j, k :: 0 <= j < k < |obs| ==> Apart(obs[j], obs[k])
  }

  /** The values of a list of obstacles. */
  ghost function Models(obs: seq<Obstacle>): (r: seq<ObstacleState>)
    reads set o | o in obs, set o | o in obs :: o.rectTop, set o | o in obs :: o.rectBottom
    ensures |r| == |obs|
    ensures forall j :: 0 <= j < |obs| ==> r[j] == obs[j].Model()
  {
    seq(|obs|, j requires 0 <= j < |obs|
          reads if 0 <= j < |obs| then {obs[j], obs[j].rectTop, obs[j].rectBottom} else {} => obs[j].Model())
  }
}
