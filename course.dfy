/** The playing field both games share: screen and physics constants and the
    obstacle, a pair of pillars around a fixed vertical gap. */
module Course {
  import opened Geometry

  const ScreenWidth: int := 800
  const ScreenHeight: int := 600
  const GroundHeight: int := 30
  /** The y coordinate of the ground line. */
  const GroundLine: int := ScreenHeight - GroundHeight
  const Gravity: int := 1
  const JumpStrength: int := -15
  const ObstacleGap: int := 180
  const PipeWidth: int := 50
  const SpawnRate: int := 90
  const AgentSize: int := 30
  const AgentStartX: int := 50
  const AgentStartY: int := ScreenHeight / 2

  /** The range of the random gap centre: 100 to the ground line less 100, inclusive. */
  const MinGapCenter: int := 100
  const MaxGapCenter: int := ScreenHeight - GroundHeight - 100

  predicate GapInRange(gapCenter: int) {
    MinGapCenter <= gapCenter <= MaxGapCenter
  }

  /** An obstacle: a top pillar hanging from the ceiling, a bottom pillar
      standing on the ground, and whether the agent has been scored for it. */
  datatype ObstacleState = ObstacleState(top: Box, bottom: Box, passed: bool)

  /** The two pillars share their column, leave a gap of exactly ObstacleGap,
      the top one starts at the ceiling and the bottom one ends on the ground. */
  ghost predicate WellShaped(o: ObstacleState) {
    && o.top.x == o.bottom.x
    && o.top.width == PipeWidth && o.bottom.width == PipeWidth
    && o.top.Top() == 0.0
    && o.bottom.Top() - o.top.Bottom() == ObstacleGap as real
    && o.bottom.Bottom() == GroundLine as real
    && o.top.height >= 10 && o.bottom.height >= 10
  }

  /** A fresh obstacle at the right edge of the screen around the given gap centre. */
  function NewObstacle(gapCenter: int): (o: ObstacleState)
    requires GapInRange(gapCenter)
    ensures WellShaped(o) && !o.passed
    ensures o.top.Left() == ScreenWidth as real
    ensures o.top.Bottom() + (ObstacleGap / 2) as real == gapCenter as real
  {
    ObstacleState(
      Box(ScreenWidth as real, 0.0, PipeWidth, gapCenter - ObstacleGap / 2),
      Box(ScreenWidth as real, (gapCenter + ObstacleGap / 2) as real, PipeWidth,
          ScreenHeight - GroundHeight - (gapCenter + ObstacleGap / 2)),
      false)
  }

  /** Both pillars moved left by speed. */
  function Scroll(o: ObstacleState, speed: real): (r: ObstacleState)
    ensures r.top.Left() == o.top.Left() - speed && r.bottom.Left() == o.bottom.Left() - speed
    ensures r.top.y == o.top.y && r.bottom.y == o.bottom.y
    ensures r.passed == o.passed
  {
    o.(top := Moved(o.top, -speed, 0.0), bottom := Moved(o.bottom, -speed, 0.0))
  }

  /** Scrolling keeps the shape of an obstacle. */
  lemma ScrollKeepsShape(o: ObstacleState, speed: real)
    requires WellShaped(o)
    ensures WellShaped(Scroll(o, speed))
  {
  }

  /** Two scrolls are one scroll by the sum of the speeds. */
  lemma ScrollRepeated(o: ObstacleState, speed1: real, speed2: real)
    ensures Scroll(Scroll(o, speed1), speed2) == Scroll(o, speed1 + speed2)
  {
  }

  /** Pruning: the obstacles whose top pillar has not scrolled past the left
      edge, in their original order. */
  function Pruned(obs: seq<ObstacleState>): (r: seq<ObstacleState>)
    ensures |r| <= |obs|
    ensures forall o :: o in r ==> o in obs && o.top.Right() >= 0.0
    ensures forall o :: o in obs && o.top.Right() >= 0.0 ==> o in r
  {
    if obs == [] then []
    else if obs[0].top.Right() < 0.0 then Pruned(obs[1..])
    else [obs[0]] + Pruned(obs[1..])
  }

  /** Pruning distributes over concatenation, so it keeps relative order. */
  lemma {:induction false} PrunedAppend(a: seq<ObstacleState>, b: seq<ObstacleState>)
    ensures Pruned(a + b) == Pruned(a) + Pruned(b)
  {
    if a == [] {
      assert a + b == b;
    } else {
      assert (a + b)[1..] == a[1..] + b;
      PrunedAppend(a[1..], b);
    }
  }

  /** Number of obstacles of rest that are not yet scored and that an agent
      with this left edge is beyond once they have scrolled by speed. */
  function Flips(left: real, rest: seq<ObstacleState>, speed: real): nat
  {
    if rest == [] then 0
    else (if !rest[0].passed && left > Scroll(rest[0], speed).top.Right() then 1 else 0)
         + Flips(left, rest[1..], speed)
  }

  /** The obstacles of rest after one sweep, before pruning: scrolled, and
      marked passed where the agent is beyond them. */
  function Marked(left: real, rest: seq<ObstacleState>, speed: real): (r: seq<ObstacleState>)
    ensures |r| == |rest|
    ensures forall j :: 0 <= j < |r| ==> r[j] == Scroll(rest[j], speed).(passed := r[j].passed)
    ensures forall j :: 0 <= j < |r| ==>
              r[j].passed == (rest[j].passed || left > Scroll(rest[j], speed).top.Right())
  {
    seq(|rest|, j requires 0 <= j < |rest| =>
      var m := Scroll(rest[j], speed);
      m.(passed := m.passed || left > m.top.Right()))
  }

  /** Marking works obstacle by obstacle. */
  lemma MarkedCons(left: real, rest: seq<ObstacleState>, speed: real)
    requires rest != []
    ensures Marked(left, rest, speed) == [Marked(left, rest, speed)[0]] + Marked(left, rest[1..], speed)
  {
    var m, t := Marked(left, rest, speed), Marked(left, rest[1..], speed);
    forall j | 1 <= j < |m|
      ensures m[j] == t[j - 1]
    {
      assert rest[j] == rest[1..][j - 1];
    }
  }

  lemma SeqAssoc(a: seq<ObstacleState>, b: seq<ObstacleState>, c: seq<ObstacleState>)
    ensures a + (b + c) == (a + b) + c
  {
  }
}
