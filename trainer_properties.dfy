/** What the trainer's rules promise: the speed schedule, the decision rule,
    scoring in the obstacle sweep, termination of a life, and two complete
    lives worked out frame by frame. */
module TrainerProperties {
  import opened Geometry
  import opened Course
  import opened TrainerSpec

  // ---------------------------------------------------------------- speed

  lemma SpeedFirstTen(n: nat)
    requires n < IncrementRate
    ensures Speed(n) == SpeedBase
  {
  }

  /** Every ten obstacles add half a pixel per frame, until the cap. */
  lemma SpeedRisesEveryTen(n: nat)
    requires n / IncrementRate < 19
    ensures Speed(n + IncrementRate) == Speed(n) + IncrementValue
  {
    assert (n + IncrementRate) / IncrementRate == n / IncrementRate + 1;
  }

  /** Within a block of ten the speed does not change. */
  lemma SpeedFlatWithinTen(n: nat)
    requires (n + 1) % IncrementRate != 0
    ensures Speed(n + 1) == Speed(n)
  {
    assert (n + 1) / IncrementRate == n / IncrementRate;
  }

  lemma SpeedMonotone(m: nat, n: nat)
    requires m <= n
    ensures Speed(m) <= Speed(n)
  {
    assert m / IncrementRate <= n / IncrementRate;
  }

  lemma SpeedCapped(n: nat)
    requires n >= 200
    ensures Speed(n) == SpeedCap
  {
    assert n / IncrementRate >= 20;
  }

  // -------------------------------------------------------------- decision

  /** The all-zero genome outputs exactly zero and so never jumps. */
  lemma ZeroGenomeNeverJumps(a: AgentState, obs: seq<ObstacleState>)
    requires a.genome == [0.0, 0.0, 0.0]
    ensures Decide(a, obs) == a
  {
  }

  /** A genome with zero weights and a positive bias jumps whenever it is alive
      and some obstacle is still ahead. */
  lemma PositiveBiasJumps(a: AgentState, obs: seq<ObstacleState>, j: nat)
    requires a.genome[0] == 0.0 && a.genome[1] == 0.0 && a.genome[2] > 0.0
    requires a.alive && j < |obs| && Ahead(a, obs[j])
    ensures Decide(a, obs) == Jump(a)
  {
  }

  /** Only the first obstacle still ahead is looked at: the decision is the
      one the agent would take if that obstacle were alone on screen. */
  lemma DecideSeesFirstAheadOnly(a: AgentState, obs: seq<ObstacleState>, i: nat)
    requires i < |obs| && Ahead(a, obs[i])
    requires forall j :: 0 <= j < i ==> !Ahead(a, obs[j])
    ensures Decide(a, obs) == Decide(a, [obs[i]])
  {
    assert FirstAhead(a, obs) == Some(i);
    assert FirstAhead(a, [obs[i]]) == Some(0);
  }

  // --------------------------------------------------------------- scoring

    /** The sweep adds one to the agent's count for each flag it flips from
      false to true, and no more. */
  lemma {:induction false} SweepCountsFlips(a: AgentState, kept: seq<ObstacleState>, rest: seq<ObstacleState>, speed: real)
    ensures Sweep(a, kept, rest, speed).0.passed == a.passed + Flips(a.rect.Left(), rest, speed)
    decreases |rest|
  {
    if rest != [] {
      var v := Visit(a, rest[0], speed);
      SweepCountsFlips(v.0, if v.1.top.Right() < 0.0 then kept else kept + [v.1], rest[1..], speed);
    }
  }

  /** The sweep keeps, in their original order, exactly the marked obstacles
      whose top pillar is not past the left edge; a flag once set stays set. */
  lemma {:induction false} SweepKeepsInOrder(a: AgentState, kept: seq<ObstacleState>, rest: seq<ObstacleState>, speed: real)
    ensures Sweep(a, kept, rest, speed).1 == kept + Pruned(Marked(a.rect.Left(), rest, speed))
    decreases |rest|
  {
    var left := a.rect.Left();
    if rest == [] {
      assert Marked(left, rest, speed) == [];
    } else {
      var v := Visit(a, rest[0], speed);
      var k := if v.1.top.Right() < 0.0 then kept else kept + [v.1];
      SweepKeepsInOrder(v.0, k, rest[1..], speed);
      var tail := Marked(left, rest[1..], speed);
      MarkedCons(left, rest, speed);
      var m := [v.1] + tail;
      assert Marked(left, rest, speed) == m && m[0] == v.1 && m[1..] == tail;
      if v.1.top.Right() < 0.0 {
        assert Pruned(m) == Pruned(tail);
      } else {
        assert Pruned(m) == [v.1] + Pruned(tail);
        assert k == kept + [v.1];
        SeqAssoc(kept, [v.1], Pruned(tail));
      }
    }
  }

  // ---------------------------------------------------------- termination

  /** A life ends dead or at the frame cap, never beyond it; it never loses
      frames or obstacles. */
  lemma {:induction false} RunEnds(s: Sim, gaps: seq<int>, maxFrames: nat)
    requires s.agent.frames <= maxFrames && GapsCover(gaps, maxFrames)
    ensures var r := Run(s, gaps, maxFrames);
      && r.agent.frames <= maxFrames
      && (!r.agent.alive || r.agent.frames == maxFrames)
      && r.agent.frames >= s.agent.frames
      && r.agent.passed >= s.agent.passed
    decreases maxFrames - s.agent.frames
  {
    if s.agent.alive && s.agent.frames < maxFrames {
      RunEnds(Frame(s, gaps, maxFrames), gaps, maxFrames);
    }
  }

  /** The timer update agrees with counting frames modulo the spawn rate. */
  lemma TimerStep(f: nat, t: int)
    requires t == f % SpawnRate
    ensures (if (t + 1) % SpawnRate == 0 then 0 else t + 1) == (f + 1) % SpawnRate
  {
    var q := f / SpawnRate;
    assert f == SpawnRate * q + t;
    if t + 1 == SpawnRate {
      assert f + 1 == SpawnRate * (q + 1);
    } else {
      assert f + 1 == SpawnRate * q + (t + 1);
    }
  }

  /** One frame keeps the spawn timer equal to frames survived modulo the spawn rate. */
  lemma FrameTimerTracksFrames(s: Sim, gaps: seq<int>, maxFrames: nat)
    requires s.agent.alive && s.agent.frames < maxFrames && GapsCover(gaps, maxFrames)
    requires s.timer == s.agent.frames % SpawnRate
    ensures var r := Frame(s, gaps, maxFrames); r.timer == r.agent.frames % SpawnRate
  {
    TimerStep(s.agent.frames, s.timer);
  }

  /** Between frames the spawn timer equals frames survived modulo the spawn rate. */
  lemma {:induction false} RunTimerTracksFrames(s: Sim, gaps: seq<int>, maxFrames: nat)
    requires s.agent.frames <= maxFrames && GapsCover(gaps, maxFrames)
    requires s.timer == s.agent.frames % SpawnRate
    ensures var r := Run(s, gaps, maxFrames); r.timer == r.agent.frames % SpawnRate
    decreases maxFrames - s.agent.frames
  {
    if s.agent.alive && s.agent.frames < maxFrames {
      FrameTimerTracksFrames(s, gaps, maxFrames);
      RunTimerTracksFrames(Frame(s, gaps, maxFrames), gaps, maxFrames);
    }
  }

  /** The fitness of a finished life. */
  lemma SimulateFitness(a: AgentState, gaps: seq<int>, maxFrames: nat)
    requires GapsCover(gaps, maxFrames)
    ensures var r := Simulate(a, gaps, maxFrames);
      && r.frames <= maxFrames
      && (!r.alive || r.frames == maxFrames)
      && Fitness(r) <= maxFrames + PassBonus * r.passed
      && r.genome == a.genome
  {
    RunEnds(Start(a, gaps[0]), gaps, maxFrames);
    RunKeepsGenome(Start(a, gaps[0]), gaps, maxFrames);
  }

  lemma {:induction false} RunKeepsGenome(s: Sim, gaps: seq<int>, maxFrames: nat)
    requires s.agent.frames <= maxFrames && GapsCover(gaps, maxFrames)
    ensures Run(s, gaps, maxFrames).agent.genome == s.agent.genome
    decreases maxFrames - s.agent.frames
  {
    if s.agent.alive && s.agent.frames < maxFrames {
      RunKeepsGenome(Frame(s, gaps, maxFrames), gaps, maxFrames);
    }
  }
}
