/** Properties of the manual game's rules: what one sweep scores, keeps and
    kills, the ground and ceiling checks within a frame, the spawn timer,
    the frozen game-over screen, the restart, and an invariant every frame
    keeps. */
module ManualProperties {
  import opened Geometry
  import opened Course
  import opened ManualSpec

  // ---------------------------------------------------------------- sweep

  /** The sweep adds fifty points for each flag it flips from false to true,
      and no more. */
  lemma {:induction false} SweepScores(p: PlayerState, kept: seq<ObstacleState>, rest: seq<ObstacleState>)
    ensures Sweep(p, kept, rest).0.score == p.score + PassScore * Flips(p.rect.Left(), rest, ObstacleSpeed)
    decreases |rest|
  {
    if rest != [] {
      var v := Visit(p, rest[0]);
      SweepScores(v.0, if v.1.top.Right() < 0.0 then kept else kept + [v.1], rest[1..]);
    }
  }

  /** The sweep keeps, in their original order, exactly the marked obstacles
      whose top pillar is not past the left edge. */
  lemma {:induction false} SweepKeepsInOrder(p: PlayerState, kept: seq<ObstacleState>, rest: seq<ObstacleState>)
    ensures Sweep(p, kept, rest).1 == kept + Pruned(Marked(p.rect.Left(), rest, ObstacleSpeed))
    decreases |rest|
  {
    var left := p.rect.Left();
    if rest == [] {
      assert Marked(left, rest, ObstacleSpeed) == [];
    } else {
      var v := Visit(p, rest[0]);
      var k := if v.1.top.Right() < 0.0 then kept else kept + [v.1];
      SweepKeepsInOrder(v.0, k, rest[1..]);
      var tail := Marked(left, rest[1..], ObstacleSpeed);
      MarkedCons(left, rest, ObstacleSpeed);
      var m := [v.1] + tail;
      assert Marked(left, rest, ObstacleSpeed) == m && m[0] == v.1 && m[1..] == tail;
      if v.1.top.Right() < 0.0 {
        assert Pruned(m) == Pruned(tail);
      } else {
        assert Pruned(m) == [v.1] + Pruned(tail);
        assert k == kept + [v.1];
        SeqAssoc(kept, [v.1], Pruned(tail));
      }
    }
  }

  /** Neither pillar of any obstacle of rest, once scrolled, overlaps the box. */
  ghost predicate Clear(b: Box, rest: seq<ObstacleState>) {
    forall j :: 0 <= j < |rest| ==>
      !Overlap(b, Scroll(rest[j], ObstacleSpeed).top) && !Overlap(b, Scroll(rest[j], ObstacleSpeed).bottom)
  }

  /** The player survives the sweep exactly when it was alive and no scrolled
      pillar overlaps it. */
  lemma {:induction false} SweepSurvival(p: PlayerState, kept: seq<ObstacleState>, rest: seq<ObstacleState>)
    ensures Sweep(p, kept, rest).0.alive == (p.alive && Clear(p.rect, rest))
    decreases |rest|
  {
    if rest != [] {
      var v := Visit(p, rest[0]);
      SweepSurvival(v.0, if v.1.top.Right() < 0.0 then kept else kept + [v.1], rest[1..]);
      assert Clear(p.rect, rest) == (Clear(p.rect, rest[..1]) && Clear(p.rect, rest[1..])) by {
        assert forall j :: 1 <= j < |rest| ==> rest[j] == rest[1..][j - 1];
        if Clear(p.rect, rest[1..]) {
          assert forall j :: 0 <= j < |rest[1..]| ==> rest[1..][j] == rest[j + 1];
        }
      }
    }
  }

  // ---------------------------------------------------------------- frame

  /** A frame of a live player: one point for the frame plus fifty for each
      obstacle newly passed; the list becomes the scrolled and marked
      obstacles, pruned in order; the player lives exactly when it missed the
      ground and every pillar. */
  lemma LiveTick(s: GameState, gapCenter: int)
    requires GapInRange(gapCenter) && s.player.alive
    ensures var r := Tick(s, gapCenter);
      var left := s.player.rect.Left();
      && r.player.score == s.player.score + 1 + PassScore * Flips(left, Spawned(s, gapCenter), ObstacleSpeed)
      && r.obstacles == Pruned(Marked(left, Spawned(s, gapCenter), ObstacleSpeed))
      && r.player.rect == Bounds(Fall(s.player)).rect
      && r.player.velocity == Bounds(Fall(s.player)).velocity
      && r.player.alive == (Fall(s.player).rect.Bottom() < GroundLine as real
                            && Clear(Bounds(Fall(s.player)).rect, Spawned(s, gapCenter)))
  {
    var p := Bounds(Fall(s.player));
    SweepScores(p, [], Spawned(s, gapCenter));
    SweepKeepsInOrder(p, [], Spawned(s, gapCenter));
    SweepSurvival(p, [], Spawned(s, gapCenter));
  }

  /** The ground check: a live player that falls to the ground line is put on
      it and the game is over. */
  lemma GroundEndsGame(s: GameState, gapCenter: int)
    requires GapInRange(gapCenter) && s.player.alive
    requires Fall(s.player).rect.Bottom() >= GroundLine as real
    ensures !Tick(s, gapCenter).player.alive
    ensures Tick(s, gapCenter).player.rect.Bottom() == GroundLine as real
  {
    LiveTick(s, gapCenter);
  }

  /** The ceiling check, reached only when the ground check fails: the player
      is put against the ceiling with its velocity stopped, and only a pillar
      can end the game in that frame. */
  lemma CeilingStops(s: GameState, gapCenter: int)
    requires GapInRange(gapCenter) && s.player.alive
    requires Fall(s.player).rect.Bottom() < GroundLine as real && Fall(s.player).rect.Top() <= 0.0
    ensures Tick(s, gapCenter).player.rect.Top() == 0.0 && Tick(s, gapCenter).player.velocity == 0
    ensures Tick(s, gapCenter).player.alive == Clear(Bounds(Fall(s.player)).rect, Spawned(s, gapCenter))
  {
    LiveTick(s, gapCenter);
  }

  /** The spawn timer counts live frames modulo SpawnRate, and an obstacle is
      appended exactly on the frame where it wraps to zero. */
  lemma SpawnTiming(s: GameState, gapCenter: int)
    requires GapInRange(gapCenter) && s.player.alive && 0 <= s.timer < SpawnRate
    ensures Tick(s, gapCenter).timer == (s.timer + 1) % SpawnRate
    ensures Spawned(s, gapCenter) == s.obstacles + [NewObstacle(gapCenter)] <==> s.timer == SpawnRate - 1
    ensures s.timer < SpawnRate - 1 ==> Spawned(s, gapCenter) == s.obstacles
  {
    if s.timer < SpawnRate - 1 {
      assert |Spawned(s, gapCenter)| != |s.obstacles + [NewObstacle(gapCenter)]|;
    }
  }

  /** A frame that neither closes the window nor holds Q or R: the loop goes
      on, and a player on the game-over screen stays there. */
  predicate Quiet(input: FrameInput) {
    Quit !in input.events && !input.quitHeld && !input.restartHeld
  }

  /** A quiet frame of a running loop is its events followed by the logic
      block; the loop keeps running, and with a dead player nothing changes. */
  lemma QuietFrame(s: GameState, input: FrameInput)
    requires ValidInput(input) && Quiet(input) && s.running
    ensures Frame(s, input) == Tick(HandleEvents(s, input.events), input.gapCenter)
    ensures Frame(s, input).running
    ensures !s.player.alive ==> Frame(s, input) == s
  {
    if !s.player.alive {
      assert HandleEvents(s, input.events) == s;
    }
  }

  /** Quiet frames never stop the loop. */
  lemma {:induction false} QuietPlayRuns(s: GameState, inputs: seq<FrameInput>)
    requires forall k :: 0 <= k < |inputs| ==> ValidInput(inputs[k]) && Quiet(inputs[k])
    requires s.running
    ensures Play(s, inputs).running
    decreases |inputs|
  {
    if inputs != [] {
      QuietFrame(s, inputs[0]);
      QuietPlayRuns(Frame(s, inputs[0]), inputs[1..]);
    }
  }

  /** Quiet frames leave a game whose player is dead as it is. */
  lemma {:induction false} PlayDead(s: GameState, inputs: seq<FrameInput>)
    requires forall k :: 0 <= k < |inputs| ==> ValidInput(inputs[k]) && Quiet(inputs[k])
    requires s.running && !s.player.alive
    ensures Play(s, inputs) == s
    decreases |inputs|
  {
    if inputs != [] {
      QuietFrame(s, inputs[0]);
      PlayDead(s, inputs[1..]);
    }
  }

  /** With no obstacle on screen, no obstacle appears in a run of quiet
      frames (jumps allowed) before the timer reaches SpawnRate, and while the
      player lives the timer counts the frames. */
  lemma {:induction false} NoSpawnBeforeRate(s: GameState, inputs: seq<FrameInput>)
    requires forall k :: 0 <= k < |inputs| ==> ValidInput(inputs[k]) && Quiet(inputs[k])
    requires s.running && s.obstacles == [] && 0 <= s.timer && s.timer + |inputs| < SpawnRate
    ensures Play(s, inputs).obstacles == []
    ensures Play(s, inputs).player.alive ==> s.player.alive && Play(s, inputs).timer == s.timer + |inputs|
    decreases |inputs|
  {
    if inputs != [] {
      QuietFrame(s, inputs[0]);
      if s.player.alive {
        assert Spawned(HandleEvents(s, inputs[0].events), inputs[0].gapCenter) == [];
        NoSpawnBeforeRate(Frame(s, inputs[0]), inputs[1..]);
      } else {
        PlayDead(s, inputs);
      }
    }
  }

  /** A live frame with no obstacle on screen and the timer one short of
      SpawnRate appends the first obstacle, which the sweep scrolls once. */
  lemma SpawnAtRate(s: GameState, gapCenter: int)
    requires GapInRange(gapCenter) && s.player.alive
    requires s.obstacles == [] && s.timer == SpawnRate - 1
    requires s.player.rect.x == AgentStartX as real && s.player.rect.width == AgentSize
    ensures Tick(s, gapCenter).timer == 0
    ensures Tick(s, gapCenter).obstacles == [Scroll(NewObstacle(gapCenter), ObstacleSpeed)]
  {
    var o := NewObstacle(gapCenter);
    assert Spawned(s, gapCenter) == [o];
    LiveTick(s, gapCenter);
    var m := Marked(s.player.rect.Left(), [o], ObstacleSpeed);
    assert m == [Scroll(o, ObstacleSpeed)];
    assert Pruned(m) == m;
  }

  /** Counting down from an empty screen through quiet frames (jumps
      allowed): the frame on which the timer reaches SpawnRate, if the player
      is still alive after it, leaves exactly one obstacle, built around that
      frame's gap centre. From the start (timer 0) this is the 90th frame. */
  lemma {:induction false} FirstSpawn(s: GameState, inputs: seq<FrameInput>)
    requires forall k :: 0 <= k < |inputs| ==> ValidInput(inputs[k]) && Quiet(inputs[k])
    requires s.running && s.obstacles == [] && 0 <= s.timer && |inputs| > 0 && s.timer + |inputs| == SpawnRate
    requires s.player.rect.x == AgentStartX as real && s.player.rect.width == AgentSize
    ensures var r := Play(s, inputs);
      r.player.alive ==> r.timer == 0 && r.obstacles == [Scroll(NewObstacle(inputs[|inputs| - 1].gapCenter), ObstacleSpeed)]
    decreases |inputs|
  {
    QuietFrame(s, inputs[0]);
    if !s.player.alive {
      PlayDead(s, inputs);
    } else {
      var h := HandleEvents(s, inputs[0].events);
      if |inputs| == 1 {
        SpawnAtRate(h, inputs[0].gapCenter);
        assert Play(s, inputs) == Play(Frame(s, inputs[0]), []);
      } else {
        LiveTick(h, inputs[0].gapCenter);
        assert Spawned(h, inputs[0].gapCenter) == [];
        FirstSpawn(Frame(s, inputs[0]), inputs[1..]);
        assert inputs[1..][|inputs[1..]| - 1] == inputs[|inputs| - 1];
      }
    }
  }

  /** The game after n flapping frames from the start: the player climbs
      fourteen pixels a frame until the ceiling stops it on frame 22, then
      stays against it; no obstacle has appeared yet. */
  function Climbing(n: nat): (s: GameState)
    requires n < SpawnRate
    ensures s.player.alive && s.running && s.obstacles == [] && s.timer == n
  {
    var y := if n < 22 then 300 - 14 * n else 0;
    var v := if n == 0 then JumpStrength else if n < 22 then JumpStrength + Gravity else 0;
    GameState(PlayerState(Box(AgentStartX as real, y as real, AgentSize, AgentSize), v, n, true), [], n, true)
  }

  /** One flapping frame before the spawn moves the climb on by a frame. */
  lemma ClimbFrame(n: nat, input: FrameInput)
    requires n + 1 < SpawnRate && ValidInput(input) && Quiet(input) && SpaceDown in input.events
    ensures Frame(Climbing(n), input) == Climbing(n + 1)
  {
    var s := Climbing(n);
    QuietFrame(s, input);
    var h := HandleEvents(s, input.events);
    assert h.player == Jump(s.player);
    assert Spawned(h, input.gapCenter) == [];
    var p := Bounds(Fall(h.player));
    assert Sweep(p, [], []) == (p, []);
  }

  /** The spawning frame of the climb: the player, against the ceiling at
      x = 50, is far from the new obstacle at the right edge and lives. */
  lemma LastClimb(input: FrameInput)
    requires ValidInput(input) && Quiet(input) && SpaceDown in input.events
    ensures Frame(Climbing(SpawnRate - 1), input).player.alive
  {
    var s := Climbing(SpawnRate - 1);
    QuietFrame(s, input);
    var h := HandleEvents(s, input.events);
    var o := NewObstacle(input.gapCenter);
    assert Spawned(h, input.gapCenter) == [o];
    LiveTick(h, input.gapCenter);
    assert Bounds(Fall(h.player)).rect.Right() == 80.0;
    assert Clear(Bounds(Fall(h.player)).rect, [o]);
  }

  /** Flapping on every frame keeps the player alive up to and through the
      frame that spawns the first obstacle. */
  lemma {:induction false} FlappingSurvives(n: nat, inputs: seq<FrameInput>)
    requires n < SpawnRate && n + |inputs| <= SpawnRate
    requires forall k :: 0 <= k < |inputs| ==> ValidInput(inputs[k]) && Quiet(inputs[k]) && SpaceDown in inputs[k].events
    ensures Play(Climbing(n), inputs).player.alive
    decreases |inputs|
  {
    if inputs == [] {
    } else if n + 1 == SpawnRate {
      LastClimb(inputs[0]);
      assert Play(Climbing(n), inputs) == Play(Frame(Climbing(n), inputs[0]), []);
    } else {
      assert Play(Climbing(n), inputs) == Play(Frame(Climbing(n), inputs[0]), inputs[1..]);
      ClimbFrame(n, inputs[0]);
      FlappingSurvives(n + 1, inputs[1..]);
    }
  }

  /** NoSpawnBeforeRate describes a reachable game: flapping from the start
      for fewer than SpawnRate frames keeps the player alive with the screen
      still empty and the timer counting the frames. */
  lemma FlappingKeepsScreenEmpty(inputs: seq<FrameInput>)
    requires |inputs| < SpawnRate
    requires forall k :: 0 <= k < |inputs| ==> ValidInput(inputs[k]) && Quiet(inputs[k]) && SpaceDown in inputs[k].events
    ensures var r := Play(Initial(), inputs);
      r.player.alive && r.running && r.obstacles == [] && r.timer == |inputs|
  {
    assert Initial() == Climbing(0);
    FlappingSurvives(0, inputs);
    NoSpawnBeforeRate(Initial(), inputs);
    QuietPlayRuns(Initial(), inputs);
  }

  /** FirstSpawn describes a reachable game: flapping on each of the first
      SpawnRate frames from the start keeps the player alive, and the game
      then holds exactly the first obstacle, built around the last frame's gap
      centre and scrolled once, with the timer back at zero. */
  lemma FlappingMeetsFirstObstacle(inputs: seq<FrameInput>)
    requires |inputs| == SpawnRate
    requires forall k :: 0 <= k < |inputs| ==> ValidInput(inputs[k]) && Quiet(inputs[k]) && SpaceDown in inputs[k].events
    ensures var r := Play(Initial(), inputs);
      && r.player.alive && r.running && r.timer == 0
      && r.obstacles == [Scroll(NewObstacle(inputs[SpawnRate - 1].gapCenter), ObstacleSpeed)]
  {
    assert Initial() == Climbing(0);
    FlappingSurvives(0, inputs);
    FirstSpawn(Initial(), inputs);
    QuietPlayRuns(Initial(), inputs);
  }

  // ------------------------------------------------------- game over, restart

  /** With the player dead and R not held, a frame changes nothing but
      whether the loop keeps running. */
  lemma DeadGameWaits(s: GameState, input: FrameInput)
    requires ValidInput(input) && !s.player.alive && !input.restartHeld
    ensures Frame(s, input) == s.(running := s.running && Quit !in input.events && !input.quitHeld)
  {
  }

  /** With the player dead, R restarts from the initial state; the loop stops
      if the window was closed or Q was held in the same frame. */
  lemma RestartStartsOver(s: GameState, input: FrameInput)
    requires ValidInput(input) && !s.player.alive && input.restartHeld
    ensures Frame(s, input) == Initial().(running := s.running && Quit !in input.events && !input.quitHeld)
  {
  }

  /** Closing the window ends the loop after the frame that receives it. */
  lemma QuitEndsLoop(s: GameState, inputs: seq<FrameInput>)
    requires forall k :: 0 <= k < |inputs| ==> ValidInput(inputs[k])
    requires s.running && inputs != [] && Quit in inputs[0].events
    ensures Play(s, inputs) == Frame(s, inputs[0]) && !Play(s, inputs).running
  {
  }

  // ---------------------------------------------------------------- invariant

  /** What holds between frames: the timer is below SpawnRate, the player is
      a 30 by 30 square in the start column between the ceiling and the
      ground, and every obstacle is well shaped. */
  ghost predicate Good(s: GameState) {
    && 0 <= s.timer < SpawnRate
    && s.player.rect.x == AgentStartX as real
    && s.player.rect.width == AgentSize && s.player.rect.height == AgentSize
    && InField(s.player.rect)
    && forall o :: o in s.obstacles ==> WellShaped(o)
  }

  lemma InitialGood()
    ensures Good(Initial())
  {
  }

  /** Marking keeps every obstacle well shaped. */
  lemma MarkedWellShaped(left: real, obs: seq<ObstacleState>)
    requires forall o :: o in obs ==> WellShaped(o)
    ensures forall o :: o in Marked(left, obs, ObstacleSpeed) ==> WellShaped(o)
  {
    var m := Marked(left, obs, ObstacleSpeed);
    forall o | o in m
      ensures WellShaped(o)
    {
      var j :| 0 <= j < |m| && m[j] == o;
      ScrollKeepsShape(obs[j], ObstacleSpeed);
    }
  }

  lemma TickKeepsGood(s: GameState, gapCenter: int)
    requires GapInRange(gapCenter) && Good(s)
    ensures Good(Tick(s, gapCenter))
  {
    if s.player.alive {
      LiveTick(s, gapCenter);
      MarkedWellShaped(s.player.rect.Left(), Spawned(s, gapCenter));
    }
  }

  /** Every frame keeps the invariant. */
  lemma FrameKeepsGood(s: GameState, input: FrameInput)
    requires ValidInput(input) && Good(s)
    ensures Good(Frame(s, input))
  {
    TickKeepsGood(HandleEvents(s, input.events), input.gapCenter);
  }

  /** So does any run of the loop. */
  lemma {:induction false} PlayKeepsGood(s: GameState, inputs: seq<FrameInput>)
    requires forall k :: 0 <= k < |inputs| ==> ValidInput(inputs[k])
    requires Good(s)
    ensures Good(Play(s, inputs))
    decreases |inputs|
  {
    if s.running && inputs != [] {
      FrameKeepsGood(s, inputs[0]);
      PlayKeepsGood(Frame(s, inputs[0]), inputs[1..]);
    }
  }
}
