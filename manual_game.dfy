/** The manual game's objects: the player, and the game whose global state
    (player, obstacle list, spawn timer, running flag) the loop updates in
    place. Its obstacles are the trainer's obstacle objects, scrolled at the
    fixed ObstacleSpeed. Each method is proved to change the state exactly as
    the matching function of ManualSpec says. */
module ManualGame {
  import opened Geometry
  import opened Course
  import opened ManualSpec
  import opened HeadlessRects
  import opened TrainerObjects
  import opened Simulation

  class Player {
    const rect: AgentRect
    var velocity: int
    var score: int
    var alive: bool

    ghost predicate Valid()
      reads this, rect
    {
      rect.Valid()
    }

    function Model(): PlayerState
      reads this, rect
    {
      PlayerState(rect.Shape(), velocity, score, alive)
    }

    constructor (x: real, y: real)
      ensures Valid() && fresh(rect)
      ensures Model() == NewPlayer(x, y)
    {
      rect := new AgentRect(x, y, AgentSize, AgentSize);
      velocity := 0;
      score := 0;
      alive := true;
    }

    method Jump()
      modifies this
      ensures Model() == ManualSpec.Jump(old(Model()))
    {
      velocity := JumpStrength;
    }

    method Update()
      requires Valid()
      modifies this, rect
      ensures Valid() && Model() == Fall(old(Model()))
    {
      if alive {
        velocity := velocity + Gravity;
        rect.MoveIp(0.0, velocity as real);
        score := score + 1;
      }
    }
  }

  /** The ground check, then, only when it fails, the ceiling check. */
  method CheckBounds(player: Player)
    requires player.Valid()
    modifies player, player.rect
    ensures player.Valid() && player.Model() == Bounds(old(player.Model()))
  {
    if player.rect.bottom >= GroundLine as real {
      player.rect.y := (GroundLine - player.rect.height) as real;
      player.rect.UpdateBounds();
      player.alive := false;
    } else if player.rect.top <= 0.0 {
      player.rect.y := 0.0;
      player.rect.UpdateBounds();
      player.velocity := 0;
    }
  }

  /** One pass of the per-obstacle loop: scroll, collision with either
      pillar, scoring. */
  method VisitObstacle(player: Player, obstacle: Obstacle)
    requires player.Valid() && obstacle.Valid()
    modifies player, obstacle, obstacle.rectTop, obstacle.rectBottom
    ensures player.Valid() && obstacle.Valid()
    ensures (player.Model(), obstacle.Model()) == Visit(old(player.Model()), old(obstacle.Model()))
  {
    obstacle.Update(ObstacleSpeed);
    CheckCollision(player, obstacle);
    CheckScore(player, obstacle);
  }

  /** A player overlapping either pillar dies. */
  method CheckCollision(player: Player, obstacle: Obstacle)
    requires player.Valid() && obstacle.Valid()
    modifies player
    ensures player.Valid()
    ensures var p, o := old(player.Model()), obstacle.Model();
      player.Model() == p.(alive := p.alive && !Overlap(p.rect, o.top) && !Overlap(p.rect, o.bottom))
  {
    if player.rect.Colliderect(obstacle.rectTop) || player.rect.Colliderect(obstacle.rectBottom) {
      player.alive := false;
    }
  }

  /** Fifty points, once, when the player's left edge is past the top pillar. */
  method CheckScore(player: Player, obstacle: Obstacle)
    requires player.Valid() && obstacle.Valid()
    modifies player, obstacle
    ensures player.Valid() && obstacle.Valid()
    ensures var p, o := old(player.Model()), old(obstacle.Model());
      var flip := !o.passed && p.rect.Left() > o.top.Right();
      && obstacle.Model() == o.(passed := o.passed || flip)
      && player.Model() == p.(score := p.score + if flip then PassScore else 0)
  {
    if !obstacle.passed && player.rect.left > obstacle.rectTop.right {
      player.score := player.score + PassScore;
      obstacle.passed := true;
    }
  }

  /** Visiting the k-th obstacle of a separate list changes that obstacle
      and the player, and no other obstacle of the list. */
  method VisitAt(player: Player, obstacle: Obstacle, obs: seq<Obstacle>, ghost k: nat)
    requires player.Valid() && AllValid(obs) && Separate(obs) && k < |obs| && obs[k] == obstacle
    modifies player, obstacle, obstacle.rectTop, obstacle.rectBottom
    ensures player.Valid() && AllValid(obs)
    ensures (player.Model(), Models(obs)[k]) == Visit(old(player.Model()), old(Models(obs))[k])
    ensures Models(obs) == old(Models(obs))[k := Models(obs)[k]]
  {
    ghost var ms := Models(obs);
    VisitObstacle(player, obstacle);
    forall j | 0 <= j < |obs| && j != k
      ensures obs[j].Valid() && obs[j].Model() == ms[j]
    {
      assert if j < k then Apart(obs[j], obs[k]) else Apart(obs[k], obs[j]);
    }
  }

  /** The sweep over the unvisited part, one visit at a time. */
  lemma SweepStep(p: PlayerState, kept: seq<ObstacleState>, rest: seq<ObstacleState>, i: nat)
    requires i < |rest|
    ensures var v := Visit(p, rest[i]);
      Sweep(p, kept, rest[i..]) == Sweep(v.0, if v.1.top.Right() < 0.0 then kept else kept + [v.1], rest[i + 1..])
  {
    assert rest[i..][1..] == rest[i + 1..];
  }

  /** One pass of the per-obstacle loop at position i of the copy: the
      visit, then the removal from the live list when the obstacle has left
      the screen. kept holds the values of the visited obstacles still in the
      live list; before holds the values of the copy before the loop. */
  method SweepOne(player: Player, remaining: seq<Obstacle>, snapshot: seq<Obstacle>, i: nat,
                  ghost kept: seq<ObstacleState>, ghost before: seq<ObstacleState>)
    returns (remaining': seq<Obstacle>, ghost kept': seq<ObstacleState>)
    requires i < |snapshot| && |before| == |snapshot|
    requires player.Valid() && AllValid(remaining) && Separate(remaining)
    requires |kept| <= |remaining| && remaining[|kept|..] == snapshot[i..]
    requires Models(remaining) == kept + before[i..]
    modifies player, snapshot[i], snapshot[i].rectTop, snapshot[i].rectBottom
    ensures player.Valid() && AllValid(remaining') && Separate(remaining')
    ensures forall o :: o in remaining' ==> o in remaining
    ensures |kept'| <= |remaining'| && remaining'[|kept'|..] == snapshot[i + 1..]
    ensures Models(remaining') == kept' + before[i + 1..]
    ensures Sweep(player.Model(), kept', before[i + 1..]) == Sweep(old(player.Model()), kept, before[i..])
  {
    var obstacle := snapshot[i];
    ghost var k := |kept|;
    ghost var p := player.Model();
    SplitAtVisit(remaining, k, snapshot, i);
    ReplaceFirstOfRest(kept, before[i..], Visit(p, before[i]).1);
    VisitAt(player, obstacle, remaining, k);
    SweepStep(p, kept, before, i);
    if obstacle.rectTop.right < 0.0 {
      SeparateDistinct(remaining, k);
      RemoveAt(remaining, k);
      DropSeparate(remaining, k);
      DropModels(remaining, k);
      remaining' := RemoveFirst(remaining, obstacle);
      kept' := kept;
    } else {
      remaining' := remaining;
      kept' := kept + [obstacle.Model()];
    }
  }

  /** The per-obstacle loop: over a copy of the list, each obstacle is
      scrolled, checked for collision, scored, and removed from the live list
      once its top pillar is past the left edge. */
  method SweepObstacles(player: Player, obstacles: seq<Obstacle>) returns (remaining: seq<Obstacle>)
    requires player.Valid() && AllValid(obstacles) && Separate(obstacles)
    modifies player, set o | o in obstacles, set o | o in obstacles :: o.rectTop, set o | o in obstacles :: o.rectBottom
    ensures player.Valid() && AllValid(remaining) && Separate(remaining)
    ensures forall o :: o in remaining ==> o in obstacles
    ensures (player.Model(), Models(remaining)) == Sweep(old(player.Model()), [], old(Models(obstacles)))
  {
    var snapshot := obstacles;
    remaining := obstacles;
    ghost var before := Models(obstacles);
    ghost var p0 := player.Model();
    ghost var kept: seq<ObstacleState> := [];
    var i := 0;
    while i < |snapshot|
      invariant 0 <= i <= |snapshot|
      invariant player.Valid() && AllValid(remaining) && Separate(remaining)
      invariant forall o :: o in remaining ==> o in obstacles
      invariant |kept| <= |remaining| && remaining[|kept|..] == snapshot[i..]
      invariant Models(remaining) == kept + before[i..]
      invariant Sweep(player.Model(), kept, before[i..]) == Sweep(p0, [], before)
    {
      remaining, kept := SweepOne(player, remaining, snapshot, i, kept, before);
      i := i + 1;
    }
    assert before[i..] == [];
    assert Models(remaining) == kept;
  }

  /** The spawn timer's step: it counts the frame, and on reaching
      SpawnRate appends a new obstacle around gapCenter and starts again. */
  method AdvanceTimer(obstacles: seq<Obstacle>, obstacleTimer: int, gapCenter: int)
    returns (obstacles': seq<Obstacle>, obstacleTimer': int)
    requires AllValid(obstacles) && Separate(obstacles) && GapInRange(gapCenter)
    ensures AllValid(obstacles') && Separate(obstacles')
    ensures forall o :: o in obstacles' ==> o in obstacles || (fresh(o) && fresh(o.rectTop) && fresh(o.rectBottom))
    ensures obstacleTimer + 1 >= SpawnRate ==> Models(obstacles') == Models(obstacles) + [NewObstacle(gapCenter)] && obstacleTimer' == 0
    ensures obstacleTimer + 1 < SpawnRate ==> obstacles' == obstacles && obstacleTimer' == obstacleTimer + 1
  {
    obstacles' := obstacles;
    obstacleTimer' := obstacleTimer + 1;
    if obstacleTimer' >= SpawnRate {
      obstacles' := SpawnObstacle(obstacles, gapCenter);
      obstacleTimer' := 0;
    }
  }

  /** The events of a frame in order, on the player and the running flag:
      closing stops the loop, space makes a live player jump. */
  method ProcessEvents(player: Player, running: bool, events: seq<Event>) returns (running': bool)
    modifies player
    ensures running' == (running && Quit !in events)
    ensures player.Model() == if old(player.Model()).alive && SpaceDown in events then ManualSpec.Jump(old(player.Model()))
                              else old(player.Model())
  {
    running' := running;
    var i := 0;
    while i < |events|
      invariant 0 <= i <= |events|
      invariant running' == (running && Quit !in events[..i])
      invariant player.Model() == if old(player.Model()).alive && SpaceDown in events[..i] then ManualSpec.Jump(old(player.Model()))
                                  else old(player.Model())
    {
      assert events[..i + 1] == events[..i] + [events[i]];
      var event := events[i];
      if event == Quit {
        running' := false;
      }
      if player.alive && event == SpaceDown {
        player.Jump();
      }
      i := i + 1;
    }
    assert events[..i] == events;
  }

  /** The player's physics step, then the ground and ceiling checks. */
  method MovePlayer(player: Player)
    requires player.Valid()
    modifies player, player.rect
    ensures player.Valid() && player.Model() == Bounds(Fall(old(player.Model())))
  {
    player.Update();
    CheckBounds(player);
  }

  /** A live frame, step by step: physics with the ground and ceiling, the
      timer's step, then the sweep. */
  lemma TickSteps(s: GameState, gapCenter: int, obs: seq<ObstacleState>, timer: int)
    requires GapInRange(gapCenter) && s.player.alive
    requires s.timer + 1 >= SpawnRate ==> obs == s.obstacles + [NewObstacle(gapCenter)] && timer == 0
    requires s.timer + 1 < SpawnRate ==> obs == s.obstacles && timer == s.timer + 1
    ensures var swept := Sweep(Bounds(Fall(s.player)), [], obs);
      Tick(s, gapCenter) == GameState(swept.0, swept.1, timer, s.running)
  {
  }

  /** The logic block of a frame with a live player, on the player and the
      obstacle list: physics, ground and ceiling, spawn timer, sweep. */
  method LiveTick(player: Player, obstacles: seq<Obstacle>, obstacleTimer: int, gapCenter: int, ghost running: bool)
    returns (obstacles': seq<Obstacle>, obstacleTimer': int)
    requires player.Valid() && AllValid(obstacles) && Separate(obstacles)
    requires player.alive && GapInRange(gapCenter)
    modifies player, player.rect, set o | o in obstacles, set o | o in obstacles :: o.rectTop, set o | o in obstacles :: o.rectBottom
    ensures player.Valid() && AllValid(obstacles') && Separate(obstacles')
    ensures forall o :: o in obstacles' ==> o in obstacles || (fresh(o) && fresh(o.rectTop) && fresh(o.rectBottom))
    ensures GameState(player.Model(), Models(obstacles'), obstacleTimer', running)
            == Tick(old(GameState(player.Model(), Models(obstacles), obstacleTimer, running)), gapCenter)
  {
    ghost var s := GameState(player.Model(), Models(obstacles), obstacleTimer, running);
    MovePlayer(player);
    obstacles', obstacleTimer' := AdvanceTimer(obstacles, obstacleTimer, gapCenter);
    TickSteps(s, gapCenter, Models(obstacles'), obstacleTimer');
    obstacles' := SweepObstacles(player, obstacles');
  }

  class Game {
    var agent: Player
    var obstacles: seq<Obstacle>
    var obstacleTimer: int
    var running: bool

    ghost predicate Valid()
      reads this, agent, agent.rect, set o | o in obstacles :: o.rectTop, set o | o in obstacles :: o.rectBottom
    {
      agent.Valid() && AllValid(obstacles) && Separate(obstacles)
    }

    ghost function Model(): GameState
      reads this, agent, agent.rect, set o | o in obstacles, set o | o in obstacles :: o.rectTop,
            set o | o in obstacles :: o.rectBottom
    {
      GameState(agent.Model(), Models(obstacles), obstacleTimer, running)
    }

    /** The program's start: a jumping player at (50, 300), no obstacles,
        the timer at zero, the loop running. */
    constructor ()
      ensures Valid() && Model() == Initial()
    {
      agent := new Player(AgentStartX as real, AgentStartY as real);
      obstacles := [];
      obstacleTimer := 0;
      running := true;
      new;
      agent.Jump();
    }

    /** The restart: a new jumping player, no obstacles, the timer at zero. */
    method Reset()
      modifies this
      ensures fresh(agent) && fresh(agent.rect) && obstacles == []
      ensures Valid() && Model() == ManualSpec.Reset(old(Model()))
    {
      agent := new Player(AgentStartX as real, AgentStartY as real);
      agent.Jump();
      obstacles := [];
      obstacleTimer := 0;
    }

    /** The frame's events in order: closing stops the loop, space makes a
        live player jump. */
    method HandleEvents(events: seq<Event>)
      requires Valid()
      modifies this, agent
      ensures agent == old(agent) && obstacles == old(obstacles)
      ensures Valid() && Model() == ManualSpec.HandleEvents(old(Model()), events)
    {
      running := ProcessEvents(agent, running, events);
    }

    /** The logic block of a frame; nothing happens with the player dead. */
    method Tick(gapCenter: int)
      requires Valid() && GapInRange(gapCenter)
      modifies this, agent, agent.rect, set o | o in obstacles, set o | o in obstacles :: o.rectTop,
               set o | o in obstacles :: o.rectBottom
      ensures agent == old(agent)
      ensures forall o :: o in obstacles ==> o in old(obstacles) || (fresh(o) && fresh(o.rectTop) && fresh(o.rectBottom))
      ensures Valid() && Model() == ManualSpec.Tick(old(Model()), gapCenter)
    {
      if agent.alive {
        obstacles, obstacleTimer := LiveTick(agent, obstacles, obstacleTimer, gapCenter, running);
      }
    }

    /** The keys read on the game-over screen: Q stops the loop, R restarts. */
    method GameOver(quitHeld: bool, restartHeld: bool)
      requires Valid()
      modifies this
      ensures agent == old(agent) || (fresh(agent) && fresh(agent.rect) && obstacles == [])
      ensures agent == old(agent) ==> obstacles == old(obstacles)
      ensures Valid() && Model() == ManualSpec.GameOver(old(Model()), quitHeld, restartHeld)
    {
      if !agent.alive {
        if quitHeld {
          running := false;
        }
        if restartHeld {
          Reset();
        }
      }
    }

    /** One pass of the loop: events, logic, game-over keys. */
    method Step(input: FrameInput)
      requires Valid() && ValidInput(input)
      modifies this, agent, agent.rect, set o | o in obstacles, set o | o in obstacles :: o.rectTop,
               set o | o in obstacles :: o.rectBottom
      ensures agent == old(agent) || (fresh(agent) && fresh(agent.rect))
      ensures forall o :: o in obstacles ==> o in old(obstacles) || (fresh(o) && fresh(o.rectTop) && fresh(o.rectBottom))
      ensures Valid() && Model() == Frame(old(Model()), input)
    {
      HandleEvents(input.events);
      Tick(input.gapCenter);
      GameOver(input.quitHeld, input.restartHeld);
    }

    /** The loop: one pass per input while the game is running. */
    method GameLoop(inputs: seq<FrameInput>)
      requires Valid() && forall k :: 0 <= k < |inputs| ==> ValidInput(inputs[k])
      modifies this, agent, agent.rect, set o | o in obstacles, set o | o in obstacles :: o.rectTop,
               set o | o in obstacles :: o.rectBottom
      ensures Valid() && Model() == Play(old(Model()), inputs)
    {
      ghost var goal := Play(Model(), inputs);
      var i := 0;
      while running && i < |inputs|
        invariant 0 <= i <= |inputs| && Valid()
        invariant Play(Model(), inputs[i..]) == goal
        invariant agent == old(agent) || (fresh(agent) && fresh(agent.rect))
        invariant forall o :: o in obstacles ==> o in old(obstacles) || (fresh(o) && fresh(o.rectTop) && fresh(o.rectBottom))
      {
        assert inputs[i..][1..] == inputs[i + 1..];
        Step(inputs[i]);
        i := i + 1;
      }
    }
  }
}
