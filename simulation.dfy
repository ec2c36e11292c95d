/** One headless life of an agent: the frame loop over the agent object and a
    mutable list of obstacle objects, proved to end in the state that
    TrainerSpec.Simulate describes. */
module Simulation {
  import opened Geometry
  import opened Course
  import opened TrainerSpec
  import opened HeadlessRects
  import opened TrainerObjects

  /** The list without the first occurrence of x (Python's list.remove,
      where obstacles compare by identity). */
  function RemoveFirst<T(==)>(s: seq<T>, x: T): (r: seq<T>)
    ensures x in s ==> |r| == |s| - 1
    ensures x !in s ==> r == s
  {
    if s == [] then []
    else if s[0] == x then s[1..]
    else [s[0]] + RemoveFirst(s[1..], x)
  }

  lemma {:induction false} RemoveFirstAfter<T>(p: seq<T>, x: T, q: seq<T>)
    requires x !in p
    ensures RemoveFirst(p + [x] + q, x) == p + q
  {
    var s := p + [x] + q;
    if p == [] {
      assert s == [x] + q && s[0] == x && s[1..] == q;
    } else {
      assert s[0] == p[0] != x;
      assert s[1..] == p[1..] + [x] + q;
      RemoveFirstAfter(p[1..], x, q);
      assert RemoveFirst(s, x) == [p[0]] + (p[1..] + q);
      ConsAppend(p, q);
    }
  }

  lemma ConsAppend<T>(p: seq<T>, q: seq<T>)
    requires p != []
    ensures [p[0]] + (p[1..] + q) == p + q
  {
    assert p == [p[0]] + p[1..];
  }

  /** Collision with an obstacle's pillars, then the ground and the ceiling. */
  method CheckCollision(agent: Agent, obstacle: Obstacle)
    requires agent.Valid() && obstacle.Valid()
    modifies agent
    ensures agent.Valid()
    ensures agent.Model() == Collide(old(agent.Model()), obstacle.Model())
  {
    if agent.rect.Colliderect(obstacle.rectTop) || agent.rect.Colliderect(obstacle.rectBottom) {
      agent.alive := false;
    }
    if agent.rect.bottom >= GroundLine as real || agent.rect.top <= 0.0 {
      agent.alive := false;
    }
  }

  /** Counts the obstacle once the agent's left edge is past its top pillar. */
  method CheckScore(agent: Agent, obstacle: Obstacle)
    requires agent.Valid() && obstacle.Valid()
    modifies agent, obstacle
    ensures agent.Valid() && obstacle.Valid()
    ensures (agent.Model(), obstacle.Model()) == Score(old(agent.Model()), old(obstacle.Model()))
  {
    if !obstacle.passed && agent.rect.left > obstacle.rectTop.right {
      agent.obstaclesPassed := agent.obstaclesPassed + 1;
      obstacle.passed := true;
    }
  }

  /** One pass of the per-obstacle loop: scroll, collision, ground and
      ceiling, scoring. */
  method VisitObstacle(agent: Agent, obstacle: Obstacle, speed: real)
    requires agent.Valid() && obstacle.Valid()
    modifies agent, obstacle, obstacle.rectTop, obstacle.rectBottom
    ensures agent.Valid() && obstacle.Valid()
    ensures (agent.Model(), obstacle.Model()) == Visit(old(agent.Model()), old(obstacle.Model()), speed)
  {
    obstacle.Update(speed);
    CheckCollision(agent, obstacle);
    CheckScore(agent, obstacle);
  }

  /** Removing the k-th entry by identity drops exactly that entry when no
      earlier entry is the same. */
  lemma RemoveAt<T>(s: seq<T>, k: nat)
    requires k < |s| && forall j :: 0 <= j < k ==> s[j] != s[k]
    ensures RemoveFirst(s, s[k]) == s[..k] + s[k + 1..]
  {
    NotInPrefix(s, k);
    SplitAround(s, k);
    RemoveFirstAfter(s[..k], s[k], s[k + 1..]);
  }

  lemma NotInPrefix<T>(s: seq<T>, k: nat)
    requires k < |s| && forall j :: 0 <= j < k ==> s[j] != s[k]
    ensures s[k] !in s[..k]
  {
    assert forall j :: 0 <= j < k ==> s[..k][j] == s[j];
  }

  lemma SplitAround<T>(s: seq<T>, k: nat)
    requires k < |s|
    ensures s == s[..k] + [s[k]] + s[k + 1..]
  {
  }

  /** In a separate list no obstacle occurs twice. */
  lemma SeparateDistinct(s: seq<Obstacle>, k: nat)
    requires Separate(s) && k < |s|
    ensures forall j :: 0 <= j < k ==> s[j] != s[k]
  {
    forall j | 0 <= j < k
      ensures s[j] != s[k]
    {
      assert Apart(s[j], s[k]);
    }
  }

  /** Dropping the k-th obstacle keeps the others separate. */
  lemma DropSeparate(s: seq<Obstacle>, k: nat)
    requires Separate(s) && k < |s|
    ensures Separate(s[..k] + s[k + 1..])
  {
    var t := s[..k] + s[k + 1..];
    forall j, l | 0 <= j < l < |t|
      ensures Apart(t[j], t[l])
    {
      var j', l' := if j < k then j else j + 1, if l < k then l else l + 1;
      assert t[j] == s[j'] && t[l] == s[l'] && j' < l';
    }
  }

  /** Dropping the k-th obstacle keeps the others valid and drops its value
      from the list's values. */
  lemma DropModels(s: seq<Obstacle>, k: nat)
    requires AllValid(s) && k < |s|
    ensures AllValid(s[..k] + s[k + 1..])
    ensures Models(s[..k] + s[k + 1..]) == Models(s)[..k] + Models(s)[k + 1..]
    ensures forall o :: o in s[..k] + s[k + 1..] ==> o in s
  {
    var t := s[..k] + s[k + 1..];
    var ms := Models(s);
    var expected := ms[..k] + ms[k + 1..];
    var mt := Models(t);
    forall j | 0 <= j < |t|
      ensures t[j] == s[if j < k then j else j + 1]
      ensures expected[j] == ms[if j < k then j else j + 1]
    {
    }
    forall j | 0 <= j < |t|
      ensures t[j].Valid() && mt[j] == expected[j]
    {
      var j' := if j < k then j else j + 1;
      assert t[j] == s[j'] && expected[j] == ms[j'];
    }
    assert |mt| == |expected|;
  }

  /** Replacing the first value of the unvisited part, then keeping or
      dropping it. */
  lemma ReplaceFirstOfRest<T>(kept: seq<T>, rest: seq<T>, x: T)
    requires rest != []
    ensures (kept + rest)[|kept|] == rest[0]
    ensures (kept + rest)[|kept| := x] == kept + [x] + rest[1..]
    ensures var ms := (kept + rest)[|kept| := x]; ms[..|kept|] + ms[|kept| + 1..] == kept + rest[1..]
  {
    var ms := (kept + rest)[|kept| := x];
    assert ms == kept + [x] + rest[1..];
    assert ms[..|kept|] == kept;
    assert ms[|kept| + 1..] == rest[1..];
  }

  /** A live list whose unvisited tail is the copy's unvisited tail, split
      at the obstacle being visited. */
  lemma SplitAtVisit<T>(live: seq<T>, k: nat, copy: seq<T>, i: nat)
    requires k <= |live| && i < |copy| && live[k..] == copy[i..]
    ensures k < |live| && live[k] == copy[i]
    ensures live[k + 1..] == copy[i + 1..]
    ensures (live[..k] + live[k + 1..])[k..] == copy[i + 1..]
  {
    assert live[k..][0] == copy[i..][0];
    assert live[k..][1..] == copy[i..][1..];
  }

  /** The sweep over the unvisited part, one visit at a time. */
  lemma SweepStep(a: AgentState, kept: seq<ObstacleState>, rest: seq<ObstacleState>, i: nat, speed: real)
    requires i < |rest|
    ensures var v := Visit(a, rest[i], speed);
      Sweep(a, kept, rest[i..], speed) == Sweep(v.0, if v.1.top.Right() < 0.0 then kept else kept + [v.1], rest[i + 1..], speed)
  {
    assert rest[i..][1..] == rest[i + 1..];
  }

  /** Visiting the k-th obstacle of a separate list changes that obstacle
      and the agent, and no other obstacle of the list. */
  method VisitAt(agent: Agent, obstacle: Obstacle, obs: seq<Obstacle>, ghost k: nat, speed: real)
    requires agent.Valid() && AllValid(obs) && Separate(obs) && k < |obs| && obs[k] == obstacle
    modifies agent, obstacle, obstacle.rectTop, obstacle.rectBottom
    ensures agent.Valid() && AllValid(obs)
    ensures (agent.Model(), Models(obs)[k]) == Visit(old(agent.Model()), old(Models(obs))[k], speed)
    ensures Models(obs) == old(Models(obs))[k := Models(obs)[k]]
  {
    ghost var ms := Models(obs);
    VisitObstacle(agent, obstacle, speed);
    forall j | 0 <= j < |obs| && j != k
      ensures obs[j].Valid() && obs[j].Model() == ms[j]
    {
      assert if j < k then Apart(obs[j], obs[k]) else Apart(obs[k], obs[j]);
    }
  }

  /** One pass of the per-obstacle loop at position i of the copy: the
      visit, then the removal from the live list when the obstacle has left
      the screen. kept holds the values of the visited obstacles still in the
      live list; before holds the values of the copy before the loop. */
  method SweepOne(agent: Agent, remaining: seq<Obstacle>, snapshot: seq<Obstacle>, i: nat,
                  ghost kept: seq<ObstacleState>, ghost before: seq<ObstacleState>, speed: real)
    returns (remaining': seq<Obstacle>, ghost kept': seq<ObstacleState>)
    requires i < |snapshot| && |before| == |snapshot|
    requires agent.Valid() && AllValid(remaining) && Separate(remaining)
    requires |kept| <= |remaining| && remaining[|kept|..] == snapshot[i..]
    requires Models(remaining) == kept + before[i..]
    modifies agent, snapshot[i], snapshot[i].rectTop, snapshot[i].rectBottom
    ensures agent.Valid() && AllValid(remaining') && Separate(remaining')
    ensures forall o :: o in remaining' ==> o in remaining
    ensures |kept'| <= |remaining'| && remaining'[|kept'|..] == snapshot[i + 1..]
    ensures Models(remaining') == kept' + before[i + 1..]
    ensures Sweep(agent.Model(), kept', before[i + 1..], speed) == Sweep(old(agent.Model()), kept, before[i..], speed)
  {
    var obstacle := snapshot[i];
    ghost var k := |kept|;
    ghost var a := agent.Model();
    SplitAtVisit(remaining, k, snapshot, i);
    ReplaceFirstOfRest(kept, before[i..], Visit(a, before[i], speed).1);
    VisitAt(agent, obstacle, remaining, k, speed);
    SweepStep(a, kept, before, i, speed);
    if obstacle.rectTop.right < 0.0 {
      SeparateDistinct(remaining, k);
      RemoveAt(remaining, k);
      DropSeparate(remaining, k);
      DropModels(remaining, k);
      remaining' := RemoveFirst(remaining, obstacle);
      kept' := kept;
    } else {
      remaining' := remaining;
      kept' := kept + [obstacle.Model()];
    }
  }

  /** The per-obstacle loop of one frame. It iterates over a copy of the
      list; each obstacle is scrolled, checked for collision, for the ground
      and the ceiling, scored, and removed from the live list once its top
      pillar is past the left edge. */
  method SweepObstacles(agent: Agent, obstacles: seq<Obstacle>, speed: real) returns (remaining: seq<Obstacle>)
    requires agent.Valid() && AllValid(obstacles) && Separate(obstacles)
    modifies agent, set o | o in obstacles, set o | o in obstacles :: o.rectTop, set o | o in obstacles :: o.rectBottom
    ensures agent.Valid() && AllValid(remaining) && Separate(remaining)
    ensures forall o :: o in remaining ==> o in obstacles
    ensures (agent.Model(), Models(remaining)) == Sweep(old(agent.Model()), [], old(Models(obstacles)), speed)
  {
    var snapshot := obstacles;
    remaining := obstacles;
    ghost var before := Models(obstacles);
    ghost var a0 := agent.Model();
    ghost var kept: seq<ObstacleState> := [];
    var i := 0;
    while i < |snapshot|
      invariant 0 <= i <= |snapshot|
      invariant agent.Valid() && AllValid(remaining) && Separate(remaining)
      invariant forall o :: o in remaining ==> o in obstacles
      invariant |kept| <= |remaining| && remaining[|kept|..] == snapshot[i..]
      invariant Models(remaining) == kept + before[i..]
      invariant Sweep(agent.Model(), kept, before[i..], speed) == Sweep(a0, [], before, speed)
    {
      remaining, kept := SweepOne(agent, remaining, snapshot, i, kept, before, speed);
      i := i + 1;
    }
    assert before[i..] == [];
    assert Models(remaining) == kept;
  }

  /** Appending an obstacle apart from all others keeps the list valid and
      separate. */
  lemma Append(s: seq<Obstacle>, o: Obstacle)
    requires AllValid(s) && Separate(s) && o.Valid()
    requires forall j :: 0 <= j < |s| ==> Apart(s[j], o)
    ensures AllValid(s + [o]) && Separate(s + [o])
    ensures Models(s + [o]) == Models(s) + [o.Model()]
  {
    var t := s + [o];
    forall j, l | 0 <= j < l < |t|
      ensures Apart(t[j], t[l])
    {
      if l == |s| {
        assert t[j] == s[j] && t[l] == o;
      } else {
        assert t[j] == s[j] && t[l] == s[l];
      }
    }
  }

  /** Builds a new obstacle at the right edge and appends it. */
  method SpawnObstacle(obstacles: seq<Obstacle>, gapCenter: int) returns (obstacles': seq<Obstacle>)
    requires AllValid(obstacles) && Separate(obstacles) && GapInRange(gapCenter)
    ensures AllValid(obstacles') && Separate(obstacles')
    ensures Models(obstacles') == Models(obstacles) + [NewObstacle(gapCenter)]
    ensures forall o :: o in obstacles' ==> o in obstacles || (fresh(o) && fresh(o.rectTop) && fresh(o.rectBottom))
  {
    var o := new Obstacle(gapCenter);
    Append(obstacles, o);
    obstacles' := obstacles + [o];
  }

  /** The agent's decision against the current obstacles, then its physics step. */
  method MoveAgent(agent: Agent, obstacles: seq<Obstacle>)
    requires agent.Valid() && AllValid(obstacles)
    modifies agent, agent.rect
    ensures agent.Valid() && AllValid(obstacles)
    ensures agent.Model() == Fall(Decide(old(agent.Model()), Models(obstacles)))
    ensures Models(obstacles) == old(Models(obstacles))
  {
    agent.DecideAction(obstacles);
    agent.Update();
  }

  /** The spawn timer's step: it counts the frame, and when the count is a
      multiple of SpawnRate appends a new obstacle around gapCenter and
      starts again. */
  method AdvanceTimer(obstacles: seq<Obstacle>, obstacleTimer: int, gapCenter: int)
    returns (obstacles': seq<Obstacle>, obstacleTimer': int)
    requires AllValid(obstacles) && Separate(obstacles) && GapInRange(gapCenter)
    ensures AllValid(obstacles') && Separate(obstacles')
    ensures forall o :: o in obstacles' ==> o in obstacles || (fresh(o) && fresh(o.rectTop) && fresh(o.rectBottom))
    ensures (obstacleTimer + 1) % SpawnRate == 0 ==>
              Models(obstacles') == Models(obstacles) + [NewObstacle(gapCenter)] && obstacleTimer' == 0
    ensures (obstacleTimer + 1) % SpawnRate != 0 ==> obstacles' == obstacles && obstacleTimer' == obstacleTimer + 1
  {
    obstacles' := obstacles;
    obstacleTimer' := obstacleTimer + 1;
    if obstacleTimer' % SpawnRate == 0 {
      obstacles' := SpawnObstacle(obstacles, gapCenter);
      obstacleTimer' := 0;
    }
  }

  /** One frame of the loop: speed, decision, physics, spawn timer, sweep. */
  method PlayFrame(agent: Agent, obstacles: seq<Obstacle>, obstacleTimer: int, gaps: seq<int>, maxFrames: nat)
    returns (obstacles': seq<Obstacle>, obstacleTimer': int)
    requires agent.Valid() && AllValid(obstacles) && Separate(obstacles)
    requires agent.alive && agent.framesSurvived < maxFrames && GapsCover(gaps, maxFrames)
    modifies agent, agent.rect, set o | o in obstacles, set o | o in obstacles :: o.rectTop, set o | o in obstacles :: o.rectBottom
    ensures agent.Valid() && AllValid(obstacles') && Separate(obstacles')
    ensures forall o :: o in obstacles' ==> o in obstacles || (fresh(o) && fresh(o.rectTop) && fresh(o.rectBottom))
    ensures Sim(agent.Model(), Models(obstacles'), obstacleTimer')
            == Frame(old(Sim(agent.Model(), Models(obstacles), obstacleTimer)), gaps, maxFrames)
  {
    ghost var s := Sim(agent.Model(), Models(obstacles), obstacleTimer);
    var currentSpeed := Speed(agent.obstaclesPassed);
    MoveAgent(agent, obstacles);
    ghost var a1 := Fall(Decide(s.agent, s.obstacles));
    var gapCenter := gaps[agent.framesSurvived / SpawnRate];
    obstacles', obstacleTimer' := AdvanceTimer(obstacles, obstacleTimer, gapCenter);
    FrameSteps(s, gaps, maxFrames, a1, Models(obstacles'), obstacleTimer');
    obstacles' := SweepObstacles(agent, obstacles', currentSpeed);
  }

  /** The headless life of an agent, up to maxFrames frames. gaps[k] is the
      gap centre drawn for the k-th obstacle the life builds. Returns the
      agent's fitness. */
  method SimulateHeadless(agent: Agent, gaps: seq<int>, maxFrames: nat) returns (fitness: int)
    requires agent.Valid() && GapsCover(gaps, maxFrames)
    modifies agent, agent.rect
    ensures agent.Valid()
    ensures agent.Model() == Simulate(old(agent.Model()), gaps, maxFrames)
    ensures fitness == Fitness(agent.Model())
  {
    agent.alive := true;
    agent.framesSurvived := 0;
    agent.obstaclesPassed := 0;
    var first := new Obstacle(gaps[0]);
    var obstacles := [first];
    var obstacleTimer := 0;
    ghost var goal := Simulate(old(agent.Model()), gaps, maxFrames);
    assert Sim(agent.Model(), Models(obstacles), obstacleTimer) == Start(old(agent.Model()), gaps[0]);
    while agent.alive && agent.framesSurvived < maxFrames
      invariant agent.Valid() && AllValid(obstacles) && Separate(obstacles)
      invariant forall o :: o in obstacles ==> fresh(o) && fresh(o.rectTop) && fresh(o.rectBottom)
      invariant agent.framesSurvived <= maxFrames
      invariant Run(Sim(agent.Model(), Models(obstacles), obstacleTimer), gaps, maxFrames).agent == goal
      decreases maxFrames - agent.framesSurvived
    {
      obstacles, obstacleTimer := PlayFrame(agent, obstacles, obstacleTimer, gaps, maxFrames);
    }
    fitness := Fitness(agent.Model());
  }
}
