/** The manual game's rules as functions on values: the player's physics,
    the ground and ceiling checks, one obstacle sweep at the fixed speed, the
    spawn timer, the events of a frame, the game-over keys and the restart.
    The classes in ManualGame are proved to follow these definitions. */
module ManualSpec {
  import opened Geometry
  import opened Course

  /** The manual game scrolls its obstacles at a fixed five pixels a frame. */
  const ObstacleSpeed: real := 5.0
  /** Points for getting past an obstacle. */
  const PassScore: int := 50

  /** The player: its rectangle, vertical velocity, score and whether it is alive. */
  datatype PlayerState = PlayerState(rect: Box, velocity: int, score: int, alive: bool)

  /** A player as built by the constructor: a live 30 by 30 square at
      (x, y), at rest, with no score. */
  function NewPlayer(x: real, y: real): (p: PlayerState)
    ensures p.alive && p.velocity == 0 && p.score == 0
    ensures p.rect.Left() == x && p.rect.Top() == y && p.rect.width == AgentSize && p.rect.height == AgentSize
  {
    PlayerState(Box(x, y, AgentSize, AgentSize), 0, 0, true)
  }

  /** A jump sets the vertical velocity to the jump impulse and nothing else. */
  function Jump(p: PlayerState): (r: PlayerState)
    ensures r.velocity == JumpStrength
    ensures r.(velocity := p.velocity) == p
  {
    p.(velocity := JumpStrength)
  }

  /** One physics step: a live player gains gravity, moves by its new
      velocity and earns a point for the frame; a dead player does not change. */
  function Fall(p: PlayerState): (r: PlayerState)
    ensures !p.alive ==> r == p
    ensures p.alive ==> r.velocity == p.velocity + Gravity && r.score == p.score + 1
    ensures p.alive ==> r.rect == Moved(p.rect, 0.0, r.velocity as real)
    ensures r.alive == p.alive
  {
    if p.alive then
      var v := p.velocity + Gravity;
      p.(velocity := v, rect := Moved(p.rect, 0.0, v as real), score := p.score + 1)
    else p
  }

  /** Between the ceiling and the ground line. */
  ghost predicate InField(b: Box) {
    0.0 <= b.Top() && b.Bottom() <= GroundLine as real
  }

  /** The ground check, and only when it fails the ceiling check: a player
      touching the ground is put on it and dies; one touching the ceiling is
      put against it and stops, and lives. */
  function Bounds(p: PlayerState): (r: PlayerState)
    ensures 0 <= p.rect.height <= GroundLine ==> InField(r.rect)
    ensures r.rect.x == p.rect.x && r.rect.width == p.rect.width && r.rect.height == p.rect.height
    ensures r.score == p.score
    ensures r.alive == (p.alive && p.rect.Bottom() < GroundLine as real)
    ensures p.rect.Bottom() >= GroundLine as real ==> r.rect.Bottom() == GroundLine as real && r.velocity == p.velocity
    ensures p.rect.Bottom() < GroundLine as real && p.rect.Top() <= 0.0 ==> r.rect.Top() == 0.0 && r.velocity == 0
    ensures InField(p.rect) && p.rect.Bottom() < GroundLine as real && p.rect.Top() > 0.0 ==> r == p
  {
    if p.rect.Bottom() >= GroundLine as real then
      p.(rect := p.rect.(y := (GroundLine - p.rect.height) as real), alive := false)
    else if p.rect.Top() <= 0.0 then
      p.(rect := p.rect.(y := 0.0), velocity := 0)
    else p
  }

  /** One pass of the per-obstacle loop: scroll, collision with either
      pillar, then fifty points the first time the player's left edge is past
      the top pillar's right edge. */
  function Visit(p: PlayerState, o: ObstacleState): (r: (PlayerState, ObstacleState))
    ensures var m := Scroll(o, ObstacleSpeed);
      && r.1 == m.(passed := m.passed || p.rect.Left() > m.top.Right())
      && r.0.rect == p.rect && r.0.velocity == p.velocity
      && r.0.alive == (p.alive && !Overlap(p.rect, m.top) && !Overlap(p.rect, m.bottom))
      && r.0.score == p.score + (if !m.passed && r.1.passed then PassScore else 0)
  {
    var moved := Scroll(o, ObstacleSpeed);
    var p1 := if Overlap(p.rect, moved.top) || Overlap(p.rect, moved.bottom) then p.(alive := false) else p;
    if !moved.passed && p1.rect.Left() > moved.top.Right() then
      (p1.(score := p1.score + PassScore), moved.(passed := true))
    else (p1, moved)
  }

  /** The sweep over a copy of the list: visits every obstacle in order and
      keeps, after kept, those whose top pillar is not past the left edge. */
  function Sweep(p: PlayerState, kept: seq<ObstacleState>, rest: seq<ObstacleState>): (r: (PlayerState, seq<ObstacleState>))
    ensures r.0.rect == p.rect && r.0.velocity == p.velocity
    ensures r.0.alive ==> p.alive
    ensures r.0.score >= p.score
    ensures |r.1| <= |kept| + |rest|
    decreases |rest|
  {
    if rest == [] then (p, kept)
    else
      var v := Visit(p, rest[0]);
      Sweep(v.0, if v.1.top.Right() < 0.0 then kept else kept + [v.1], rest[1..])
  }

  /** The game's global state: the player, the obstacle list, the spawn
      timer and whether the loop is still running. */
  datatype GameState = GameState(player: PlayerState, obstacles: seq<ObstacleState>, timer: int, running: bool)

  /** The player placed at the start: at (50, 300), already jumping. */
  function StartPlayer(): (p: PlayerState)
    ensures p.alive && p.score == 0 && p.velocity == JumpStrength
    ensures p.rect == Box(AgentStartX as real, AgentStartY as real, AgentSize, AgentSize)
  {
    Jump(NewPlayer(AgentStartX as real, AgentStartY as real))
  }

  /** The state the program starts in. */
  function Initial(): (s: GameState)
    ensures s.player == StartPlayer() && s.obstacles == [] && s.timer == 0 && s.running
  {
    GameState(StartPlayer(), [], 0, true)
  }

  /** The restart: a new jumping player, no obstacles, the timer at zero;
      whether the loop runs is untouched. */
  function Reset(s: GameState): (r: GameState)
    ensures r == Initial().(running := s.running)
  {
    GameState(StartPlayer(), [], 0, s.running)
  }

  /** The obstacle list after the spawn timer's step: a new obstacle around
      gapCenter is appended when the timer reaches SpawnRate. */
  function Spawned(s: GameState, gapCenter: int): (r: seq<ObstacleState>)
    requires GapInRange(gapCenter)
    ensures |r| == |s.obstacles| + (if s.timer + 1 >= SpawnRate then 1 else 0)
    ensures r[..|s.obstacles|] == s.obstacles
    ensures |r| > |s.obstacles| ==> r[|s.obstacles|] == NewObstacle(gapCenter)
  {
    if s.timer + 1 >= SpawnRate then s.obstacles + [NewObstacle(gapCenter)] else s.obstacles
  }

  /** The logic block of one frame. A live player falls, is checked against
      the ground and the ceiling, the timer advances and may spawn, and every
      obstacle is swept; with a dead player nothing changes. */
  function Tick(s: GameState, gapCenter: int): (r: GameState)
    requires GapInRange(gapCenter)
    ensures !s.player.alive ==> r == s
    ensures r.running == s.running
  {
    if !s.player.alive then s
    else
      var p := Bounds(Fall(s.player));
      var swept := Sweep(p, [], Spawned(s, gapCenter));
      GameState(swept.0, swept.1, if s.timer + 1 >= SpawnRate then 0 else s.timer + 1, s.running)
  }

  /** The events the loop reacts to: closing the window and the space key. */
  datatype Event = Quit | SpaceDown | OtherEvent

  /** One event: closing stops the loop; space makes a live player jump;
      neither touches the obstacles or the timer. */
  function HandleEvent(s: GameState, e: Event): (r: GameState)
    ensures r.obstacles == s.obstacles && r.timer == s.timer
    ensures r.running == (s.running && e != Quit)
    ensures r.player == if s.player.alive && e == SpaceDown then Jump(s.player) else s.player
  {
    var s1 := if e == Quit then s.(running := false) else s;
    if s1.player.alive && e == SpaceDown then s1.(player := Jump(s1.player)) else s1
  }

  /** The events of a frame, in the order they arrived. */
  function HandleEvents(s: GameState, events: seq<Event>): (r: GameState)
    ensures r.obstacles == s.obstacles && r.timer == s.timer
    ensures r.running == (s.running && Quit !in events)
    ensures r.player == if s.player.alive && SpaceDown in events then Jump(s.player) else s.player
    decreases |events|
  {
    if events == [] then s
    else
      assert forall e :: e in events <==> e == events[0] || e in events[1..];
      HandleEvents(HandleEvent(s, events[0]), events[1..])
  }

  /** The keys read on the game-over screen: Q stops the loop, R restarts. */
  function GameOver(s: GameState, quitHeld: bool, restartHeld: bool): (r: GameState)
    ensures s.player.alive ==> r == s
    ensures !s.player.alive && restartHeld ==> r == Initial().(running := s.running && !quitHeld)
    ensures !s.player.alive && !restartHeld ==> r == s.(running := s.running && !quitHeld)
  {
    if s.player.alive then s
    else
      var s1 := if quitHeld then s.(running := false) else s;
      if restartHeld then Reset(s1) else s1
  }

  /** What one frame of the loop reads: its events, the gap centre the
      spawn would draw, and the Q and R keys as held after drawing. */
  datatype FrameInput = FrameInput(events: seq<Event>, gapCenter: int, quitHeld: bool, restartHeld: bool)

  predicate ValidInput(input: FrameInput) {
    GapInRange(input.gapCenter)
  }

  /** One pass of the loop: events, logic, the game-over keys. A frame
      never restarts a stopped loop, and closing the window stops it. */
  function Frame(s: GameState, input: FrameInput): (r: GameState)
    requires ValidInput(input)
    ensures r.running ==> s.running && Quit !in input.events
  {
    GameOver(Tick(HandleEvents(s, input.events), input.gapCenter), input.quitHeld, input.restartHeld)
  }

  /** The loop over a run of frames: it stops at the first frame that leaves
      it not running, or when the inputs run out. */
  function Play(s: GameState, inputs: seq<FrameInput>): (r: GameState)
    requires forall k :: 0 <= k < |inputs| ==> ValidInput(inputs[k])
    ensures !s.running ==> r == s
    ensures r.running ==> s.running
    decreases |inputs|
  {
    if !s.running || inputs == [] then s
    else Play(Frame(s, inputs[0]), inputs[1..])
  }
}
