# Flappy Bird with a genetic algorithm, modelled in Dafny

The repository holds two pygame versions of one game.

- **The headless trainer** (`flappy_bird_ag_visual_trainer.py`). It evolves three-weight perceptron genomes.
  - Each agent lives one simulated life in a bounded frame loop over a mutable list of obstacles.
  - The loop returns the fitness `frames + 1000 * passed`.
  - The next generation comes from elitism, binary tournament selection, single-point crossover and single-gene clipped Gaussian mutation.
  - The best-ever agent is kept as a record.
- **The manual game** (`flappy_bird.py`). A player jumps with the space key. The per-frame logic is the same game with different rules:
  - the ground clamps the player and ends the game;
  - the ceiling clamps the player and stops it;
  - obstacles scroll at a constant 5;
  - each passed obstacle scores 50;
  - a dead player freezes the game until R restarts it.

## How the model is organised

The model is in two layers.

**Values and rules.** These modules describe the games as functions on values:
- `Geometry`: rectangles and strict overlap.
- `Course`: the shared constants, plus the obstacle with its construction, scrolling, marking and pruning.
- `TrainerSpec`: the trainer's speed schedule, physics, decision, obstacle sweep, frame, life and fitness.
- `ManualSpec`: the manual game's physics, ground and ceiling checks, sweep, spawn timer, events, game-over keys and restart.

**Objects.** These modules hold the source's objects, updated in place:
- `HeadlessRects`: both `HeadlessRect` classes, with their derived bound fields.
- `TrainerObjects`: `Agente` and `Obstaculo`.
- `Simulation`: the headless frame loop over a `seq` of obstacle objects. It removes obstacles by identity, as `list.remove` does.
- `Genetics`: the GA operators, with mutation in place on an `array<real>`.
- `Training`: the best-of-generation and best-ever bookkeeping.
- `ManualGame`: the player and the game's global state as a class. Its methods run the event handling, the logic block, the game-over keys and the loop.

Every method is proved to change its object's `Model()` exactly as the matching function says. The properties the source promises are then proved about those functions in `TrainerProperties`, `TrainerScenarios` and `ManualProperties`.

## Random draws become parameters

Every random draw is a parameter whose range is a precondition.
- `gaps[k]` is the gap centre of the k-th obstacle built in one life. The range is 100..470.
- A `Draw` is the two distinct indices of one tournament.
- A `ChildDraw` holds the random values behind one child:
  - the two pool picks;
  - the cut, 1 or 2;
  - the roll, in [0, 1);
  - the mutated gene;
  - the Gaussian noise, which can be any real.
- The reversed argsort is an `order` satisfying `IsRanking`. How ties are ordered is left open.

## Quirks of the trainer's loop that the model keeps

- The ground and ceiling test sits inside the per-obstacle loop. A frame with no obstacles therefore does no boundary check.
- In the trainer the ceiling kills the agent. It does not clamp it.
- Scoring is not guarded by `alive`, so an obstacle can be scored in the frame the agent dies.
- The speed is read once, before the frame, from the count of obstacles passed so far.

## Model

| member | source | states |
|---|---|---|
| Geometry.Moved | flappy_bird_ag_visual_trainer.py:115-118 | translation moves every edge by exactly dx or dy and keeps width and height |
| Geometry.OverlapSymmetric | flappy_bird_ag_visual_trainer.py:112-114 | strict overlap is symmetric |
| Geometry.TouchingDoNotOverlap | flappy_bird_ag_visual_trainer.py:112-114 | rectangles that only share an edge do not collide |
| Geometry.OverlapTranslationInvariant | flappy_bird_ag_visual_trainer.py:112-118 | moving both rectangles by the same amount keeps whether they collide |
| Geometry.MovedCompose | flappy_bird_ag_visual_trainer.py:115-118 | two moves equal one move by the summed offsets |
| HeadlessRects.AgentRect.constructor | flappy_bird_ag_visual_trainer.py:105-107 | a new rectangle has the given position and size, and its derived bounds agree with them |
| HeadlessRects.AgentRect.UpdateBounds | flappy_bird_ag_visual_trainer.py:108-111 | it sets top = y, bottom = y + height, left = x, right = x + width and centery = y + height // 2, and keeps the shape |
| HeadlessRects.AgentRect.MoveIp | flappy_bird_ag_visual_trainer.py:115-118 | only x and y change, by exactly dx and dy, and the bounds are re-established |
| HeadlessRects.AgentRect.Colliderect | flappy_bird_ag_visual_trainer.py:112-114 | the result from the derived fields equals strict overlap of the two shapes |
| HeadlessRects.PillarRect.constructor | flappy_bird_ag_visual_trainer.py:179-181 | a new pillar has the given position and size, and its bounds agree with them |
| HeadlessRects.PillarRect.UpdateBounds | flappy_bird_ag_visual_trainer.py:182-184 | it re-establishes top, bottom, left and right and keeps the shape |
| HeadlessRects.PillarRect.MoveIp | flappy_bird_ag_visual_trainer.py:188-191 | only x and y change, by exactly dx and dy, and the bounds are re-established |
| HeadlessRects.PillarRect.Colliderect | flappy_bird_ag_visual_trainer.py:185-187 | the result from the derived fields equals strict overlap of the two shapes |
| HeadlessRects.ColliderectSymmetric | flappy_bird_ag_visual_trainer.py:185-187 | agent-against-pillar and pillar-against-agent agree |
| Course.NewObstacle | flappy_bird_ag_visual_trainer.py:168-175 | for a gap centre in [100, 470]: both pillars start at x = 800 with width 50; the top pillar starts at 0; the gap is exactly 180; the bottom pillar ends at 570; both heights are at least 10; the flag is unset |
| Course.Scroll | flappy_bird_ag_visual_trainer.py:194-200 | both pillars move left by exactly the speed; y and the flag are unchanged |
| Course.ScrollKeepsShape | flappy_bird_ag_visual_trainer.py:194-200 | scrolling keeps an obstacle well shaped |
| Course.ScrollRepeated | flappy_bird_ag_visual_trainer.py:194-200 | two scrolls equal one scroll by the summed speeds |
| Course.Pruned | flappy_bird_ag_visual_trainer.py:355-356 | pruning keeps exactly the obstacles whose top pillar's right edge is not below 0 |
| Course.PrunedAppend | flappy_bird_ag_visual_trainer.py:340-356 | pruning distributes over concatenation, so it keeps relative order |
| Course.Marked | flappy_bird_ag_visual_trainer.py:351-353 | each obstacle is scrolled; its flag becomes old flag or agent beyond it, so a set flag never reverts |
| TrainerSpec.Speed | flappy_bird_ag_visual_trainer.py:60-64 | the speed always lies between 5 and 15 |
| TrainerSpec.NewAgent | flappy_bird_ag_visual_trainer.py:91-101 | a new agent is alive and at rest with zero counters, a 30 by 30 square at (x, y), with the given genome |
| TrainerSpec.Jump | flappy_bird_ag_visual_trainer.py:121-122 | the velocity becomes -15 and nothing else changes |
| TrainerSpec.Fall | flappy_bird_ag_visual_trainer.py:125-137 | a live agent: velocity + 1, y moves by the new velocity, frames + 1. A dead agent is unchanged |
| TrainerSpec.FirstAhead | flappy_bird_ag_visual_trainer.py:146-150 | it returns the first index whose bottom pillar's right edge is past the agent's left edge, or none when no such index exists |
| TrainerSpec.Decide | flappy_bird_ag_visual_trainer.py:143-164 | the only possible effect is a jump, and only for a live agent with an obstacle ahead |
| TrainerSpec.OutOfBounds | flappy_bird_ag_visual_trainer.py:347-348 | for a 30-pixel agent: out of bounds iff its top is not strictly between 0 and 540 |
| TrainerSpec.Output | flappy_bird_ag_visual_trainer.py:152-162 | with the agent's right edge at the pillars and its centre level with the gap's centre, the output is the bias alone |
| TrainerSpec.Collide | flappy_bird_ag_visual_trainer.py:344-348 | the agent survives iff it was alive, is not out of bounds, and overlaps neither pillar |
| TrainerSpec.Score | flappy_bird_ag_visual_trainer.py:351-353 | the flag is set when the agent is beyond the obstacle; the count rises by one iff the flag flipped |
| TrainerSpec.Visit | flappy_bird_ag_visual_trainer.py:340-353 | one visit: the scrolled obstacle, the flag rule, the count rising by one per flip, and survival iff alive, in bounds and no pillar hit |
| TrainerSpec.Sweep | flappy_bird_ag_visual_trainer.py:340-356 | the sweep changes only the agent's life and count; the count never drops, death is permanent, and the list never grows |
| TrainerSpec.Frame | flappy_bird_ag_visual_trainer.py:328-356 | one frame adds one frame survived and never lowers the count; the timer wraps to 0 at multiples of 90 |
| TrainerSpec.Start | flappy_bird_ag_visual_trainer.py:320-326 | a life starts alive with counters cleared, one fresh obstacle and timer 0 |
| TrainerSpec.Run | flappy_bird_ag_visual_trainer.py:328-356 | the frame loop stops only with the agent dead or at the frame cap |
| TrainerSpec.Fitness | flappy_bird_ag_visual_trainer.py:211-212 | fitness is at least the frames survived and at least 1000 times the obstacles passed |
| TrainerSpec.Simulate | flappy_bird_ag_visual_trainer.py:317-358 | a simulated life ends with the agent dead or at the frame cap |
| TrainerProperties.SpeedFirstTen | flappy_bird_ag_visual_trainer.py:60-64 | the speed is 5 for 0 to 9 obstacles |
| TrainerProperties.SpeedRisesEveryTen | flappy_bird_ag_visual_trainer.py:60-64 | below the cap, ten more obstacles add exactly 0.5 |
| TrainerProperties.SpeedFlatWithinTen | flappy_bird_ag_visual_trainer.py:60-64 | the speed only changes at multiples of ten |
| TrainerProperties.SpeedMonotone | flappy_bird_ag_visual_trainer.py:60-64 | the speed never decreases as the count grows |
| TrainerProperties.SpeedCapped | flappy_bird_ag_visual_trainer.py:60-64 | the speed is 15 for every count of 200 or more |
| TrainerProperties.ZeroGenomeNeverJumps | flappy_bird_ag_visual_trainer.py:162-164 | the all-zero genome never jumps, because the test is strict |
| TrainerProperties.PositiveBiasJumps | flappy_bird_ag_visual_trainer.py:152-164 | zero weights with a positive bias jump whenever the agent is alive and something is ahead |
| TrainerProperties.DecideSeesFirstAheadOnly | flappy_bird_ag_visual_trainer.py:146-164 | only the first obstacle ahead in list order affects the decision |
| TrainerProperties.SweepCountsFlips | flappy_bird_ag_visual_trainer.py:351-353 | the obstacles-passed count rises by exactly the number of flags flipped from false to true |
| TrainerProperties.SweepKeepsInOrder | flappy_bird_ag_visual_trainer.py:340-356 | the list after the sweep is exactly the marked obstacles still on screen, in their original order |
| TrainerProperties.RunEnds | flappy_bird_ag_visual_trainer.py:328-356 | a life ends dead or at max_frames, never past it, and never loses frames or passes |
| TrainerProperties.TimerStep | flappy_bird_ag_visual_trainer.py:335-338 | the timer update equals counting frames modulo 90 |
| TrainerProperties.FrameTimerTracksFrames | flappy_bird_ag_visual_trainer.py:335-338 | one frame keeps timer = frames mod 90 |
| TrainerProperties.RunTimerTracksFrames | flappy_bird_ag_visual_trainer.py:326-338 | between frames, timer = frames mod 90 for the whole life |
| TrainerProperties.SimulateFitness | flappy_bird_ag_visual_trainer.py:317-358 | after a life: frames ≤ max_frames; the agent is dead or at the cap; fitness ≤ max_frames + 1000·passed; the genome is unchanged |
| TrainerProperties.RunKeepsGenome | flappy_bird_ag_visual_trainer.py:328-356 | the frame loop never changes the genome |
| TrainerScenarios.SweepFarObstacle | flappy_bird_ag_visual_trainer.py:340-356 | while the first obstacle is far right, the sweep only scrolls it and kills the agent iff it is out of bounds |
| TrainerScenarios.FallingStep | flappy_bird_ag_visual_trainer.py:125-137 | a silent agent's decision and physics on frame n give the closed form for frame n+1, and it is out of bounds iff n+1 ≥ 22 |
| TrainerScenarios.FallingFrame | flappy_bird_ag_visual_trainer.py:328-356 | one frame takes the silent agent's state n to its state n+1 |
| TrainerScenarios.FallingRun | flappy_bird_ag_visual_trainer.py:328-356 | from any frame up to 22 the silent agent runs to its frame-22 state |
| TrainerScenarios.SilentGenomeHitsGround | flappy_bird_ag_visual_trainer.py:317-358 | genome [0,0,0] from (50, 300), for any gap draws, dies on the ground after exactly 22 frames with fitness 22 |
| TrainerScenarios.RisingFrame | flappy_bird_ag_visual_trainer.py:328-356 | one frame takes the always-jumping agent's state n to its state n+1 |
| TrainerScenarios.RisingRun | flappy_bird_ag_visual_trainer.py:328-356 | from any frame up to 22 the always-jumping agent runs to its frame-22 state |
| TrainerScenarios.EagerGenomeHitsCeiling | flappy_bird_ag_visual_trainer.py:317-358 | genome [0,0,1] dies at the ceiling after exactly 22 frames with fitness 22 |
| TrainerObjects.Agent.constructor | flappy_bird_ag_visual_trainer.py:91-101 | the new object's value is the new agent, for a genome drawn from [-2.5, 2.5) |
| TrainerObjects.Agent.Jump | flappy_bird_ag_visual_trainer.py:121-123 | in place, equals Jump |
| TrainerObjects.Agent.Update | flappy_bird_ag_visual_trainer.py:125-137 | in place, equals Fall |
| TrainerObjects.Agent.DecideAction | flappy_bird_ag_visual_trainer.py:143-164 | the search loop and the perceptron, in place, equal Decide on the obstacles' values |
| TrainerObjects.Agent.Perceive | flappy_bird_ag_visual_trainer.py:153-162 | the perceptron output from the derived fields equals Output |
| TrainerObjects.Obstacle.constructor | flappy_bird_ag_visual_trainer.py:168-175 | the new obstacle's value is NewObstacle, with two fresh, distinct pillars |
| TrainerObjects.Obstacle.Update | flappy_bird_ag_visual_trainer.py:194-200 | in place, equals Scroll |
| Simulation.RemoveFirst | flappy_bird_ag_visual_trainer.py:356 | list.remove drops one entry when the item is present and changes nothing otherwise |
| Simulation.RemoveFirstAfter | flappy_bird_ag_visual_trainer.py:356 | removal drops the first occurrence and keeps the rest in order |
| Simulation.RemoveAt | flappy_bird_ag_visual_trainer.py:356 | removing an entry with no earlier duplicate drops exactly that position |
| Simulation.CheckCollision | flappy_bird_ag_visual_trainer.py:344-348 | in place, equals Collide |
| Simulation.CheckScore | flappy_bird_ag_visual_trainer.py:351-353 | in place, equals Score |
| Simulation.VisitObstacle | flappy_bird_ag_visual_trainer.py:340-353 | in place, equals Visit |
| Simulation.VisitAt | flappy_bird_ag_visual_trainer.py:340-353 | a visit changes that obstacle and the agent, and no other obstacle of the list |
| Simulation.SweepOne | flappy_bird_ag_visual_trainer.py:340-356 | one pass over the copy keeps the live list consistent with the remaining sweep |
| Simulation.SweepObstacles | flappy_bird_ag_visual_trainer.py:340-356 | the loop over a copy, with removal from the live list, equals Sweep on the values |
| Simulation.Append | flappy_bird_ag_visual_trainer.py:337 | appending a separate obstacle keeps the list valid and appends its value |
| Simulation.SpawnObstacle | flappy_bird_ag_visual_trainer.py:337 | the list's values gain exactly NewObstacle(gap) at the end |
| Simulation.MoveAgent | flappy_bird_ag_visual_trainer.py:332-333 | decision then physics equal Fall(Decide(..)); the obstacles are untouched |
| Simulation.AdvanceTimer | flappy_bird_ag_visual_trainer.py:335-338 | the timer counts; at a multiple of 90 one obstacle is appended and the timer resets |
| Simulation.PlayFrame | flappy_bird_ag_visual_trainer.py:328-356 | one frame on the objects equals Frame on their values |
| Simulation.SimulateHeadless | flappy_bird_ag_visual_trainer.py:317-358 | the agent ends as Simulate says and the result is its fitness |
| Genetics.Winner | flappy_bird_ag_visual_trainer.py:218-221 | the winner is one of the two drawn indices with the higher fitness; a tie goes to the second |
| Genetics.WinnerNotWorse | flappy_bird_ag_visual_trainer.py:217-221 | the winner's fitness is at least the other drawn index's |
| Genetics.SelectParents | flappy_bird_ag_visual_trainer.py:214-222 | it returns exactly len(population) genomes, the k-th the winner of draw k |
| Genetics.Crossover | flappy_bird_ag_visual_trainer.py:224-227 | the child's gene i is the first parent's for i < cut and the second parent's for i ≥ cut |
| Genetics.CrossoverSelf | flappy_bird_ag_visual_trainer.py:224-227 | crossing a genome with itself returns it |
| Genetics.CrossoverBounded | flappy_bird_ag_visual_trainer.py:224-227 | parents in [-5, 5] give a child in [-5, 5] |
| Genetics.Clip | flappy_bird_ag_visual_trainer.py:233 | np.clip returns the nearest value in [lo, hi] |
| Genetics.Mutated | flappy_bird_ag_visual_trainer.py:229-234 | at most the drawn gene changes; nothing changes when the roll is ≥ 0.05; a mutated gene is in [-5, 5] |
| Genetics.MutationBounded | flappy_bird_ag_visual_trainer.py:229-234 | mutation keeps a genome in [-5, 5] |
| Genetics.Mutate | flappy_bird_ag_visual_trainer.py:229-234 | the in-place array write equals Mutated on the array's old contents |
| Genetics.Offspring | flappy_bird_ag_visual_trainer.py:250-254 | every gene but the drawn one comes from the first pick before the cut and the second pick from the cut on; without a mutation the child is exactly the crossover |
| Genetics.OffspringBounded | flappy_bird_ag_visual_trainer.py:250-254 | bounded parents give a bounded child |
| Genetics.Elites | flappy_bird_ag_visual_trainer.py:239-240 | the elite count is 10, or the whole population when it is smaller |
| Genetics.ElitesAreFittest | flappy_bird_ag_visual_trainer.py:239-245 | every elite's fitness is at least every non-elite's |
| Genetics.Newborn | flappy_bird_ag_visual_trainer.py:243-245 | a next-generation agent is fresh (alive, at rest, zero counters), a 30 by 30 square at (50, 300), and carries the given genome |
| Genetics.Breed | flappy_bird_ag_visual_trainer.py:250-257 | crossover into a fresh array, then in-place mutation, equals Offspring |
| Genetics.CopyElites | flappy_bird_ag_visual_trainer.py:242-245 | the k-th elite is a fresh agent with the genome at ranking position k |
| Genetics.BreedAll | flappy_bird_ag_visual_trainer.py:249-258 | the c-th child is a fresh agent with the child bred from draw c |
| Genetics.NextPopulation | flappy_bird_ag_visual_trainer.py:236-260 | exactly 100 fresh agents: the elites in ranking order, then the children bred from the tournament pool; bounded genomes stay bounded |
| Genetics.NextBounded | flappy_bird_ag_visual_trainer.py:236-260 | every genome of the next population is in [-5, 5] when every current one is |
| Genetics.Pool | flappy_bird_ag_visual_trainer.py:247 | the parent pool holds, per draw, the winner's genome |
| Training.BestOfGeneration | flappy_bird_ag_visual_trainer.py:467-468 | it returns the maximum fitness and the first index holding it |
| Training.Champion | flappy_bird_ag_visual_trainer.py:471-474 | the copy has the same genome and fitness and sits fresh at the start position |
| Training.Improve | flappy_bird_ag_visual_trainer.py:477-479 | the record is replaced iff the generation's best is strictly greater; it never drops |
| Training.RecordAfter | flappy_bird_ag_visual_trainer.py:477-479 | the record after any run of generations is at least the starting record |
| Training.Max | flappy_bird_ag_visual_trainer.py:467 | max is an upper bound that occurs in the sequence |
| Training.ArgMax | flappy_bird_ag_visual_trainer.py:468 | argmax is an index of the maximum |
| Training.ArgMaxUnique | flappy_bird_ag_visual_trainer.py:467-468 | the loop's best and index are exactly max and the first argmax |
| Training.Fitnesses | flappy_bird_ag_visual_trainer.py:464 | the k-th entry is the k-th agent's fitness |
| Training.RecordIsBestSoFar | flappy_bird_ag_visual_trainer.py:477-479 | the record never drops, is at least every generation's best, and becomes the overall maximum once that beats the start |
| Training.RecordMatchesChampion | flappy_bird_ag_visual_trainer.py:471-479 | the record's fitness is its agent's fitness |
| Training.TrackRecord | flappy_bird_ag_visual_trainer.py:450-479 | the loop's record equals the record after all generations' bests and champions |
| Training.FirstGenerationSetsRecord | flappy_bird_ag_visual_trainer.py:451-479 | fitness is never negative, so the first generation always replaces the -1 record |
| ManualSpec.NewPlayer | flappy_bird.py:52-59 | a new player is alive, at rest, with score 0, a 30 by 30 square at (x, y) |
| ManualSpec.Jump | flappy_bird.py:61-63 | the velocity becomes -15 and nothing else changes |
| ManualSpec.Fall | flappy_bird.py:65-72 | a live player: velocity + 1, y moves by the new velocity, score + 1. A dead player is unchanged |
| ManualSpec.Bounds | flappy_bird.py:130-138 | ground: the bottom is clamped to 570 and the player dies; otherwise ceiling: the top is set to 0 and the velocity to 0, and the player lives; the result stays in the field |
| ManualSpec.Visit | flappy_bird.py:148-157 | scroll by 5; death on overlap with either pillar; +50 exactly when the flag flips |
| ManualSpec.Sweep | flappy_bird.py:147-161 | the sweep changes only life and score; death is permanent, the score never drops, and the list never grows |
| ManualSpec.StartPlayer | flappy_bird.py:96-97 | the start player is alive at (50, 300) with score 0 and velocity -15 |
| ManualSpec.Initial | flappy_bird.py:96-100 | the start state: that player, no obstacles, timer 0, running |
| ManualSpec.Reset | flappy_bird.py:103-109 | reset gives the start state and keeps the running flag |
| ManualSpec.Spawned | flappy_bird.py:141-144 | the list keeps its obstacles as a prefix and gains one new obstacle around the gap centre iff the timer reaches 90 |
| ManualSpec.Tick | flappy_bird.py:127-161 | with the player dead nothing changes; the logic block never touches the running flag |
| ManualSpec.HandleEvent | flappy_bird.py:118-124 | one event: quit clears running; space makes a live player jump; obstacles and timer are untouched |
| ManualSpec.HandleEvents | flappy_bird.py:118-124 | running stays true iff no quit event arrives; a live player jumps iff some space event arrives; nothing else changes |
| ManualSpec.GameOver | flappy_bird.py:178-188 | with the player dead: Q clears running, and R restarts from the start state |
| ManualSpec.Frame | flappy_bird.py:116-188 | a frame never restarts a stopped loop, and a frame with a quit event stops it |
| ManualSpec.Play | flappy_bird.py:116-191 | a stopped loop runs no frame, and a loop running at the end was running at the start |
| ManualProperties.SweepScores | flappy_bird.py:155-157 | the score rises by exactly 50 per flag flipped |
| ManualProperties.SweepKeepsInOrder | flappy_bird.py:147-161 | the list after the sweep is the marked obstacles still on screen, in their original order |
| ManualProperties.SweepSurvival | flappy_bird.py:150-152 | the player survives the sweep iff it was alive and no scrolled pillar overlaps it |
| ManualProperties.LiveTick | flappy_bird.py:127-161 | a live frame: score + 1 + 50 per flip; the list becomes the pruned marked list; the rectangle and the velocity are as clamped; the player lives iff it missed the ground and every pillar |
| ManualProperties.GroundEndsGame | flappy_bird.py:131-133 | a fall to the ground puts the bottom at 570 and ends the game |
| ManualProperties.CeilingStops | flappy_bird.py:136-138 | at the ceiling the top is 0 and the velocity 0; only a pillar can kill that frame |
| ManualProperties.SpawnTiming | flappy_bird.py:141-144 | the timer becomes (timer+1) mod 90; an obstacle is appended iff the timer was 89 |
| ManualProperties.QuietFrame | flappy_bird.py:116-127 | a frame with no quit event and no Q or R held is the events then the logic block; it keeps the loop running; with a dead player it changes nothing |
| ManualProperties.QuietPlayRuns | flappy_bird.py:116-191 | such frames never stop the loop |
| ManualProperties.PlayDead | flappy_bird.py:127 | a dead player's game is frozen by any number of such frames |
| ManualProperties.NoSpawnBeforeRate | flappy_bird.py:141-144 | from an empty screen, over frames with jumps allowed, no obstacle appears before the timer reaches 90, and while the player lives the timer counts the frames |
| ManualProperties.SpawnAtRate | flappy_bird.py:141-148 | the frame that reaches 90 appends one new obstacle, scrolled once, and resets the timer |
| ManualProperties.FirstSpawn | flappy_bird.py:98-99 | starting with an empty list, over frames with jumps allowed, a player alive after the frame on which the timer reaches 90 sees exactly one obstacle, built around that frame's gap centre and scrolled once, and the timer at 0 |
| ManualProperties.Climbing | flappy_bird.py:116-161 | the state after n space-pressing frames from the start is a live, running game with no obstacle and timer n |
| ManualProperties.ClimbFrame | flappy_bird.py:116-161 | before the spawn, a space-pressing frame takes the climb from frame n to frame n + 1: up 14 pixels a frame, then held at the ceiling |
| ManualProperties.LastClimb | flappy_bird.py:141-152 | on the spawning frame the climbing player, at the ceiling in the start column, misses the new obstacle and lives |
| ManualProperties.FlappingSurvives | flappy_bird.py:116-161 | pressing space on every frame keeps the player alive through the 90th frame |
| ManualProperties.FlappingKeepsScreenEmpty | flappy_bird.py:116-161 | from the start, fewer than 90 space-pressing frames leave a live player, a running loop, no obstacle and the timer at the frame count, so NoSpawnBeforeRate is not vacuous |
| ManualProperties.FlappingMeetsFirstObstacle | flappy_bird.py:98-161 | from the start, 90 space-pressing frames leave a live player, a running loop, timer 0 and exactly the first obstacle, so FirstSpawn is not vacuous |
| ManualProperties.DeadGameWaits | flappy_bird.py:178-185 | with the player dead and R not held, a frame changes only the running flag |
| ManualProperties.RestartStartsOver | flappy_bird.py:187-188 | with the player dead, R restarts from the start state |
| ManualProperties.QuitEndsLoop | flappy_bird.py:116-120 | a quit event ends the loop after that frame |
| ManualProperties.InitialGood | flappy_bird.py:96-100 | the start state satisfies the between-frames invariant |
| ManualProperties.MarkedWellShaped | flappy_bird.py:147-157 | scrolling and marking keep obstacles well shaped |
| ManualProperties.TickKeepsGood | flappy_bird.py:127-161 | the logic block keeps the invariant: timer in [0, 89]; player in the start column, 30 by 30, between ceiling and ground; obstacles well shaped |
| ManualProperties.FrameKeepsGood | flappy_bird.py:116-188 | a whole frame keeps the invariant |
| ManualProperties.PlayKeepsGood | flappy_bird.py:116-191 | every run of the loop keeps the invariant |
| ManualGame.Player.constructor | flappy_bird.py:52-59 | a new player is alive, at rest, with score 0, a 30 by 30 square at (x, y) |
| ManualGame.Player.Jump | flappy_bird.py:61-63 | in place, equals Jump |
| ManualGame.Player.Update | flappy_bird.py:65-72 | in place, equals Fall |
| ManualGame.CheckBounds | flappy_bird.py:130-138 | in place, equals Bounds |
| ManualGame.VisitObstacle | flappy_bird.py:147-157 | in place, equals Visit |
| ManualGame.CheckCollision | flappy_bird.py:151-152 | the player dies iff it overlaps either pillar |
| ManualGame.CheckScore | flappy_bird.py:155-157 | +50 and the flag set, once, when the player is past the top pillar |
| ManualGame.VisitAt | flappy_bird.py:147-157 | a visit changes that obstacle and the player, and no other obstacle |
| ManualGame.SweepOne | flappy_bird.py:147-161 | one pass over the copy keeps the live list consistent with the remaining sweep |
| ManualGame.SweepObstacles | flappy_bird.py:147-161 | the loop over a copy, with removal from the live list, equals Sweep |
| ManualGame.AdvanceTimer | flappy_bird.py:141-144 | the timer counts; on reaching 90 one obstacle is appended and the timer resets |
| ManualGame.ProcessEvents | flappy_bird.py:118-124 | the event loop: quit clears running; space makes a live player jump |
| ManualGame.MovePlayer | flappy_bird.py:128-138 | physics then the ground and ceiling checks equal Bounds(Fall(..)) |
| ManualGame.LiveTick | flappy_bird.py:127-161 | the logic block of a live frame on the objects equals Tick |
| ManualGame.Game.constructor | flappy_bird.py:95-100 | the module's global state starts as Initial |
| ManualGame.Game.Reset | flappy_bird.py:103-109 | in place, equals Reset, with a fresh player |
| ManualGame.Game.HandleEvents | flappy_bird.py:118-124 | in place, equals HandleEvents |
| ManualGame.Game.Tick | flappy_bird.py:127-161 | in place, equals Tick |
| ManualGame.Game.GameOver | flappy_bird.py:178-188 | in place, equals GameOver |
| ManualGame.Game.Step | flappy_bird.py:116-188 | one pass of the loop, in place, equals Frame |
| ManualGame.Game.GameLoop | flappy_bird.py:116-191 | the loop, in place, equals Play over the frames' inputs |

## Left out

- Rendering and UI are not modelled: drawing, colours and colour changes, fonts, the display, `clock.tick` and frame rate. They change no game state.
- Console output, the CSV log, the matplotlib graph, `os.remove` and the top-level error handling are input and output only.
- `visualizar_melhor_agente` is left out. It replays the headless step inside a rendering loop, and its `>=` spawn test is equivalent because the timer resets.
- Random draws are parameters with their ranges as preconditions. The distributions themselves are not modelled.
- Trainer arithmetic uses exact reals, not IEEE floating point. This covers the `/ 800`, `/ 600` and noise arithmetic.
- Manual-game arithmetic: pygame rectangles hold integers. Here the manual game's positions are reals that stay integral, because every offset is an integer.
- pygame's `Rect` internals are not modelled. The manual game's rectangles and obstacles use the same strict-overlap rectangle classes as the trainer.
- The obstacle's screen height is fixed at 600, since every caller passes `SCREEN_HEIGHT`.
- Genomes are values (`seq<real>` of length 3) except the array mutated in place.
- Sharing of genome arrays between agents is not modelled. The source copies elite genomes, and the crossover child is always a fresh array.
- Genetics.SelectParents: requires a population of at least 2, because `random.sample(range(n), 2)` raises an error otherwise.
- Genetics.NextPopulation: the elites are ranked by any order satisfying `IsRanking`. numpy's tie order among equal fitnesses is not fixed.
- The generation mean (`np.mean`) and the loop of `treinamento_ag` around the bookkeeping are left out. The bookkeeping is modelled given each generation's simulated agents.
- The manual player's `passed_obstacle` field is never read, so it is left out.
- `sys.exit`, `pygame.quit` and the event queue are left out. Events are given to each frame as a sequence; held keys are booleans.
- ManualGame.Game.GameLoop: models a finite run of frames. The source loop runs until the window is closed or Q is held.
- TrainerScenarios.SilentGenomeHitsGround and TrainerScenarios.EagerGenomeHitsCeiling: these cover a fresh agent at (50, 300) only. They rely on the first obstacle still being far right on frame 22.
- ManualProperties.NoSpawnBeforeRate and ManualProperties.FirstSpawn: these cover frames with no quit event and Q and R not held. A restart resets the timer and the list instead, as ManualProperties.RestartStartsOver states.
- The trainer's default cap of 50000 frames is the `maxFrames` parameter. Every statement about a life holds for any cap.
