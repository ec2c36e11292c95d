/** The bookkeeping of the training loop: the best fitness of a generation
    with the first agent that reaches it, and the best-ever record, which a
    generation replaces only when it does strictly better. */
module Training {
  import opened Course
  import opened TrainerSpec

  /** The record starts below every fitness. */
  const NoRecord: int := -1

  /** Python's max together with numpy's argmax: the largest fitness and the
      first index that holds it. */
  method BestOfGeneration(fitnesses: seq<int>) returns (best: int, index: nat)
    requires |fitnesses| > 0
    ensures index < |fitnesses| && fitnesses[index] == best
    ensures forall j :: 0 <= j < |fitnesses| ==> fitnesses[j] <= best
    ensures forall j :: 0 <= j < index ==> fitnesses[j] < best
  {
    best, index := fitnesses[0], 0;
    var k := 1;
    while k < |fitnesses|
      invariant 1 <= k <= |fitnesses| && index < k && fitnesses[index] == best
      invariant forall j :: 0 <= j < k ==> fitnesses[j] <= best
      invariant forall j :: 0 <= j < index ==> fitnesses[j] < best
    {
      if fitnesses[k] > best {
        best, index := fitnesses[k], k;
      }
      k := k + 1;
    }
  }

  /** The copy of a generation's best agent kept for the record: a fresh agent
      at the start position with that agent's genome and counters. */
  function Champion(a: AgentState): (c: AgentState)
    ensures Fitness(c) == Fitness(a) && c.genome == a.genome
    ensures c.alive && c.velocity == 0 && c.rect == NewAgent(AgentStartX as real, AgentStartY as real, a.genome).rect
  {
    NewAgent(AgentStartX as real, AgentStartY as real, a.genome).(frames := a.frames, passed := a.passed)
  }

  /** The best-ever fitness and the agent that set it. */
  datatype Record = Record(fitness: int, agent: AgentState)

  /** One generation's update: the record moves only on a strict improvement. */
  function Improve(r: Record, generationBest: int, champion: AgentState): (r': Record)
    ensures r'.fitness >= r.fitness && r'.fitness >= generationBest
    ensures r'.fitness == r.fitness || r'.fitness == generationBest
    ensures generationBest > r.fitness <==> r' != r && r' == Record(generationBest, champion)
  {
    if generationBest > r.fitness then Record(generationBest, champion) else r
  }

  /** The largest of a non-empty sequence. */
  function Max(s: seq<int>): (m: int)
    requires |s| > 0
    ensures forall j :: 0 <= j < |s| ==> s[j] <= m
    ensures exists j :: 0 <= j < |s| && s[j] == m
  {
    if |s| == 1 then s[0]
    else
      var rest := Max(s[1..]);
      assert forall j :: 1 <= j < |s| ==> s[j] == s[1..][j - 1];
      if s[0] > rest then s[0] else rest
  }

  /** The first index holding the largest value. */
  function ArgMax(s: seq<int>): (i: nat)
    requires |s| > 0
    ensures i < |s| && s[i] == Max(s)
    decreases |s|
  {
    if |s| == 1 then 0
    else
      var k := ArgMax(s[1..]);
      if s[0] >= s[1 + k] then 0 else 1 + k
  }

  /** A largest value that no earlier value reaches is the maximum, at the
      first index that holds it. */
  lemma {:induction false} ArgMaxUnique(s: seq<int>, i: nat)
    requires i < |s|
    requires forall j :: 0 <= j < |s| ==> s[j] <= s[i]
    requires forall j :: 0 <= j < i ==> s[j] < s[i]
    ensures s[i] == Max(s) && i == ArgMax(s)
    decreases |s|
  {
    if |s| > 1 {
      var k := ArgMax(s[1..]);
      if i == 0 {
        assert s[1 + k] == s[1..][k];
      } else {
        forall j | 0 <= j < |s[1..]|
          ensures s[1..][j] <= s[1..][i - 1]
        {
          assert s[1..][j] == s[j + 1];
        }
        ArgMaxUnique(s[1..], i - 1);
      }
    }
  }

  /** The fitness of each agent of a generation, in order. */
  function Fitnesses(agents: seq<AgentState>): (f: seq<int>)
    ensures |f| == |agents| && forall i :: 0 <= i < |agents| ==> f[i] == Fitness(agents[i])
  {
    seq(|agents|, i requires 0 <= i < |agents| => Fitness(agents[i]))
  }

  /** The record after a run of generations, each given by its best fitness
      and its champion. */
  function RecordAfter(r: Record, bests: seq<int>, champions: seq<AgentState>): (rec: Record)
    requires |bests| == |champions|
    ensures rec.fitness >= r.fitness
    decreases |bests|
  {
    if bests == [] then r
    else RecordAfter(Improve(r, bests[0], champions[0]), bests[1..], champions[1..])
  }

  /** The record is never lowered, and after at least one generation it is the
      best of the starting record and every generation's best. */
  lemma {:induction false} RecordIsBestSoFar(r: Record, bests: seq<int>, champions: seq<AgentState>)
    requires |bests| == |champions|
    ensures RecordAfter(r, bests, champions).fitness >= r.fitness
    ensures forall g :: 0 <= g < |bests| ==> RecordAfter(r, bests, champions).fitness >= bests[g]
    ensures |bests| > 0 && r.fitness < Max(bests) ==> RecordAfter(r, bests, champions).fitness == Max(bests)
    ensures RecordAfter(r, bests, champions).fitness == r.fitness
            || exists g :: 0 <= g < |bests| && RecordAfter(r, bests, champions).fitness == bests[g]
    decreases |bests|
  {
    if bests != [] {
      var r1 := Improve(r, bests[0], champions[0]);
      RecordIsBestSoFar(r1, bests[1..], champions[1..]);
      var final := RecordAfter(r1, bests[1..], champions[1..]);
      forall g | 1 <= g < |bests|
        ensures final.fitness >= bests[g]
      {
        assert bests[g] == bests[1..][g - 1];
      }
      if |bests| > 1 {
        assert Max(bests) == if bests[0] > Max(bests[1..]) then bests[0] else Max(bests[1..]);
      }
      if final.fitness != r1.fitness {
        var g :| 0 <= g < |bests[1..]| && final.fitness == bests[1..][g];
        assert final.fitness == bests[g + 1];
      }
    }
  }

  /** The record holds the fitness of the agent it names, once a generation
      has improved on the starting record. */
  lemma {:induction false} RecordMatchesChampion(r: Record, bests: seq<int>, champions: seq<AgentState>)
    requires |bests| == |champions|
    requires forall g :: 0 <= g < |bests| ==> Fitness(champions[g]) == bests[g]
    requires r.fitness == NoRecord || Fitness(r.agent) == r.fitness
    ensures var final := RecordAfter(r, bests, champions);
      final.fitness == NoRecord || Fitness(final.agent) == final.fitness
    decreases |bests|
  {
    if bests != [] {
      RecordMatchesChampion(Improve(r, bests[0], champions[0]), bests[1..], champions[1..]);
    }
  }

  /** Each generation's best fitness and the champion kept for it. */
  function Bests(generations: seq<seq<AgentState>>): (b: seq<int>)
    requires forall g :: 0 <= g < |generations| ==> |generations[g]| > 0
    ensures |b| == |generations|
  {
    seq(|generations|, g requires 0 <= g < |generations| => Max(Fitnesses(generations[g])))
  }

  function Champions(generations: seq<seq<AgentState>>): (c: seq<AgentState>)
    requires forall g :: 0 <= g < |generations| ==> |generations[g]| > 0
    ensures |c| == |generations|
  {
    seq(|generations|, g requires 0 <= g < |generations| =>
      Champion(generations[g][ArgMax(Fitnesses(generations[g]))]))
  }

  /** The record kept across generations, given the simulated agents of each
      generation in population order. */
  method TrackRecord(first: AgentState, generations: seq<seq<AgentState>>) returns (record: Record)
    requires forall g :: 0 <= g < |generations| ==> |generations[g]| > 0
    ensures record == RecordAfter(Record(NoRecord, first), Bests(generations), Champions(generations))
  {
    record := Record(NoRecord, first);
    ghost var bests, champions := Bests(generations), Champions(generations);
    ghost var start := record;
    var g := 0;
    while g < |generations|
      invariant 0 <= g <= |generations|
      invariant RecordAfter(start, bests, champions) == RecordAfter(record, bests[g..], champions[g..])
    {
      var agents := generations[g];
      var fitnesses := Fitnesses(agents);
      var best, index := BestOfGeneration(fitnesses);
      ArgMaxUnique(fitnesses, index);
      var champion := Champion(agents[index]);
      assert bests[g..][1..] == bests[g + 1..] && champions[g..][1..] == champions[g + 1..];
      if best > record.fitness {
        record := Record(best, champion);
      }
      g := g + 1;
    }
  }

  /** Fitness is never negative, so the first generation always beats the
      starting record of -1. */
  lemma FirstGenerationSetsRecord(start: AgentState, champion: AgentState)
    ensures Improve(Record(NoRecord, start), Fitness(champion), champion) == Record(Fitness(champion), champion)
  {
  }
}
