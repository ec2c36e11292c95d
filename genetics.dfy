/** The genetic-algorithm operators of the trainer: binary tournament
    selection, single-point crossover, single-gene clipped Gaussian mutation
    and elitist replacement. Every random draw is a parameter whose range is
    a precondition. */
module Genetics {
  import opened Geometry
  import opened Course
  import opened TrainerSpec

  const PopulationSize: nat := 100
  const EliteSize: nat := 10
  const MutationRate: real := 0.05
  const GeneBound: real := 5.0

  /** Every gene of g lies in [-GeneBound, GeneBound]. */
  predicate Bounded(g: Genome) {
    forall i :: 0 <= i < |g| ==> -GeneBound <= g[i] <= GeneBound
  }

  // ------------------------------------------------------------- selection

  /** The two distinct indices drawn for one tournament. */
  datatype Draw = Draw(first: int, second: int)

  predicate ValidDraw(d: Draw, n: nat) {
    0 <= d.first < n && 0 <= d.second < n && d.first != d.second
  }

  /** The winner of a binary tournament: the first index only when its fitness
      is strictly greater, so a tie goes to the second. */
  function Winner(fitnesses: seq<int>, d: Draw): (w: int)
    requires ValidDraw(d, |fitnesses|)
    ensures w == d.first || w == d.second
    ensures fitnesses[w] >= fitnesses[d.first] && fitnesses[w] >= fitnesses[d.second]
    ensures fitnesses[d.first] == fitnesses[d.second] ==> w == d.second
  {
    if fitnesses[d.first] > fitnesses[d.second] then d.first else d.second
  }

  /** The winner never has the lower fitness of the two. */
  lemma WinnerNotWorse(fitnesses: seq<int>, d: Draw)
    requires ValidDraw(d, |fitnesses|)
    ensures var w := Winner(fitnesses, d);
      var loser := if w == d.first then d.second else d.first;
      w != loser && fitnesses[w] >= fitnesses[loser]
  {
  }

  /** Binary tournament selection: one winner's genome per draw, as many
      draws as the population has members. */
  method SelectParents(population: seq<Genome>, fitnesses: seq<int>, draws: seq<Draw>) returns (parents: seq<Genome>)
    requires |population| >= 2 && |fitnesses| == |population| && |draws| == |population|
    requires forall k :: 0 <= k < |draws| ==> ValidDraw(draws[k], |population|)
    ensures |parents| == |population|
    ensures forall k :: 0 <= k < |parents| ==> parents[k] == population[Winner(fitnesses, draws[k])]
  {
    parents := [];
    var k := 0;
    while k < |population|
      invariant 0 <= k <= |population| && |parents| == k
      invariant forall j :: 0 <= j < k ==> parents[j] == population[Winner(fitnesses, draws[j])]
    {
      var d := draws[k];
      if fitnesses[d.first] > fitnesses[d.second] {
        parents := parents + [population[d.first]];
      } else {
        parents := parents + [population[d.second]];
      }
      k := k + 1;
    }
  }

  // ------------------------------------------------------------- crossover

  /** Single-point crossover at cut 1 or 2: each gene of the child is the
      gene at the same position of the first parent before the cut and of the
      second parent from the cut on. */
  function Crossover(g1: Genome, g2: Genome, cut: int): (child: Genome)
    requires 1 <= cut < NumGenes
    ensures forall i :: 0 <= i < cut ==> child[i] == g1[i]
    ensures forall i :: cut <= i < NumGenes ==> child[i] == g2[i]
  {
    g1[..cut] + g2[cut..]
  }

  /** Crossing a genome with itself gives it back. */
  lemma CrossoverSelf(g: Genome, cut: int)
    requires 1 <= cut < NumGenes
    ensures Crossover(g, g, cut) == g
  {
    assert g == g[..cut] + g[cut..];
  }

  /** Crossover never leaves the bounds both parents respect. */
  lemma CrossoverBounded(g1: Genome, g2: Genome, cut: int)
    requires 1 <= cut < NumGenes && Bounded(g1) && Bounded(g2)
    ensures Bounded(Crossover(g1, g2, cut))
  {
  }

  // -------------------------------------------------------------- mutation

  /** numpy's clip: the nearest value in [lo, hi]. */
  function Clip(x: real, lo: real, hi: real): (r: real)
    requires lo <= hi
    ensures lo <= r <= hi
    ensures lo <= x <= hi ==> r == x
    ensures x < lo ==> r == lo
    ensures x > hi ==> r == hi
  {
    if x < lo then lo else if x > hi then hi else x
  }

  /** The genome after mutation: with roll below the mutation rate, the gene
      at index gene gains the noise and is clipped to the gene bound. At most
      that one gene changes, and nothing does when the roll is not below the
      rate. */
  function Mutated(g: Genome, roll: real, gene: int, noise: real): (r: Genome)
    requires 0 <= gene < NumGenes
    ensures forall i :: 0 <= i < NumGenes && i != gene ==> r[i] == g[i]
    ensures roll >= MutationRate ==> r == g
    ensures roll < MutationRate ==> -GeneBound <= r[gene] <= GeneBound
  {
    if roll < MutationRate then g[gene := Clip(g[gene] + noise, -GeneBound, GeneBound)] else g
  }

  /** Mutation keeps a bounded genome bounded. */
  lemma MutationBounded(g: Genome, roll: real, gene: int, noise: real)
    requires 0 <= gene < NumGenes && Bounded(g)
    ensures Bounded(Mutated(g, roll, gene, noise))
  {
  }

  /** Gaussian mutation in place on the child's array. */
  method Mutate(genome: array<real>, roll: real, gene: int, noise: real)
    requires genome.Length == NumGenes && 0.0 <= roll < 1.0 && 0 <= gene < NumGenes
    modifies genome
    ensures genome[..] == Mutated(old(genome[..]), roll, gene, noise)
  {
    if roll < MutationRate {
      genome[gene] := genome[gene] + noise;
      genome[gene] := Clip(genome[gene], -GeneBound, GeneBound);
    }
  }

  // ----------------------------------------------------------- replacement

  /** The random values behind one child: two picks from the parent pool,
      the crossover cut, the mutation roll, the mutated gene and the noise. */
  datatype ChildDraw = ChildDraw(first: int, second: int, cut: int, roll: real, gene: int, noise: real)

  predicate ValidChildDraw(c: ChildDraw, n: nat) {
    && 0 <= c.first < n && 0 <= c.second < n
    && 1 <= c.cut < NumGenes
    && 0.0 <= c.roll < 1.0
    && 0 <= c.gene < NumGenes
  }

  /** The genome of one child, bred from a pool of tournament winners: every
      gene but the drawn one comes from the first pick before the cut and from
      the second pick from the cut on; without a mutation that holds of the
      drawn gene too. */
  function Offspring(pool: seq<Genome>, c: ChildDraw): (child: Genome)
    requires ValidChildDraw(c, |pool|)
    ensures forall i :: 0 <= i < NumGenes && i != c.gene ==>
      child[i] == if i < c.cut then pool[c.first][i] else pool[c.second][i]
    ensures c.roll >= MutationRate ==> child == Crossover(pool[c.first], pool[c.second], c.cut)
  {
    Mutated(Crossover(pool[c.first], pool[c.second], c.cut), c.roll, c.gene, c.noise)
  }

  /** Bounded parents give a bounded child. */
  lemma OffspringBounded(pool: seq<Genome>, c: ChildDraw)
    requires ValidChildDraw(c, |pool|)
    requires forall k :: 0 <= k < |pool| ==> Bounded(pool[k])
    ensures Bounded(Offspring(pool, c))
  {
    CrossoverBounded(pool[c.first], pool[c.second], c.cut);
    MutationBounded(Crossover(pool[c.first], pool[c.second], c.cut), c.roll, c.gene, c.noise);
  }

  /** How many elites are copied: the first ten of the ranking, or all of a
      smaller population. */
  function Elites(n: nat): (e: nat)
    ensures e <= EliteSize && e <= n
    ensures n >= EliteSize ==> e == EliteSize
  {
    if n < EliteSize then n else EliteSize
  }

  /** The argsort of the fitnesses, reversed: a permutation of the indices
      along which fitness never increases. How ties are ordered is left open. */
  predicate IsRanking(order: seq<int>, fitnesses: seq<int>) {
    && |order| == |fitnesses|
    && (forall a :: 0 <= a < |order| ==> 0 <= order[a] < |fitnesses|)
    && (forall m :: 0 <= m < |fitnesses| ==> m in order)
    && (forall a, b :: 0 <= a < b < |order| ==> fitnesses[order[a]] >= fitnesses[order[b]])
  }

  /** Elitism: every elite is at least as fit as every member left out of the
      elite. */
  lemma {:induction false} ElitesAreFittest(order: seq<int>, fitnesses: seq<int>, k: int, m: int)
    requires IsRanking(order, fitnesses)
    requires 0 <= k < Elites(|fitnesses|) && 0 <= m < |fitnesses| && m !in order[..Elites(|fitnesses|)]
    ensures fitnesses[order[k]] >= fitnesses[m]
  {
    var e := Elites(|fitnesses|);
    assert m in order;
    var p :| 0 <= p < |order| && order[p] == m;
    assert p >= e by {
      assert forall q :: 0 <= q < e ==> order[q] == order[..e][q];
    }
  }

  /** A fresh agent of the next generation carrying the genome g. */
  function Newborn(g: Genome): (a: AgentState)
    ensures a.alive && a.frames == 0 && a.passed == 0 && a.velocity == 0 && a.genome == g
    ensures a.rect == Box(AgentStartX as real, AgentStartY as real, AgentSize, AgentSize)
  {
    NewAgent(AgentStartX as real, AgentStartY as real, g)
  }

  /** One child: the crossover of two pool members, copied into a fresh
      array and mutated in place. */
  method Breed(pool: seq<Genome>, c: ChildDraw) returns (genome: Genome)
    requires ValidChildDraw(c, |pool|)
    ensures genome == Offspring(pool, c)
  {
    var child := Crossover(pool[c.first], pool[c.second], c.cut);
    var a := new real[NumGenes](i requires 0 <= i < NumGenes => child[i]);
    assert a[..] == child;
    Mutate(a, c.roll, c.gene, c.noise);
    genome := a[..];
  }

  /** Fresh agents holding copies of the first e genomes of the ranking. */
  method CopyElites(population: seq<Genome>, order: seq<int>, e: nat) returns (elites: seq<AgentState>)
    requires e <= |order| && forall a :: 0 <= a < |order| ==> 0 <= order[a] < |population|
    ensures |elites| == e
    ensures forall k :: 0 <= k < e ==> elites[k] == Newborn(population[order[k]])
  {
    elites := [];
    var k := 0;
    while k < e
      invariant 0 <= k <= e && |elites| == k
      invariant forall j :: 0 <= j < k ==> elites[j] == Newborn(population[order[j]])
    {
      elites := elites + [Newborn(population[order[k]])];
      k := k + 1;
    }
  }

  /** Fresh agents holding one bred child per child draw, in order. */
  method BreedAll(pool: seq<Genome>, children: seq<ChildDraw>) returns (kids: seq<AgentState>)
    requires forall c :: 0 <= c < |children| ==> ValidChildDraw(children[c], |pool|)
    ensures |kids| == |children|
    ensures forall c :: 0 <= c < |children| ==> kids[c] == Newborn(Offspring(pool, children[c]))
  {
    kids := [];
    while |kids| < |children|
      invariant |kids| <= |children|
      invariant forall c :: 0 <= c < |kids| ==> kids[c] == Newborn(Offspring(pool, children[c]))
      decreases |children| - |kids|
    {
      var genome := Breed(pool, children[|kids|]);
      kids := kids + [Newborn(genome)];
    }
  }

  /** The next population: fresh agents holding copies of the elite genomes
      in ranking order, then children bred from the tournament pool until
      there are PopulationSize agents. */
  method NextPopulation(population: seq<Genome>, fitnesses: seq<int>, order: seq<int>,
                        draws: seq<Draw>, children: seq<ChildDraw>) returns (next: seq<AgentState>)
    requires |population| >= 2 && |fitnesses| == |population|
    requires IsRanking(order, fitnesses)
    requires |draws| == |population| && forall k :: 0 <= k < |draws| ==> ValidDraw(draws[k], |population|)
    requires |children| == PopulationSize - Elites(|population|)
    requires forall c :: 0 <= c < |children| ==> ValidChildDraw(children[c], |population|)
    ensures |next| == PopulationSize
    ensures forall k :: 0 <= k < |next| ==> next[k] == Newborn(next[k].genome)
    ensures forall k :: 0 <= k < Elites(|population|) ==> next[k].genome == population[order[k]]
    ensures forall c :: 0 <= c < |children| ==>
              next[Elites(|population|) + c].genome == Offspring(Pool(population, fitnesses, draws), children[c])
    ensures (forall k :: 0 <= k < |population| ==> Bounded(population[k])) ==>
              forall k :: 0 <= k < |next| ==> Bounded(next[k].genome)
  {
    var e := Elites(|population|);
    var elites := CopyElites(population, order, e);
    var parents := SelectParents(population, fitnesses, draws);
    ghost var pool := Pool(population, fitnesses, draws);
    assert parents == pool;
    var kids := BreedAll(parents, children);
    next := elites + kids;
    assert forall c :: 0 <= c < |children| ==> next[e + c] == kids[c];
    NextBounded(population, order, e, pool, children, next);
  }

  /** Bounded genomes in the current population give bounded genomes in the
      next one. */
  lemma NextBounded(population: seq<Genome>, order: seq<int>, e: nat, pool: seq<Genome>,
                    children: seq<ChildDraw>, next: seq<AgentState>)
    requires e <= |order| && forall a :: 0 <= a < |order| ==> 0 <= order[a] < |population|
    requires forall c :: 0 <= c < |children| ==> ValidChildDraw(children[c], |pool|)
    requires forall k :: 0 <= k < |pool| ==> pool[k] in population
    requires |next| == e + |children|
    requires forall k :: 0 <= k < e ==> next[k].genome == population[order[k]]
    requires forall c :: 0 <= c < |children| ==> next[e + c].genome == Offspring(pool, children[c])
    ensures (forall k :: 0 <= k < |population| ==> Bounded(population[k])) ==>
              forall k :: 0 <= k < |next| ==> Bounded(next[k].genome)
  {
    if forall k :: 0 <= k < |population| ==> Bounded(population[k]) {
      forall j | 0 <= j < |next|
        ensures Bounded(next[j].genome)
      {
        if j >= e {
          assert next[j] == next[e + (j - e)];
          OffspringBounded(pool, children[j - e]);
        }
      }
    }
  }

  /** The pool of tournament winners, one per draw. */
  function Pool(population: seq<Genome>, fitnesses: seq<int>, draws: seq<Draw>): (pool: seq<Genome>)
    requires |fitnesses| == |population|
    requires forall k :: 0 <= k < |draws| ==> ValidDraw(draws[k], |population|)
    ensures |pool| == |draws|
    ensures forall k :: 0 <= k < |draws| ==> pool[k] == population[Winner(fitnesses, draws[k])]
  {
    seq(|draws|, k requires 0 <= k < |draws| => population[Winner(fitnesses, draws[k])])
  }
}
