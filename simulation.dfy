/**
 * The generation loop without its drawing: tick every dot through the step
 * budget, score every dot, pick the first fittest, and breed the next
 * population from it.
 */
module Simulation {
  import opened Config
  import opened Dots
  import opened Reproduction

  datatype Option<T> = None | Some(value: T)

  /**
   * The index of the first dot of greatest fitness, or None for an empty
   * population (where picking a maximum fails).
   */
  method SelectBest(dots: seq<Dot>) returns (best: Option<nat>)
    ensures best.None? <==> |dots| == 0
    ensures best.Some? ==> best.value < |dots|
    ensures best.Some? ==> forall j :: 0 <= j < |dots| ==> dots[j].fitness <= dots[best.value].fitness
    ensures best.Some? ==> forall j :: 0 <= j < best.value ==> dots[j].fitness < dots[best.value].fitness
  {
    if |dots| == 0 {
      return None;
    }
    var k := 0;
    for i := 1 to |dots|
      invariant k < i
      invariant forall j :: 0 <= j < i ==> dots[j].fitness <= dots[k].fitness
      invariant forall j :: 0 <= j < k ==> dots[j].fitness < dots[k].fitness
    {
      if dots[i].fitness > dots[k].fitness {
        k := i;
      }
    }
    return Some(k);
  }

  /** Moves every dot once, in population order. */
  method TickEach(dots: seq<Dot>)
    requires Distinct(dots)
    requires forall i :: 0 <= i < |dots| ==> dots[i].brain.Length == MaxSteps
    modifies dots
    ensures forall i :: 0 <= i < |dots| ==> dots[i].State() == Tick(old(dots[i].State()), dots[i].brain[..])
    ensures forall i :: 0 <= i < |dots| ==> dots[i].fitness == old(dots[i].fitness)
  {
    for k := 0 to |dots|
      invariant forall i :: 0 <= i < k ==> dots[i].State() == Tick(old(dots[i].State()), dots[i].brain[..])
      invariant forall i :: k <= i < |dots| ==> dots[i].State() == old(dots[i].State())
      invariant forall i :: 0 <= i < |dots| ==> dots[i].fitness == old(dots[i].fitness)
    {
      dots[k].Move();
    }
  }

  /**
   * Ticks every dot once per step of the budget, dots in population order
   * within each tick. Each dot ends in the state MaxSteps ticks lead to.
   */
  method TickPopulation(dots: seq<Dot>)
    requires Distinct(dots)
    requires forall i :: 0 <= i < |dots| ==> dots[i].brain.Length == MaxSteps
    modifies dots
    ensures forall i :: 0 <= i < |dots| ==>
      dots[i].State() == TickN(old(dots[i].State()), dots[i].brain[..], MaxSteps)
    ensures forall i :: 0 <= i < |dots| ==> dots[i].fitness == old(dots[i].fitness)
  {
    for t := 0 to MaxSteps
      invariant forall i :: 0 <= i < |dots| ==>
        dots[i].State() == TickN(old(dots[i].State()), dots[i].brain[..], t)
      invariant forall i :: 0 <= i < |dots| ==> dots[i].fitness == old(dots[i].fitness)
    {
      TickEach(dots);
    }
  }

  /** Scores every dot; positions and flags are left as they are. */
  method EvaluatePopulation(dots: seq<Dot>, sqrt: real -> real)
    requires Distinct(dots)
    requires NonNegativeRoot(sqrt)
    modifies dots
    ensures forall i :: 0 <= i < |dots| ==> dots[i].State() == old(dots[i].State())
    ensures forall i :: 0 <= i < |dots| ==>
      dots[i].fitness == Fitness(dots[i].State(), DistanceToGoal(sqrt, dots[i].x, dots[i].y))
  {
    for k := 0 to |dots|
      invariant forall i :: 0 <= i < |dots| ==> dots[i].State() == old(dots[i].State())
      invariant forall i :: 0 <= i < k ==>
        dots[i].fitness == Fitness(dots[i].State(), DistanceToGoal(sqrt, dots[i].x, dots[i].y))
    {
      dots[k].CalculateFitness(sqrt);
    }
  }

  /**
   * Among reachable final states, one whose fitness is at least everyone's
   * reached the goal whenever any of them did.
   */
  lemma FittestReachesGoalIfAnyDoes(states: seq<DotState>, distances: seq<real>, k: nat, g: nat)
    requires |distances| == |states|
    requires forall i :: 0 <= i < |states| ==> Reachable(states[i]) && distances[i] >= 0.0
    requires k < |states| && g < |states|
    requires forall j :: 0 <= j < |states| ==> Fitness(states[j], distances[j]) <= Fitness(states[k], distances[k])
    requires states[g].reachedGoal
    ensures states[k].reachedGoal
  {
  }

  /**
   * Runs one generation of a population to its end and picks the elite: every
   * dot is ticked through the whole budget (so every dot is dead), every dot is
   * scored, and the index of the first fittest dot is returned. The elite
   * reached the goal whenever any dot did.
   */
  method PlayGeneration(dots: seq<Dot>, sqrt: real -> real) returns (k: nat)
    requires |dots| > 0 && Distinct(dots)
    requires forall i :: 0 <= i < |dots| ==> dots[i].brain.Length == MaxSteps && Reachable(dots[i].State())
    requires NonNegativeRoot(sqrt)
    modifies dots
    ensures forall i :: 0 <= i < |dots| ==>
      && dots[i].State() == TickN(old(dots[i].State()), dots[i].brain[..], MaxSteps)
      && Reachable(dots[i].State()) && !dots[i].alive
      && dots[i].fitness == Fitness(dots[i].State(), DistanceToGoal(sqrt, dots[i].x, dots[i].y))
    ensures k < |dots|
    ensures forall j :: 0 <= j < |dots| ==> dots[j].fitness <= dots[k].fitness
    ensures forall j :: 0 <= j < k ==> dots[j].fitness < dots[k].fitness
    ensures (exists g :: 0 <= g < |dots| && dots[g].reachedGoal) ==> dots[k].reachedGoal
  {
    TickPopulation(dots);
    forall i | 0 <= i < |dots|
      ensures Reachable(dots[i].State()) && !dots[i].alive
    {
      BudgetKillsEveryDot(old(dots[i].State()), dots[i].brain[..], MaxSteps);
    }
    EvaluatePopulation(dots, sqrt);

    var best := SelectBest(dots);
    k := best.value;
    if g :| 0 <= g < |dots| && dots[g].reachedGoal {
      ghost var states := seq(|dots|, i requires 0 <= i < |dots| reads dots => dots[i].State());
      ghost var distances := seq(|dots|, i requires 0 <= i < |dots| reads dots => DistanceToGoal(sqrt, dots[i].x, dots[i].y));
      FittestReachesGoalIfAnyDoes(states, distances, k, g);
    }
  }

  /** The simulation controller: the current population and the generation counter. */
  class Pollination {
    var population: seq<Dot>
    var generation: nat
    var bestBrain: array?<Vec>

    ghost predicate Valid()
      reads this, population, set i | 0 <= i < |population| :: population[i].brain
    {
      && |population| == PopSize
      && Distinct(population)
      && (forall i :: 0 <= i < |population| ==>
            && population[i].brain.Length == MaxSteps
            && InUnitBox(population[i].brain[..])
            && Reachable(population[i].State()))
      && generation <= Generations
    }

    /** The first population: PopSize dots at the start point with the given brains. */
    constructor (brains: seq<seq<Vec>>)
      requires |brains| == PopSize
      requires forall c :: 0 <= c < PopSize ==> |brains[c]| == MaxSteps && InUnitBox(brains[c])
      ensures Valid()
      ensures generation == 0 && bestBrain == null
      ensures forall c :: 0 <= c < PopSize ==>
        fresh(population[c]) && population[c].State() == Start && population[c].brain[..] == brains[c]
    {
      var dots: seq<Dot> := [];
      while |dots| < PopSize
        invariant |dots| <= PopSize
        invariant Distinct(dots)
        invariant forall c :: 0 <= c < |dots| ==>
          && fresh(dots[c]) && dots[c].State() == Start
          && dots[c].brain.Length == MaxSteps && dots[c].brain[..] == brains[c]
      {
        var d := new Dot(brains[|dots|]);
        dots := dots + [d];
      }
      StartIsReachable();
      population := dots;
      generation := 0;
      bestBrain := null;
    }

    /**
     * One generation. Once the generation limit is reached nothing changes and
     * the run is finished. Otherwise every dot is ticked through the whole
     * budget (and so is dead), scored, the first fittest is kept as the elite,
     * its brain is recorded, and the next population is bred from it.
     */
    method RunSimulation(sqrt: real -> real, draws: seq<seq<real>>, vectors: seq<seq<Vec>>)
      returns (finished: bool, elite: Dot?)
      requires Valid()
      requires NonNegativeRoot(sqrt)
      requires DrawsShaped(draws) && VectorsShaped(vectors)
      requires forall c, i :: 0 <= c < PopSize && 0 <= i < MaxSteps ==> UnitDraw(draws[c][i])
      requires forall c :: 0 <= c < PopSize ==> InUnitBox(vectors[c])
      modifies this, population
      ensures Valid()
      ensures finished <==> old(generation) >= Generations
      ensures finished ==> elite == null && unchanged(this) && unchanged(population)
      ensures !finished ==> generation == old(generation) + 1
      ensures !finished ==> forall i :: 0 <= i < PopSize ==>
        var d := old(population)[i];
        && d.State() == TickN(old(d.State()), d.brain[..], MaxSteps)
        && !d.alive
        && d.fitness == Fitness(d.State(), DistanceToGoal(sqrt, d.x, d.y))
      ensures !finished ==> elite != null && elite in old(population) && bestBrain == elite.brain
      ensures !finished ==> forall i :: 0 <= i < PopSize ==> old(population)[i].fitness <= elite.fitness
      ensures !finished ==>
        (exists k :: 0 <= k < PopSize && elite == old(population)[k] &&
           (forall j :: 0 <= j < k ==> old(population)[j].fitness < elite.fitness))
      ensures !finished && (exists i :: 0 <= i < PopSize && old(population)[i].reachedGoal) ==> elite.reachedGoal
      ensures !finished ==> forall c :: 0 <= c < PopSize ==>
        && fresh(population[c]) && fresh(population[c].brain)
        && population[c].State() == Start && population[c].fitness == 0.0
        && population[c].brain[..] == Mutate(elite.brain[..], draws[c], vectors[c])
      ensures !finished ==> forall c, d :: 0 <= c < d < PopSize ==> population[c].brain != population[d].brain
    {
      if generation >= Generations {
        return true, null;
      }
      var dots := population;
      var k := PlayGeneration(dots, sqrt);
      elite := dots[k];
      bestBrain := elite.brain;
      population := Reproduce(elite, draws, vectors);
      generation := generation + 1;
      StartIsReachable();
      finished := false;
    }
  }
}
