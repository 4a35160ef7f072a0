/**
 * One agent ("dot"): its state, the one-tick state machine that advances it,
 * the invariants every reachable state keeps, and its fitness score.
 */
module Dots {
  import opened Geometry
  import opened Config

  /** One brain entry: a movement direction, each component normally in [-1, 1]. */
  datatype Vec = Vec(dx: real, dy: real)

  /** The part of a dot that a tick changes. */
  datatype DotState = DotState(x: real, y: real, step: nat, alive: bool, reachedGoal: bool)

  /** A freshly created dot: at the start point, no step taken, alive, not at the goal. */
  const Start: DotState := DotState(StartX, StartY, 0, true, false)

  function Abs(r: real): real {
    if r < 0.0 then -r else r
  }

  predicate InWorld(x: real, y: real) {
    0.0 <= x <= Width && 0.0 <= y <= Height
  }

  /** Both coordinates strictly within GoalRadius of the goal. */
  predicate NearGoal(x: real, y: real) {
    Abs(x - GoalX) < GoalRadius && Abs(y - GoalY) < GoalRadius
  }

  /** Each component of every entry lies in [-1, 1]. */
  predicate InUnitBox(brain: seq<Vec>) {
    forall i :: 0 <= i < |brain| ==> -1.0 <= brain[i].dx <= 1.0 && -1.0 <= brain[i].dy <= 1.0
  }

  /** No dot appears twice, so changing one never touches another. */
  predicate Distinct(dots: seq<Dot>) {
    forall i, j :: 0 <= i < j < |dots| ==> dots[i] != dots[j]
  }

  /** The square root handed to fitness evaluation never returns a negative number. */
  ghost predicate NonNegativeRoot(sqrt: real -> real) {
    forall r :: 0.0 <= r ==> 0.0 <= sqrt(r)
  }

  /** A dot that has stopped: ticking it changes nothing. */
  predicate Stopped(s: DotState) {
    !s.alive || s.step >= MaxSteps
  }

  /**
   * The invariant of every state a dot can reach from Start. In such a state
   * the budget test of a tick is redundant: the dot has stopped exactly when
   * it is dead.
   */
  function Reachable(s: DotState): (ok: bool)
    ensures ok ==> (Stopped(s) <==> !s.alive)
  {
    && s.step <= MaxSteps
    && InWorld(s.x, s.y)
    && !HitsAny(Obstacles, s.x, s.y)
    && (s.alive ==> s.step < MaxSteps)
    && (s.reachedGoal ==> !s.alive && NearGoal(s.x, s.y) && 1 <= s.step)
  }

  /**
   * One tick: a stopped dot stays as it is; a candidate position outside the
   * world or inside an obstacle kills the dot without moving it; otherwise the
   * dot moves there, arrives if it is near the goal, and uses up one step.
   */
  function Tick(s: DotState, brain: seq<Vec>): (r: DotState)
    requires |brain| == MaxSteps
    ensures Stopped(s) ==> r == s
    ensures !Stopped(s) ==> !r.alive || r.step == s.step + 1
    ensures r.step == s.step || r.step == s.step + 1
    ensures !s.alive ==> !r.alive
    ensures s.reachedGoal ==> r.reachedGoal
  {
    if Stopped(s) then s
    else
      var nx := s.x + brain[s.step].dx * StepSize;
      var ny := s.y + brain[s.step].dy * StepSize;
      if nx < 0.0 || nx > Width || ny < 0.0 || ny > Height then s.(alive := false)
      else if HitsAny(Obstacles, nx, ny) then s.(alive := false)
      else
        var goal := NearGoal(nx, ny);
        var step := s.step + 1;
        DotState(nx, ny, step, s.alive && !goal && step < MaxSteps, s.reachedGoal || goal)
  }

  /**
   * The state after n ticks. Each tick adds at most one step, and neither
   * death nor arrival is ever undone.
   */
  function TickN(s: DotState, brain: seq<Vec>, n: nat): (r: DotState)
    requires |brain| == MaxSteps
    ensures s.step <= r.step <= s.step + n
    ensures !s.alive ==> !r.alive
    ensures s.reachedGoal ==> r.reachedGoal
  {
    if n == 0 then s else Tick(TickN(s, brain, n - 1), brain)
  }

  /** The start state is reachable: inside the world and outside the maze. */
  lemma StartIsReachable()
    ensures Reachable(Start)
  {
  }

  /** A stopped dot is left as it is by any number of ticks: death is absorbing. */
  lemma {:induction false} StoppedIsAbsorbing(s: DotState, brain: seq<Vec>, n: nat)
    requires |brain| == MaxSteps
    requires Stopped(s)
    ensures TickN(s, brain, n) == s
  {
    if n > 0 {
      StoppedIsAbsorbing(s, brain, n - 1);
    }
  }

  /**
   * The outcomes of one tick of a live dot: either it dies where it is (the
   * candidate position left the world or hit an obstacle) with nothing else
   * changed, or it moves to the candidate position and uses up exactly one
   * step, arriving exactly when the new position is near the goal.
   */
  lemma LiveTickOutcomes(s: DotState, brain: seq<Vec>)
    requires |brain| == MaxSteps
    requires !Stopped(s)
    ensures var r := Tick(s, brain);
      var nx := s.x + brain[s.step].dx * StepSize;
      var ny := s.y + brain[s.step].dy * StepSize;
      if !InWorld(nx, ny) || HitsAny(Obstacles, nx, ny) then
        r == s.(alive := false)
      else
        && r.x == nx && r.y == ny && r.step == s.step + 1
        && (r.reachedGoal <==> s.reachedGoal || NearGoal(nx, ny))
        && (r.alive <==> !NearGoal(nx, ny) && r.step < MaxSteps)
  {
  }

  /**
   * A dot one diagonal step short of the goal arrives: it moves, uses up the
   * step, is marked as at the goal and stops.
   */
  lemma ArrivalScenario(brain: seq<Vec>)
    requires |brain| == MaxSteps
    requires brain[5] == Vec(1.0, 1.0)
    ensures Tick(DotState(555.0, 555.0, 5, true, false), brain) == DotState(565.0, 565.0, 6, false, true)
  {
  }

  /**
   * A dot whose next position lands on the edge of the first obstacle dies
   * where it stands, with its step count and goal flag untouched.
   */
  lemma CollisionScenario(brain: seq<Vec>)
    requires |brain| == MaxSteps
    requires brain[7] == Vec(0.0, 0.5)
    ensures Tick(DotState(250.0, 95.0, 7, true, false), brain) == DotState(250.0, 95.0, 7, false, false)
  {
    assert Obstacles[0].Collides(250.0, 100.0);
  }

  /** Ticking keeps every invariant of a reachable state. */
  lemma TickKeepsReachable(s: DotState, brain: seq<Vec>)
    requires |brain| == MaxSteps
    requires Reachable(s)
    ensures Reachable(Tick(s, brain))
  {
  }

  /**
   * After n ticks a reachable dot is still reachable, and if it is still
   * alive it has used up exactly n steps.
   */
  lemma {:induction false} TickNKeepsReachable(s: DotState, brain: seq<Vec>, n: nat)
    requires |brain| == MaxSteps
    requires Reachable(s)
    ensures Reachable(TickN(s, brain, n))
    ensures TickN(s, brain, n).alive ==> TickN(s, brain, n).step == s.step + n
  {
    if n > 0 {
      var before := TickN(s, brain, n - 1);
      TickNKeepsReachable(s, brain, n - 1);
      TickKeepsReachable(before, brain);
    }
  }

  /** Once the whole step budget has been ticked, every reachable dot is dead. */
  lemma BudgetKillsEveryDot(s: DotState, brain: seq<Vec>, n: nat)
    requires |brain| == MaxSteps
    requires Reachable(s)
    requires n >= MaxSteps
    ensures Reachable(TickN(s, brain, n))
    ensures !TickN(s, brain, n).alive
  {
    TickNKeepsReachable(s, brain, n);
  }

  function Square(r: real): (q: real)
    ensures q >= 0.0
  {
    r * r
  }

  /** The Euclidean distance to the goal, given a square root. */
  function DistanceToGoal(sqrt: real -> real, x: real, y: real): (d: real)
    requires NonNegativeRoot(sqrt)
    ensures d >= 0.0
  {
    sqrt(Square(x - GoalX) + Square(y - GoalY))
  }

  /**
   * The score of a finished run: a dot at the goal earns a large bonus plus a
   * bonus for every unused step; any other dot earns more the closer it ended.
   */
  function Fitness(s: DotState, distance: real): (f: real)
    requires distance >= 0.0
    ensures s.reachedGoal && s.step <= MaxSteps ==> f >= 10000.0
    ensures !s.reachedGoal ==> 0.0 < f <= 1.0
  {
    if s.reachedGoal then 10000.0 + (MaxSteps - s.step) as real * 100.0
    else 1.0 / (distance + 1.0)
  }

  /** Every reachable dot at the goal outscores every dot that is not. */
  lemma GoalOutranks(a: DotState, da: real, b: DotState, db: real)
    requires Reachable(a) && a.reachedGoal
    requires !b.reachedGoal
    requires da >= 0.0 && db >= 0.0
    ensures Fitness(a, da) > Fitness(b, db)
  {
  }

  /** Of two dots at the goal, the one that arrived in fewer steps scores higher. */
  lemma EarlierArrivalScoresHigher(a: DotState, b: DotState, d: real)
    requires a.reachedGoal && b.reachedGoal
    requires a.step < b.step
    requires d >= 0.0
    ensures Fitness(a, d) > Fitness(b, d)
  {
  }

  /** Of two dots away from the goal, the one that ended closer scores higher. */
  lemma CloserScoresHigher(a: DotState, da: real, b: DotState, db: real)
    requires !a.reachedGoal && !b.reachedGoal
    requires 0.0 <= da < db
    ensures Fitness(a, da) > Fitness(b, db)
  {
    var fa, fb := 1.0 / (da + 1.0), 1.0 / (db + 1.0);
    assert fa * (da + 1.0) == 1.0;
    assert fb * (db + 1.0) == 1.0;
    assert fa * (db + 1.0) > fb * (db + 1.0);
    assert fa > fb;
    assert Fitness(a, da) == fa && Fitness(b, db) == fb;
  }

  /** An agent: its brain, its position and flags, and its score. */
  class Dot {
    var x: real
    var y: real
    const brain: array<Vec>
    var step: nat
    var alive: bool
    var reachedGoal: bool
    var fitness: real

    function State(): DotState
      reads this
    {
      DotState(x, y, step, alive, reachedGoal)
    }

    /** A new dot at the start point with its own copy of the given brain. */
    constructor (initialBrain: seq<Vec>)
      requires |initialBrain| == MaxSteps
      ensures State() == Start && fitness == 0.0
      ensures fresh(brain) && brain[..] == initialBrain
    {
      x, y := StartX, StartY;
      brain := new Vec[MaxSteps](i requires 0 <= i < MaxSteps => initialBrain[i]);
      step := 0;
      alive := true;
      reachedGoal := false;
      fitness := 0.0;
    }

    /** Advances the dot by one tick; see Tick. */
    method Move()
      requires brain.Length == MaxSteps
      modifies this
      ensures State() == Tick(old(State()), brain[..])
      ensures fitness == old(fitness)
    {
      if !alive || step >= MaxSteps {
        return;
      }
      var v := brain[step];
      var newX := x + v.dx * StepSize;
      var newY := y + v.dy * StepSize;

      if newX < 0.0 || newX > Width || newY < 0.0 || newY > Height {
        alive := false;
        return;
      }

      var i := 0;
      while i < |Obstacles|
        invariant 0 <= i <= |Obstacles|
        invariant forall j :: 0 <= j < i ==> !Obstacles[j].Collides(newX, newY)
        invariant unchanged(this)
      {
        if Obstacles[i].Collides(newX, newY) {
          alive := false;
          return;
        }
        i := i + 1;
      }

      x, y := newX, newY;
      if Abs(x - GoalX) < GoalRadius && Abs(y - GoalY) < GoalRadius {
        reachedGoal := true;
        alive := false;
      }
      step := step + 1;
      if step >= MaxSteps {
        alive := false;
      }
    }

    /** Scores the dot's run; the distance to the goal is taken with the given square root. */
    method CalculateFitness(sqrt: real -> real)
      requires NonNegativeRoot(sqrt)
      modifies this`fitness
      ensures fitness == Fitness(State(), DistanceToGoal(sqrt, x, y))
    {
      var distanceToGoal := sqrt(Square(x - GoalX) + Square(y - GoalY));
      if reachedGoal {
        fitness := 10000.0 + (MaxSteps - step) as real * 100.0;
      } else {
        fitness := 1.0 / (distanceToGoal + 1.0);
      }
    }
  }
}
