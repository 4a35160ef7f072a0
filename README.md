# Pollination: a verified model of the genetic-algorithm maze solver

Pollination evolves "dots" that walk from a hive at (30, 30) to a flower at (570, 570)
in a 600 × 600 world, avoiding three rectangular obstacles. Each dot follows a
"brain": a list of 1000 direction vectors, one per tick. A generation ticks the
100 dots through the 1000-step budget and scores each one. The first dot with the
highest score becomes the elite. The next generation is 100 copies of the elite's
brain, each mutated at every position whose random draw is below 0.001.

This project models that engine in Dafny:

- `geometry.dfy` (module `Geometry`) holds the rectangle obstacle and its closed
  containment test.
- `config.dfy` (module `Config`) holds the constants and the three-obstacle maze.
- `dots.dfy` (module `Dots`) holds the agent. `DotState`, `Tick` and `TickN` are
  the pure state machine, and `Reachable` is the invariant of every state a dot
  can reach. `Fitness` is the score. The class `Dot` has the source's fields and
  updates them in place: `Move` is proved equal to `Tick`, and
  `CalculateFitness` is proved equal to `Fitness`.
- `reproduction.dfy` (module `Reproduction`) holds `Mutate`, the brain of one
  child as a function of the parent's brain and the draws. `Reproduce` builds
  the children as fresh objects and mutates each child's brain array in place.
- `simulation.dfy` (module `Simulation`) holds the drawing-free body of the
  generation loop: ticking, scoring, first-max selection, reproduction and the
  generation counter.

Randomness is passed in. For each child and brain position the caller supplies
a draw in [0, 1) and a replacement vector in [-1, 1]². Fitness needs a
Euclidean distance, and Dafny's reals have no square root. So fitness
evaluation takes a `sqrt` function whose results are never negative, and only
that property of the distance is used.

Two details of the code that the model keeps:

- On the tick where a dot reaches the goal, `step` still goes up by one
  (main.py:85-89).
- An empty population makes `max` fail (main.py:166). `SelectBest` models this
  by returning `None`. `RunSimulation` never meets that case, because its
  population always holds `PopSize` dots.

## Model

| member | source | states |
|---|---|---|
| Geometry.Obstacle.Collides | main.py:37-39 | the closed-rectangle test; a rectangle whose corners are not ordered contains no point |
| Geometry.HitsAny | main.py:76-79 | the in-order scan of the obstacle list hits exactly when some obstacle contains the point |
| Geometry.CornersCollide | main.py:37-39 | all four corners of a well-formed rectangle collide, so every side is inclusive |
| Geometry.BoundaryIsExact | main.py:37-39 | a point inside or on the boundary collides; a point any positive distance beyond any side does not |
| Config.ObstaclesWellFormed | main.py:46-50 | each of the three maze rectangles has x1 ≤ x2 and y1 ≤ y2 |
| Config.ClearOfMaze | main.py:46-50 | a point outside each of the three rectangles hits no obstacle of the maze |
| Config.StartIsClear | main.py:46-54 | the start point (30, 30) lies outside every obstacle |
| Dots.Reachable | main.py:54-91 | the invariant of every reachable state (step in [0, 1000], position in [0, 600]² and outside every obstacle, alive ⇒ step < 1000, reached_goal ⇒ dead, near the goal, step ≥ 1); in such a state the budget guard of main.py:62 is redundant: stopped exactly when dead |
| Dots.Tick | main.py:61-91 | one tick: a stopped dot is unchanged; a live dot either dies or uses exactly one step; the step never grows by more than one; death and arrival are never undone |
| Dots.TickN | main.py:136 | n ticks add at most n steps, and never revive a dead dot or clear `reached_goal` |
| Dots.StartIsReachable | main.py:53-58 | a new dot's state (30, 30, step 0, alive, not at goal) satisfies the reachability invariant |
| Dots.StoppedIsAbsorbing | main.py:61-63 | a dot that is dead or has used its budget is unchanged by any number of ticks |
| Dots.LiveTickOutcomes | main.py:65-91 | a live tick either only clears `alive` (candidate out of bounds or in an obstacle), or moves to x + 10·dx, y + 10·dy, adds exactly one step, sets `reached_goal` iff the new position is within 10 of the goal on both axes, and stays alive iff not at the goal and under budget |
| Dots.ArrivalScenario | main.py:82-89 | from (555, 555) at step 5 with direction (1, 1), the dot moves to (565, 565), reaches the goal, stops, and its step becomes 6 |
| Dots.CollisionScenario | main.py:75-79 | a candidate on the edge of the first obstacle kills the dot without moving it or changing its step |
| Dots.TickKeepsReachable | main.py:61-91 | one tick preserves: 0 ≤ step ≤ 1000, position in [0, 600]², position outside every obstacle, alive ⇒ step < 1000, reached_goal ⇒ dead, near the goal and step ≥ 1 |
| Dots.TickNKeepsReachable | main.py:61-91 | after n ticks a reachable dot is still reachable, and if still alive has used exactly n more steps |
| Dots.BudgetKillsEveryDot | main.py:89-91 | after at least MAX_STEPS ticks every reachable dot is dead |
| Dots.DistanceToGoal | main.py:94 | the distance to the goal is non-negative |
| Dots.Fitness | main.py:93-98 | a goal-reaching dot with step ≤ MAX_STEPS scores at least 10000; any other dot scores in (0, 1] |
| Dots.GoalOutranks | main.py:93-98 | every reachable goal-reaching dot scores strictly more than every dot that did not reach the goal |
| Dots.EarlierArrivalScoresHigher | main.py:96 | of two goal-reaching dots, the one with fewer steps scores higher |
| Dots.CloserScoresHigher | main.py:98 | of two dots not at the goal, the one nearer the goal scores higher |
| Dots.Dot.constructor | main.py:53-59 | a new dot is at (30, 30), step 0, alive, not at the goal, fitness 0, with a fresh brain array holding the given entries |
| Dots.Dot.Move | main.py:61-91 | the dot's new fields are exactly `Tick` of its old fields and its brain; fitness is untouched |
| Dots.Dot.CalculateFitness | main.py:93-98 | the fitness field becomes `Fitness` of the dot's state and its distance to the goal; nothing else changes |
| Reproduction.Mutate | main.py:104-109 | the child's brain has the parent's length, and stays in [-1, 1]² when the parent and the replacements are |
| Reproduction.MutateChangesOnlyFiredPositions | main.py:104-109 | a child's entry differs from the parent's only where the draw was below MUTATION_RATE, and there it is the replacement vector |
| Reproduction.NoFiringIsCopy | main.py:104-109 | when no draw fires, the child's brain equals the parent's |
| Reproduction.Reproduce | main.py:100-112 | returns exactly POP_SIZE distinct fresh dots with pairwise distinct fresh brain arrays, each dot at the start state with fitness 0 and its brain equal to `Mutate` of the parent's brain; brains stay in [-1, 1]² if the parent's was; the parent's brain is not modified |
| Simulation.SelectBest | main.py:166 | returns None exactly for an empty population; otherwise the index of a dot whose fitness is ≥ every dot's and > every earlier dot's (the first maximum) |
| Simulation.TickEach | main.py:155-156 | one pass over the population: every dot ends in `Tick` of its old state; fitness unchanged |
| Simulation.TickPopulation | main.py:136-156 | every dot ends in `TickN` of its old state after MAX_STEPS ticks; fitness unchanged |
| Simulation.EvaluatePopulation | main.py:162-163 | every dot's fitness becomes `Fitness` of its state and distance; states unchanged |
| Simulation.FittestReachesGoalIfAnyDoes | main.py:166 | among reachable final states, a dot of maximal fitness reached the goal whenever any dot did |
| Simulation.PlayGeneration | main.py:136-166 | every dot is ticked through the budget, is reachable and dead, and is scored; the returned index is the first maximum, and it reached the goal if any dot did |
| Simulation.Pollination.constructor | main.py:124-126 | POP_SIZE fresh dots at the start with the given brains (in [-1, 1]²), generation 0, no best brain yet, and `Valid()` holds |
| Simulation.Pollination.RunSimulation | main.py:130-177 | at the generation limit nothing changes; otherwise the old dots are ticked out, dead and scored, the elite is the first old dot of maximal fitness and reached the goal if any dot did, `best_brain` is the elite's brain, the new population is fresh dots at the start with fitness 0 and pairwise distinct fresh brain arrays holding `Mutate` children of the elite's brain, and the generation increases by 1; `Valid()` (POP_SIZE distinct dots, brains of MAX_STEPS entries in [-1, 1]², reachable states, generation ≤ GENERATIONS) is kept |

## Left out

- Everything in tkinter and PIL: the window, canvas, labels, images, drawing of obstacles and dots, `root.update` and `mainloop` (main.py:41-43, 114-122, 137-153, 157-159, 169-172, 179-180). These are display only.
- The first call of `run_simulation` made by `Pollination.__init__` itself (main.py:128). The model leaves that first call to the caller, so the constructor ends in the state of main.py:126, with generation 0 and no best brain.
- The re-scheduling of `run_simulation` by `root.after` (main.py:177). It belongs to the tkinter event loop. `RunSimulation` models one call, and repeated calls reach `finished` after `Generations` generations.
- The final `print` of the best brain and `root.quit` (main.py:131-134). `RunSimulation` only reports `finished`.
- Random number generation (main.py:55, 108-109). Draws and replacement vectors are parameters. The source samples a replacement only when the draw fires; the model takes one replacement per position and ignores those whose draw does not fire.
- The random initial brain of `Dot()` (main.py:55). The constructor takes the brain as a parameter. In `reproduce` the source draws a random brain and then overwrites it with the copy; the model builds the child directly from the copy.
- The value of `np.sqrt` and IEEE floating point (main.py:94). Coordinates, brain entries and fitness are exact reals. The square root is a parameter known only to be non-negative.
- Brains shorter than MAX_STEPS (an index error in the source): every dot's brain has MAX_STEPS entries, and `Move` requires it.
- Reassignment of a dot's brain: `brain` is a constant field of `Dot`. The source assigns it in `Dot.__init__` and once more right after construction in `reproduce`, and never again.
