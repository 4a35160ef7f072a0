/** The fixed configuration of the simulation: world, goal, maze and budgets. */
module Config {
  import opened Geometry

  const Width: real := 600.0
  const Height: real := 600.0
  const PopSize: nat := 100
  const MaxSteps: nat := 1000
  const MutationRate: real := 0.001
  const Generations: nat := 100

  /** Every dot starts at (StartX, StartY). */
  const StartX: real := 30.0
  const StartY: real := 30.0

  /** The goal sits 30 units in from the far corner of the world. */
  const GoalX: real := Width - 30.0
  const GoalY: real := Height - 30.0

  /** Half-width of the square window around the goal that counts as arrival. */
  const GoalRadius: real := 10.0

  /** How far one brain entry moves a dot (a direction component of 1 moves 10 units). */
  const StepSize: real := 10.0

  /** The maze, checked in this order on every move. */
  const Obstacles: seq<Obstacle> := [
    Obstacle(200.0, 100.0, 400.0, 120.0),
    Obstacle(100.0, 300.0, 300.0, 320.0),
    Obstacle(350.0, 450.0, 550.0, 470.0)
  ]

  /** Every obstacle of the maze has ordered corners. */
  lemma ObstaclesWellFormed()
    ensures forall i :: 0 <= i < |Obstacles| ==> Obstacles[i].WellFormed()
  {
  }

  /** A point outside each of the three rectangles is clear of the maze. */
  lemma ClearOfMaze(x: real, y: real)
    requires !Obstacles[0].Collides(x, y)
    requires !Obstacles[1].Collides(x, y)
    requires !Obstacles[2].Collides(x, y)
    ensures !HitsAny(Obstacles, x, y)
  {
  }

  /** The start point lies outside every obstacle of the maze. */
  lemma StartIsClear()
    ensures !HitsAny(Obstacles, StartX, StartY)
  {
  }
}
