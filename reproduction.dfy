/** Elitist reproduction: the next population is mutated copies of one parent. */
module Reproduction {
  import opened Config
  import opened Dots

  /** A draw in [0, 1), as the uniform generator produces. */
  predicate UnitDraw(r: real) {
    0.0 <= r < 1.0
  }

  /** Whether the draw at a position makes that position mutate. */
  predicate Fires(draw: real) {
    draw < MutationRate
  }

  /** Per-child draws: one row per child, one entry per brain position. */
  predicate DrawsShaped(draws: seq<seq<real>>) {
    |draws| == PopSize && forall c :: 0 <= c < |draws| ==> |draws[c]| == MaxSteps
  }

  /** Per-child replacement vectors: one row per child, one entry per brain position. */
  predicate VectorsShaped(vectors: seq<seq<Vec>>) {
    |vectors| == PopSize && forall c :: 0 <= c < |vectors| ==> |vectors[c]| == MaxSteps
  }

  /**
   * The brain of one child: the parent's entry at every position whose draw
   * does not fire, the replacement vector at every position whose draw does.
   */
  function Mutate(parent: seq<Vec>, draws: seq<real>, vectors: seq<Vec>): (child: seq<Vec>)
    requires |draws| == |parent| && |vectors| == |parent|
    ensures |child| == |parent|
    ensures InUnitBox(parent) && InUnitBox(vectors) ==> InUnitBox(child)
  {
    seq(|parent|, i requires 0 <= i < |parent| => if Fires(draws[i]) then vectors[i] else parent[i])
  }

  /**
   * A child differs from its parent only where the draw fired, and where it
   * fired the child holds the replacement vector.
   */
  lemma MutateChangesOnlyFiredPositions(parent: seq<Vec>, draws: seq<real>, vectors: seq<Vec>, i: nat)
    requires |draws| == |parent| && |vectors| == |parent|
    requires i < |parent|
    ensures Mutate(parent, draws, vectors)[i] != parent[i] ==> Fires(draws[i])
    ensures Fires(draws[i]) ==> Mutate(parent, draws, vectors)[i] == vectors[i]
  {
  }

  /** When no draw fires the child's brain is an exact copy of the parent's. */
  lemma NoFiringIsCopy(parent: seq<Vec>, draws: seq<real>, vectors: seq<Vec>)
    requires |draws| == |parent| && |vectors| == |parent|
    requires forall i :: 0 <= i < |draws| ==> !Fires(draws[i])
    ensures Mutate(parent, draws, vectors) == parent
  {
  }

  /**
   * Builds the next population from the best dot: PopSize fresh dots at the
   * start point, each with its own copy of the best brain, mutated in place at
   * every position whose draw fires. The best dot's brain is left as it was.
   */
  method Reproduce(best: Dot, draws: seq<seq<real>>, vectors: seq<seq<Vec>>) returns (children: seq<Dot>)
    requires best.brain.Length == MaxSteps
    requires DrawsShaped(draws) && VectorsShaped(vectors)
    requires forall c, i :: 0 <= c < PopSize && 0 <= i < MaxSteps ==> UnitDraw(draws[c][i])
    requires forall c :: 0 <= c < PopSize ==> InUnitBox(vectors[c])
    ensures |children| == PopSize && Distinct(children)
    ensures forall c, d :: 0 <= c < d < PopSize ==> children[c].brain != children[d].brain
    ensures forall c :: 0 <= c < PopSize ==>
      && fresh(children[c]) && fresh(children[c].brain)
      && children[c].State() == Start && children[c].fitness == 0.0
      && children[c].brain.Length == MaxSteps
      && children[c].brain[..] == Mutate(best.brain[..], draws[c], vectors[c])
    ensures InUnitBox(best.brain[..]) ==> forall c :: 0 <= c < PopSize ==> InUnitBox(children[c].brain[..])
    ensures best.brain[..] == old(best.brain[..])
  {
    var parent := best.brain[..];
    children := [];
    while |children| < PopSize
      invariant |children| <= PopSize
      invariant Distinct(children)
      invariant forall c, d :: 0 <= c < d < |children| ==> children[c].brain != children[d].brain
      invariant forall c :: 0 <= c < |children| ==>
        && fresh(children[c]) && fresh(children[c].brain)
        && children[c].State() == Start && children[c].fitness == 0.0
        && children[c].brain.Length == MaxSteps
        && children[c].brain[..] == Mutate(parent, draws[c], vectors[c])
      invariant best.brain[..] == parent
    {
      var c := |children|;
      var child := new Dot(parent);
      for i := 0 to MaxSteps
        modifies child.brain
        invariant forall j :: 0 <= j < i ==> child.brain[j] == Mutate(parent, draws[c], vectors[c])[j]
        invariant forall j :: i <= j < MaxSteps ==> child.brain[j] == parent[j]
      {
        if Fires(draws[c][i]) {
          child.brain[i] := vectors[c][i];
        }
      }
      assert child.brain[..] == Mutate(parent, draws[c], vectors[c]);
      children := children + [child];
    }
  }
}
