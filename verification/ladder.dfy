/**
  The split-ratio ladder of the data scorer: a fixed, ordered table of
  (training percentage, evaluation percentage) pairs, and the fractions
  each pair is turned into before it is handed to the evaluator.
 */
module Ladder {

  /** One rung of the ladder: the training percentage, passed as the
      evaluator's second-to-last argument, and the evaluation percentage,
      passed as its last argument. */
  datatype Ratio = Ratio(train: nat, eval: nat)

  /** The table built when the scorer is set up, in sweep order. */
  const Ratios: seq<Ratio> := [
    Ratio(10, 90), Ratio(15, 85), Ratio(20, 80), Ratio(25, 75),
    Ratio(30, 70), Ratio(35, 65), Ratio(40, 60), Ratio(45, 55),
    Ratio(50, 50), Ratio(55, 45), Ratio(60, 40), Ratio(65, 35),
    Ratio(70, 30), Ratio(75, 25), Ratio(80, 20), Ratio(85, 15),
    Ratio(90, 10), Ratio(95, 5)
  ]

  /** A well-formed rung: both percentages are positive and they sum to
      one hundred. */
  predicate Valid(r: Ratio) {
    0 < r.train && 0 < r.eval && r.train + r.eval == 100
  }

  /** Independent description of the i-th rung: training share 10 + 5i. */
  function Rung(i: nat): (r: Ratio)
    requires i < 18
    ensures Valid(r)
  {
    Ratio(10 + 5 * i, 90 - 5 * i)
  }

  /** The percentages, divided by one hundred, as passed to the evaluator
      (training fraction first, evaluation fraction second). */
  function Fractions(r: Ratio): (f: (real, real))
    ensures f.0 * 100.0 == r.train as real
    ensures f.1 * 100.0 == r.eval as real
  {
    (r.train as real / 100.0, r.eval as real / 100.0)
  }

  /** The table is exactly the arithmetic ladder 10/90, 15/85, ..., 95/5. */
  lemma RatiosAreRungs()
    ensures |Ratios| == 18
    ensures forall i :: 0 <= i < |Ratios| ==> Ratios[i] == Rung(i)
  {
  }

  /** Every rung sums to one hundred, and the training share strictly
      rises along the table, from 10 up to 95. */
  lemma RatiosShape()
    ensures forall i :: 0 <= i < |Ratios| ==> Valid(Ratios[i])
    ensures Ratios[0].train == 10 && Ratios[|Ratios| - 1].train == 95
    ensures forall i :: 0 < i < |Ratios| ==> Ratios[i].train == Ratios[i - 1].train + 5
    ensures forall i, j :: 0 <= i < j < |Ratios| ==> Ratios[i].train < Ratios[j].train
  {
    RatiosAreRungs();
    forall i, j | 0 <= i < j < |Ratios|
      ensures Ratios[i].train < Ratios[j].train
    {
      assert Ratios[i] == Rung(i) && Ratios[j] == Rung(j);
    }
  }

  /** For a valid ratio both fractions lie strictly between 0 and 1 and
      together make 1. */
  lemma FractionsOfValid(r: Ratio)
    requires Valid(r)
    ensures 0.0 < Fractions(r).0 < 1.0
    ensures 0.0 < Fractions(r).1 < 1.0
    ensures Fractions(r).0 + Fractions(r).1 == 1.0
  {
  }

  /** Every rung of the table yields a proper pair of fractions. */
  lemma LadderFractions(i: nat)
    requires i < |Ratios|
    ensures 0.0 < Fractions(Ratios[i]).0 < 1.0
    ensures 0.0 < Fractions(Ratios[i]).1 < 1.0
    ensures Fractions(Ratios[i]).0 + Fractions(Ratios[i]).1 == 1.0
  {
  }
}
