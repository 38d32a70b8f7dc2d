/**
  The sweep of one similarity algorithm over the ladder: evaluate every
  rung in order, label it, remember the best rung, and mark its label.

  The two sweep methods of the scorer differ only in the similarity class
  their recommender builder creates, so here they are one sweep with an
  algorithm tag. The evaluation itself (split the data at random, build the
  recommender, average the absolute differences) belongs to a library whose
  code is not part of this model; it enters as the parameter `evaluate`, a
  function from the algorithm and the two fractions to a score.
 */
module Sweep {
  import opened Ladder
  import opened Selection
  import opened Labels

  /** The item-similarity measure the recommender is built with. */
  datatype Algorithm = Tanimoto | LogLikelihood

  /** Score of one evaluation: algorithm, training fraction, evaluation
      fraction. */
  type Evaluator = (Algorithm, real, real) -> real

  /** What the sweep hands to the table printer: row labels (the chosen one
      marked), scores in ladder order, and the chosen row. */
  datatype Table = Table(headers: seq<string>, data: seq<real>, best: nat)

  /** Score of one rung: the percentages are passed as fractions. */
  function Score(alg: Algorithm, evaluate: Evaluator, r: Ratio): real {
    var f := Fractions(r);
    evaluate(alg, f.0, f.1)
  }

  /** A rung's score is the evaluator at the two fractions that, times one
      hundred, give the rung's percentages. */
  lemma ScoreAtFractions(alg: Algorithm, evaluate: Evaluator, r: Ratio, f0: real, f1: real)
    requires f0 * 100.0 == r.train as real && f1 * 100.0 == r.eval as real
    ensures Score(alg, evaluate, r) == evaluate(alg, f0, f1)
  {
    assert Fractions(r) == (f0, f1);
  }

  /** Scores of a ladder, in order. */
  function Scores(alg: Algorithm, evaluate: Evaluator, rs: seq<Ratio>): seq<real> {
    seq(|rs|, i requires 0 <= i < |rs| => Score(alg, evaluate, rs[i]))
  }

  /** Post-processing of the scores of a non-empty ladder: pick the row the
      loop picks and mark its label. */
  function Tabulate(rs: seq<Ratio>, scores: seq<real>): (t: Table)
    requires 0 < |rs| && |scores| == |rs|
    ensures t.data == scores
    ensures t.best < |rs| && t.best == Select(scores).index
    ensures |t.headers| == |rs|
    ensures forall j :: 0 <= j < |rs| ==> (EndsWithMarker(t.headers[j]) <==> j == t.best)
    ensures forall j :: 0 <= j < |rs| && j != t.best ==> t.headers[j] == Header(rs[j])
    ensures t.headers[t.best] == Header(rs[t.best]) + Marker
  {
    var best := Select(scores).index;
    MarkedExactlyOne(rs, best);
    Table(Mark(Headers(rs), best), scores, best)
  }

  /** One full sweep over a ladder `rs` with the given algorithm. The
      scorer always sweeps `Ratios`; the ladder is a parameter so that the
      proofs need not unfold the table's literal. An empty ladder is
      excluded: DataScorer would then mark a label that does not exist. */
  function Sweep(rs: seq<Ratio>, alg: Algorithm, evaluate: Evaluator): (t: Table)
    requires 0 < |rs|
    ensures |t.data| == |rs| == |t.headers|
    ensures t.best < |rs| && t.best == Select(t.data).index
    ensures forall j :: 0 <= j < |rs| ==> t.data[j] == Score(alg, evaluate, rs[j])
    ensures forall j :: 0 <= j < |rs| ==> (EndsWithMarker(t.headers[j]) <==> j == t.best)
    ensures forall j :: 0 <= j < |rs| && j != t.best ==> t.headers[j] == Header(rs[j])
    ensures t.headers[t.best] == Header(rs[t.best]) + Marker
  {
    Tabulate(rs, Scores(alg, evaluate, rs))
  }

  /** The row a sweep marks, in terms of its scores: with no zero score it
      is the first lowest one; a zero score that is not the last is never
      marked. */
  lemma TabulateChoosesBest(rs: seq<Ratio>, scores: seq<real>)
    requires 0 < |rs| && |scores| == |rs|
    ensures (forall j :: 0 <= j < |scores| ==> scores[j] != 0.0) ==>
              IsFirstMinIn(scores, 0, |scores|, Tabulate(rs, scores).best)
    ensures forall z :: 0 <= z < |scores| - 1 && scores[z] == 0.0 ==> Tabulate(rs, scores).best != z
    ensures forall k :: IsFirstMinIn(scores, 0, |scores|, k) && (forall j :: 0 <= j < |scores| ==> scores[j] != 0.0) ==>
              k == Tabulate(rs, scores).best
  {
    var best := Tabulate(rs, scores).best;
    if forall j :: 0 <= j < |scores| ==> scores[j] != 0.0 {
      SelectNonZero(scores);
      forall k | IsFirstMinIn(scores, 0, |scores|, k)
        ensures k == best
      {
        FirstMinUnique(scores, 0, |scores|, k, best);
      }
    }
    forall z | 0 <= z < |scores| - 1 && scores[z] == 0.0
      ensures best != z
    {
      SelectSkipsZero(scores, z);
    }
  }

  /** The algorithm reaches the outcome only through the evaluator: two
      sweeps whose rungs score alike produce the same table. In particular
      the Tanimoto and log-likelihood sweeps mark the same row whenever the
      evaluator gives them the same scores. */
  lemma SameScoresSameTable(rs: seq<Ratio>, alg1: Algorithm, eval1: Evaluator, alg2: Algorithm, eval2: Evaluator)
    requires 0 < |rs|
    requires forall j :: 0 <= j < |rs| ==> Score(alg1, eval1, rs[j]) == Score(alg2, eval2, rs[j])
    ensures Sweep(rs, alg1, eval1) == Sweep(rs, alg2, eval2)
  {
    assert Scores(alg1, eval1, rs) == Scores(alg2, eval2, rs);
  }

  /** On the scorer's own ladder: eighteen rows, each scored with the
      fractions of its rung, which lie strictly between 0 and 1 and sum
      to 1. */
  lemma LadderSweep(alg: Algorithm, evaluate: Evaluator)
    ensures 0 < |Ratios|
    ensures var t := Sweep(Ratios, alg, evaluate);
      && |t.data| == 18 && t.best < 18
      && forall j :: 0 <= j < 18 ==>
           && 0.0 < Fractions(Ratios[j]).0 < 1.0
           && 0.0 < Fractions(Ratios[j]).1 < 1.0
           && Fractions(Ratios[j]).0 + Fractions(Ratios[j]).1 == 1.0
           && t.data[j] == evaluate(alg, Fractions(Ratios[j]).0, Fractions(Ratios[j]).1)
  {
    RatiosAreRungs();
    forall j | 0 <= j < 18 {
      LadderFractions(j);
    }
  }

  /** The loop of the scorer's sweep method: evaluate each rung in order,
      record its score, and update the lowest score and its index. (The
      label the loop also records for each rung is `Header` of that rung;
      it is built in `RunSweep`.) */
  method ScoreLoop(rs: seq<Ratio>, alg: Algorithm, evaluate: Evaluator)
    returns (data: seq<real>, lowest: real, index: nat)
    ensures data == Scores(alg, evaluate, rs)
    ensures Best(lowest, index) == Select(data)
  {
    data := [];
    lowest := 0.0;
    index := 0;
    var i := 0;
    while i < |rs|
      invariant i <= |rs|
      invariant |data| == i
      invariant forall j :: 0 <= j < i ==> data[j] == Score(alg, evaluate, rs[j])
      invariant Best(lowest, index) == Select(data)
    {
      var f := Fractions(rs[i]);
      var score := evaluate(alg, f.0, f.1);
      SelectSnoc(data, score);
      data := data + [score];
      if lowest == 0.0 || (0.0 != lowest && score < lowest) {
        lowest := score;
        index := i;
      }
      i := i + 1;
    }
  }

  /** The scorer's sweep method: run the loop, label every rung, and mark
      the label of the chosen one. */
  method RunSweep(rs: seq<Ratio>, alg: Algorithm, evaluate: Evaluator)
    returns (headers: seq<string>, data: seq<real>, index: nat)
    requires 0 < |rs|
    ensures Table(headers, data, index) == Sweep(rs, alg, evaluate)
    ensures index < |rs| && |headers| == |rs|
    ensures forall j :: 0 <= j < |rs| ==> (EndsWithMarker(headers[j]) <==> j == index)
  {
    var lowest;
    data, lowest, index := ScoreLoop(rs, alg, evaluate);
    headers := Mark(Headers(rs), index);
  }
}
