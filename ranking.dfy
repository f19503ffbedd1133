/** Pairing teams with the classifier's probabilities and ranking them (app.py lines 72-76). */
module Ranking {
  import opened Tables

  /** One row of `prediction_results`: a team and its winning-class probability. */
  datatype Prediction = Prediction(team: Team, probability: real)

  /** Highest probability first; ties in any order. */
  predicate NonIncreasing(ps: seq<Prediction>)
  {
    forall i, j :: 0 <= i < j < |ps| ==> ps[i].probability >= ps[j].probability
  }

  /** `prediction_results['win_probability'] = live_probs`: row `i` gets the `i`-th probability. */
  function Label(teams: seq<Team>, probs: seq<real>): (r: seq<Prediction>)
    requires |teams| == |probs|
    ensures |r| == |teams|
  {
    seq(|teams|, i requires 0 <= i < |teams| => Prediction(teams[i], probs[i]))
  }

  /** An entry no lower than every entry of a ranking can head it. */
  lemma ConsNonIncreasing(p: Prediction, ranked: seq<Prediction>)
    requires NonIncreasing(ranked)
    requires forall q :: q in ranked ==> q.probability <= p.probability
    ensures NonIncreasing([p] + ranked)
  {
  }

  /** Places `p` into a ranking, before every entry it does not fall below. */
  function Insert(p: Prediction, ranked: seq<Prediction>): (r: seq<Prediction>)
    requires NonIncreasing(ranked)
    ensures NonIncreasing(r)
    ensures multiset(r) == multiset(ranked) + multiset{p}
    ensures forall q :: q in r ==> q == p || q in ranked
  {
    if ranked == [] || p.probability >= ranked[0].probability then
      ConsNonIncreasing(p, ranked);
      [p] + ranked
    else
      var head, tail := ranked[0], ranked[1..];
      var rest := Insert(p, tail);
      assert ranked == [head] + tail;
      ConsNonIncreasing(head, rest);
      [head] + rest
  }

  /** `sort_values('win_probability', ascending=False)`: a permutation, highest probability first. */
  function SortByProbability(ps: seq<Prediction>): (r: seq<Prediction>)
    ensures NonIncreasing(r)
    ensures multiset(r) == multiset(ps)
  {
    if ps == [] then []
    else
      assert ps == [ps[0]] + ps[1..];
      Insert(ps[0], SortByProbability(ps[1..]))
  }

  /** The first entry of a ranking has the highest probability of all. */
  lemma TopPickIsMaximal(ps: seq<Prediction>, q: Prediction)
    requires q in SortByProbability(ps)
    ensures SortByProbability(ps)[0].probability >= q.probability
    ensures q in ps
  {
  }
}
