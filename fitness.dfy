/** The scoring rule of `NeuroEvolution::updateScores`
    (src/learning/NeuroEvolution/NeuroEvolution.cpp): how a raw score vector becomes a
    scalar score, and how that score updates one member's running best. Scores are
    real numbers here; IEEE double rounding is not modelled. */
module Fitness {

  /** The weights of the two score components in the scalar score. */
  const Weight0: real := 1.0
  const Weight1: real := 0.0

  /** The pad appended to a score vector that does not have exactly two components. */
  const Pad: real := -1.0

  /** A member's running best: `maxScore`, and the raw components `maxScore1`,
      `maxScore2` of the episode that last won. */
  datatype Best = Best(maxScore: real, maxScore1: real, maxScore2: real)

  /** The vector as the rest of `updateScores` reads it: a two-component vector as it
      is, any other with one pad appended. */
  function Padded(multiscore: seq<real>): (r: seq<real>)
    requires 1 <= |multiscore|
    ensures |r| == if |multiscore| == 2 then 2 else |multiscore| + 1
    ensures r[..|multiscore|] == multiscore
    ensures |multiscore| != 2 ==> r == multiscore + [Pad]
    ensures |multiscore| == 2 ==> r == multiscore
  {
    if |multiscore| == 2 then multiscore else multiscore + [Pad]
  }

  /** What the vector adds to the generation's score log: itself when it has exactly
      two components, nothing otherwise. */
  function Logged(multiscore: seq<real>): (r: seq<seq<real>>)
    ensures forall v :: v in r ==> |v| == 2
    ensures r == [] || r == [multiscore]
    ensures |multiscore| == 2 ==> r == [multiscore]
  {
    if |multiscore| == 2 then [multiscore] else []
  }

  /** The scalar score of an episode: only the first component counts. */
  function Scalar(multiscore: seq<real>): (r: real)
    requires 1 <= |multiscore|
    ensures r == multiscore[0]
  {
    var v := Padded(multiscore);
    Weight0 * v[0] - Weight1 * v[1]
  }

  function Max(a: real, b: real): real {
    if a < b then b else a
  }

  /** The update of one member's running best by an episode scoring `score`, whose raw
      components are `c0` and `c1`. A score at least the current best wins and is taken
      with its components; a lower one pulls the best towards it by `1 - leniencyCoef`. */
  function Aggregate(prev: Best, score: real, c0: real, c1: real, leniencyCoef: real): (r: Best)
    ensures prev.maxScore <= score ==> r == Best(score, c0, c1)
    ensures score < prev.maxScore ==> r.maxScore1 == prev.maxScore1 && r.maxScore2 == prev.maxScore2
    ensures 0.0 <= leniencyCoef <= 1.0 ==> score <= r.maxScore <= Max(prev.maxScore, score)
    ensures score < prev.maxScore && leniencyCoef < 1.0 ==> r.maxScore < prev.maxScore
  {
    var prevScore := prev.maxScore;
    if prevScore > score then
      BlendBetween(prevScore, score, leniencyCoef);
      Best(Blend(prevScore, score, leniencyCoef), prev.maxScore1, prev.maxScore2)
    else
      Best(score, c0, c1)
  }

  /** The leniency blend of a previous best `p` with a lower score `s`: the point that
      lies the fraction `leniencyCoef` of the way from `s` to `p`. */
  function Blend(p: real, s: real, leniencyCoef: real): (r: real)
    ensures r - s == leniencyCoef * (p - s)
    ensures p - r == (1.0 - leniencyCoef) * (p - s)
  {
    leniencyCoef * p + (1.0 - leniencyCoef) * s
  }

  /** `Blend(p, s, leniencyCoef)` lies between `s` and `p` when the
      coefficient is in [0, 1], strictly below `p` when it is below 1. */
  lemma BlendBetween(p: real, s: real, leniencyCoef: real)
    requires s < p
    ensures 0.0 <= leniencyCoef <= 1.0 ==> s <= Blend(p, s, leniencyCoef) <= p
    ensures leniencyCoef < 1.0 ==> Blend(p, s, leniencyCoef) < p
  {
    var b := Blend(p, s, leniencyCoef);
    var d := p - s;
    assert b == s + leniencyCoef * d;
    assert b == p - (1.0 - leniencyCoef) * d;
    MulNonNegative(leniencyCoef, d);
    MulNonNegative(1.0 - leniencyCoef, d);
  }

  lemma MulNonNegative(x: real, y: real)
    requires 0.0 < y
    ensures 0.0 <= x ==> 0.0 <= x * y
    ensures 0.0 < x ==> 0.0 < x * y
  {
  }

  /** One episode's effect on a member it was selected for. A first component at least
      the current best wins and is stored with the first two components, the pad standing
      in for a missing second one; a lower one blends into `maxScore` and leaves the
      stored components alone. */
  function Update(prev: Best, multiscore: seq<real>, leniencyCoef: real): (r: Best)
    requires 1 <= |multiscore|
    ensures prev.maxScore <= multiscore[0] ==>
      r == Best(multiscore[0], multiscore[0], if |multiscore| == 1 then Pad else multiscore[1])
    ensures multiscore[0] < prev.maxScore ==>
      r == Best(Blend(prev.maxScore, multiscore[0], leniencyCoef), prev.maxScore1, prev.maxScore2)
  {
    var v := Padded(multiscore);
    Aggregate(prev, Scalar(multiscore), v[0], v[1], leniencyCoef)
  }

  /** A member's running best after the episodes `episodes`, oldest first. */
  function Replay(start: Best, episodes: seq<seq<real>>, leniencyCoef: real): Best
    requires forall k :: 0 <= k < |episodes| ==> 1 <= |episodes[k]|
    decreases |episodes|
  {
    if episodes == [] then start
    else
      var n := |episodes| - 1;
      Update(Replay(start, episodes[..n], leniencyCoef), episodes[n], leniencyCoef)
  }

  /** The highest of `start` and the scalar scores of `episodes`. */
  function Highest(start: real, episodes: seq<seq<real>>): real
    requires forall k :: 0 <= k < |episodes| ==> 1 <= |episodes[k]|
    decreases |episodes|
  {
    if episodes == [] then start
    else
      var n := |episodes| - 1;
      Max(Highest(start, episodes[..n]), Scalar(episodes[n]))
  }

  /** With `leniencyCoef` in [0, 1] the running best after any series of episodes is at
      least the latest score and never exceeds the highest of the starting value and all
      scores seen: leniency can lower the best, never raise it past what was earned. */
  lemma {:induction false} ReplayBounded(start: Best, episodes: seq<seq<real>>, leniencyCoef: real)
    requires forall k :: 0 <= k < |episodes| ==> 1 <= |episodes[k]|
    requires 0.0 <= leniencyCoef <= 1.0
    ensures Replay(start, episodes, leniencyCoef).maxScore <= Highest(start.maxScore, episodes)
    ensures episodes != [] ==> Scalar(episodes[|episodes| - 1]) <= Replay(start, episodes, leniencyCoef).maxScore
    decreases |episodes|
  {
    if episodes != [] {
      ReplayBounded(start, episodes[..|episodes| - 1], leniencyCoef);
    }
  }

  /** The two worked cases of the rule: a lower score 4 against a best of 10 with
      coefficient 0.5 gives 7 and keeps the components; a score 9 with components (9, 1)
      against a best of 5 wins. */
  lemma AggregateExamples(c1: real, c2: real)
    ensures Aggregate(Best(10.0, c1, c2), 4.0, 4.0, 0.0, 0.5) == Best(7.0, c1, c2)
    ensures Aggregate(Best(5.0, c1, c2), 9.0, 9.0, 1.0, 0.5) == Best(9.0, 9.0, 1.0)
  {
  }
}
