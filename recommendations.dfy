/**
 * The `movie_recommendations` command: score every movie of the table against the
 * prompt's embedding and keep the best one, skipping movies whose stored embedding
 * cannot be decoded or compared.
 *
 * The cosine formula is the parameter `cos`; the prompt embedding enters only through
 * its dimension `promptDim`, which is what `np.dot` checks before it computes anything.
 */
module Recommendations {
  import opened Wrappers
  import opened Blob

  /** A row of the movie table, as far as this command reads it. */
  datatype Movie = Movie(title: string, emb: seq<byte>)

  /** The best score seen so far and the position of the movie that holds it, if any. */
  datatype Best = Best(score: real, winner: Option<nat>)

  /** What the command reports. */
  datatype Outcome =
    | NoMovies                                           // the table is empty
    | NoRecommendation                                   // no movie scored above the sentinel
    | Recommended(index: nat, movie: Movie, similarity: real)

  /** The value `best_similarity` starts from. */
  const Sentinel: real := -1.0

  /**
   * The score of one movie, or `None` when computing it raises: the blob does not
   * decode, or its vector does not have the prompt's dimension (`np.dot` refuses
   * vectors of different lengths).
   */
  function EntryScore(emb: seq<byte>, promptDim: nat, cos: seq<Float32Bits> -> real): (r: Option<real>)
    ensures r.None? <==> |emb| % 4 != 0 || |emb| / 4 != promptDim
    ensures r.Some? ==> r.value == cos(Decode(emb).value)
  {
    match Decode(emb)
    case None => None
    case Some(v) => if |v| != promptDim then None else Some(cos(v))
  }

  /** The score of every movie, in table order. */
  function Scores(movies: seq<Movie>, promptDim: nat, cos: seq<Float32Bits> -> real): (r: seq<Option<real>>)
    ensures |r| == |movies|
    ensures forall i :: 0 <= i < |movies| ==>
      (r[i].None? <==> |movies[i].emb| % 4 != 0 || |movies[i].emb| / 4 != promptDim)
    ensures forall i :: 0 <= i < |movies| && r[i].Some? ==> r[i].value == cos(Decode(movies[i].emb).value)
  {
    seq(|movies|, i requires 0 <= i < |movies| => EntryScore(movies[i].emb, promptDim, cos))
  }

  /** No entry that was scored rises above the sentinel (this includes every entry skipped). */
  predicate NoneAboveSentinel(scores: seq<Option<real>>)
  {
    forall i :: 0 <= i < |scores| && scores[i].Some? ==> scores[i].value <= Sentinel
  }

  /**
   * Entry k is the recommendation with score s: it was scored, with s, above the
   * sentinel; no scored entry beats s; and every scored entry before k is below s.
   */
  predicate IsFirstBest(scores: seq<Option<real>>, k: nat, s: real)
  {
    k < |scores| && scores[k] == Some(s) && s > Sentinel &&
    (forall i :: 0 <= i < |scores| && scores[i].Some? ==> scores[i].value <= s) &&
    (forall i :: 0 <= i < k && scores[i].Some? ==> scores[i].value < s)
  }

  /**
   * The selection rule of the scan: start from the sentinel with no winner, skip the
   * entries that raised, and take an entry only when it is strictly better.
   */
  function Select(scores: seq<Option<real>>): (b: Best)
    ensures b.winner.None? <==> NoneAboveSentinel(scores)
    ensures b.winner.None? ==> b.score == Sentinel
    ensures b.winner.Some? ==> IsFirstBest(scores, b.winner.value, b.score)
    decreases |scores|
  {
    if scores == [] then Best(Sentinel, None)
    else
      var init := scores[..|scores| - 1];
      var before := Select(init);
      var last := scores[|scores| - 1];
      assert forall i :: 0 <= i < |init| ==> init[i] == scores[i];
      if last.Some? && last.value > before.score then Best(last.value, Some(|scores| - 1))
      else before
  }

  /** The first-best entry is unique, so it is what the scan selects. */
  lemma SelectUnique(scores: seq<Option<real>>, k: nat, s: real)
    requires IsFirstBest(scores, k, s)
    ensures Select(scores) == Best(s, Some(k))
  {
    var b := Select(scores);
    assert !NoneAboveSentinel(scores) by { assert scores[k].Some? && scores[k].value > Sentinel; }
    var w := b.winner.value;
    assert scores[k].value <= b.score && scores[w].value <= s;
  }

  /** Skipped entries never win, whatever the other scores are. */
  lemma {:induction false} SkippedNeverSelected(scores: seq<Option<real>>, i: nat)
    requires i < |scores| && scores[i].None?
    ensures Select(scores).winner != Some(i)
    ensures Select(scores) == Select(scores[..i] + [Some(Sentinel)] + scores[i + 1..])
  {
    var other := scores[..i] + [Some(Sentinel)] + scores[i + 1..];
    assert |other| == |scores|;
    var b := Select(scores);
    var c := Select(other);
    forall j | 0 <= j < |scores| && j != i ensures other[j] == scores[j] {
      if j < i { assert other[j] == scores[..i][j]; }
      else { assert other[j] == scores[i + 1..][j - i - 1]; }
    }
    assert other[i] == Some(Sentinel);
    if b.winner.None? {
      assert NoneAboveSentinel(other);
    } else {
      assert IsFirstBest(other, b.winner.value, b.score);
      SelectUnique(other, b.winner.value, b.score);
    }
  }

  /**
   * `Command.handle`: report an empty table, otherwise scan it once in order. The result
   * is the first movie with the greatest score above -1, or no recommendation.
   */
  method Recommend(movies: seq<Movie>, promptDim: nat, cos: seq<Float32Bits> -> real)
    returns (outcome: Outcome)
    ensures movies == [] <==> outcome == NoMovies
    ensures outcome == NoRecommendation <==>
      movies != [] && NoneAboveSentinel(Scores(movies, promptDim, cos))
    ensures outcome.Recommended? ==>
      outcome.index < |movies| && outcome.movie == movies[outcome.index] &&
      IsFirstBest(Scores(movies, promptDim, cos), outcome.index, outcome.similarity)
  {
    if movies == [] {
      return NoMovies;
    }
    ghost var scores := Scores(movies, promptDim, cos);
    var bestSimilarity := Sentinel;
    var recommended: Option<nat> := None;
    for i := 0 to |movies|
      invariant Best(bestSimilarity, recommended) == Select(scores[..i])
    {
      assert scores[..i + 1][..i] == scores[..i];
      var similarity := EntryScore(movies[i].emb, promptDim, cos);
      if similarity.None? {
        continue;
      }
      if similarity.value > bestSimilarity {
        bestSimilarity := similarity.value;
        recommended := Some(i);
      }
    }
    assert scores[..|movies|] == scores;
    match recommended
    case None => outcome := NoRecommendation;
    case Some(k) => outcome := Recommended(k, movies[k], bestSimilarity);
  }
}
