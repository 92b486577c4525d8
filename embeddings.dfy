/**
 * The `movie_embeddings` command: score every movie of a JSON list against the
 * prompt's embedding, collect the scores in a list, and report the title at
 * `np.argmax` of that list.
 *
 * Unlike `movie_recommendations`, nothing is caught here: the first score that
 * raises ends the command, and an empty list makes `np.argmax` raise.
 */
module Embeddings {
  import opened Wrappers
  import Recommendations

  /** One movie of the JSON file: its `title` and its `embedding` list. */
  datatype MovieEntry = MovieEntry(title: string, embedding: seq<real>)

  /** Why the command stopped with an exception. */
  datatype EmbError =
    | ShapeMismatch(index: nat)   // `np.dot` on the movie at `index`: lengths differ
    | EmptyArgmax                 // `np.argmax` of an empty array

  datatype Outcome = Failed(error: EmbError) | Recommended(index: nat, title: string)

  /** The movie's embedding has the prompt's dimension, so `np.dot` accepts it. */
  predicate Comparable(m: MovieEntry, promptDim: nat)
  {
    |m.embedding| == promptDim
  }

  /**
   * `np.argmax`: the position of the greatest value, the first such position on a tie.
   * Like numpy's own scan, a later value replaces the current one only when strictly greater.
   */
  function ArgMax(s: seq<real>): (k: nat)
    requires |s| > 0
    ensures k < |s|
    ensures forall j :: 0 <= j < |s| ==> s[j] <= s[k]
    ensures forall j :: 0 <= j < k ==> s[j] < s[k]
    decreases |s|
  {
    if |s| == 1 then 0
    else
      var k := ArgMax(s[..|s| - 1]);
      if s[|s| - 1] > s[k] then |s| - 1 else k
  }

  /**
   * The loop that builds `similarities`: one score per movie, appended in order, or
   * the position of the first movie `np.dot` refuses.
   */
  method Similarities(movies: seq<MovieEntry>, promptDim: nat, cos: seq<real> -> real)
    returns (r: Result<seq<real>, EmbError>)
    ensures r.Success? <==> forall i :: 0 <= i < |movies| ==> Comparable(movies[i], promptDim)
    ensures r.Success? ==> |r.value| == |movies|
    ensures r.Success? ==> forall i :: 0 <= i < |movies| ==> r.value[i] == cos(movies[i].embedding)
    ensures r.Failure? ==> r.error.ShapeMismatch? && r.error.index < |movies|
    ensures r.Failure? ==> !Comparable(movies[r.error.index], promptDim)
    ensures r.Failure? ==> forall i :: 0 <= i < r.error.index ==> Comparable(movies[i], promptDim)
  {
    var similarities: seq<real> := [];
    for i := 0 to |movies|
      invariant |similarities| == i
      invariant forall j :: 0 <= j < i ==> Comparable(movies[j], promptDim)
      invariant forall j :: 0 <= j < i ==> similarities[j] == cos(movies[j].embedding)
    {
      if |movies[i].embedding| != promptDim {
        return Failure(ShapeMismatch(i));
      }
      similarities := similarities + [cos(movies[i].embedding)];
    }
    return Success(similarities);
  }

  /**
   * `Command.handle` from the prompt embedding on: build the list, take its argmax,
   * and report that movie's title.
   */
  method Recommend(movies: seq<MovieEntry>, promptDim: nat, cos: seq<real> -> real)
    returns (outcome: Outcome)
    ensures outcome.Recommended? <==>
      movies != [] && forall i :: 0 <= i < |movies| ==> Comparable(movies[i], promptDim)
    ensures outcome.Recommended? ==>
      outcome.index < |movies| && outcome.title == movies[outcome.index].title &&
      (forall j :: 0 <= j < |movies| ==>
        cos(movies[j].embedding) <= cos(movies[outcome.index].embedding)) &&
      (forall j :: 0 <= j < outcome.index ==>
        cos(movies[j].embedding) < cos(movies[outcome.index].embedding))
    ensures outcome == Failed(EmptyArgmax) <==> movies == []
    ensures outcome.Failed? && outcome.error.ShapeMismatch? ==>
      outcome.error.index < |movies| && !Comparable(movies[outcome.error.index], promptDim) &&
      forall i :: 0 <= i < outcome.error.index ==> Comparable(movies[i], promptDim)
  {
    var r := Similarities(movies, promptDim, cos);
    match r
    case Failure(e) =>
      outcome := Failed(e);
    case Success(similarities) =>
      if |similarities| == 0 {
        outcome := Failed(EmptyArgmax);
      } else {
        var idx := ArgMax(similarities);
        outcome := Recommended(idx, movies[idx].title);
      }
  }

  /** The scores of a list in which no entry was skipped. */
  function AllScored(s: seq<real>): (r: seq<Option<real>>)
  {
    seq(|s|, i requires 0 <= i < |s| => Some(s[i]))
  }

  /**
   * Where both commands see the same scores and none is skipped, the two rules agree
   * on order and tie-break: the skip-tolerant scan picks the argmax whenever the best
   * score is above -1, and picks nothing otherwise, where argmax still picks a movie.
   */
  lemma ArgMaxAgreesWithSelect(s: seq<real>)
    requires |s| > 0
    ensures s[ArgMax(s)] > Recommendations.Sentinel ==>
      Recommendations.Select(AllScored(s)) == Recommendations.Best(s[ArgMax(s)], Some(ArgMax(s)))
    ensures s[ArgMax(s)] <= Recommendations.Sentinel ==>
      Recommendations.Select(AllScored(s)).winner == None
  {
    var k := ArgMax(s);
    var scores := AllScored(s);
    if s[k] > Recommendations.Sentinel {
      assert Recommendations.IsFirstBest(scores, k, s[k]);
      Recommendations.SelectUnique(scores, k, s[k]);
    } else {
      assert Recommendations.NoneAboveSentinel(scores);
    }
  }
}
