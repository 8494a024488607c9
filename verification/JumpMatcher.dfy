/**
The storybook's fuzzy jump: a memoised recursion that finds the best way to place a query's
characters in a title. Scores are five times the code's, so the 0.2 gap penalty is exact.
*/
module JumpMatcher {
  import opened Wrappers

  datatype JumpMatch = JumpMatch(score: int, indices: seq<nat>)

  // A lower-cased title, the query, and which title positions start a word.
  datatype Problem = Problem(text: string, query: string, starts: seq<bool>)

  // `indices` places query[queryIndex..] in text[textIndex..], in order.
  ghost predicate Embeds(p: Problem, textIndex: nat, queryIndex: nat, indices: seq<nat>)
    decreases |indices|
  {
    if queryIndex >= |p.query| then indices == []
    else
      indices != [] && textIndex <= indices[0] < |p.text| && p.text[indices[0]] == p.query[queryIndex] &&
      Embeds(p, indices[0] + 1, queryIndex + 1, indices[1..])
  }

  function StepScore(p: Problem, index: nat, previous: int): int {
    var consecutive := previous >= 0 && index == previous + 1;
    var gap := if previous >= 0 then index - previous - 1 else index;
    5 + (if index < |p.starts| && p.starts[index] then 40 else 0) + (if consecutive then 25 else 0) +
    (if index == 0 then 20 else 0) - gap
  }

  function Score(p: Problem, previous: int, indices: seq<nat>): int
    decreases |indices|
  {
    if indices == [] then 0 else StepScore(p, indices[0], previous) + Score(p, indices[0], indices[1..])
  }

  predicate LexLeq(a: seq<nat>, b: seq<nat>) {
    a == [] || (b != [] && (a[0] < b[0] || (a[0] == b[0] && LexLeq(a[1..], b[1..]))))
  }

  // A higher score, or the same score with earlier positions.
  ghost predicate AtLeastAsGood(p: Problem, previous: int, m: JumpMatch, indices: seq<nat>) {
    m.score > Score(p, previous, indices) || (m.score == Score(p, previous, indices) && LexLeq(m.indices, indices))
  }

  // The best of all embeddings whose first position is below `bound`.
  ghost predicate IsBestBelow(p: Problem, textIndex: nat, queryIndex: nat, previous: int, bound: nat, r: Option<JumpMatch>) {
    match r
    case None => forall e :: Embeds(p, textIndex, queryIndex, e) ==> e != [] && e[0] >= bound
    case Some(m) =>
      && Embeds(p, textIndex, queryIndex, m.indices) && m.score == Score(p, previous, m.indices)
      && (m.indices != [] ==> m.indices[0] < bound)
      && forall e :: Embeds(p, textIndex, queryIndex, e) && (e != [] ==> e[0] < bound) ==> AtLeastAsGood(p, previous, m, e)
  }

  // The best of all embeddings.
  ghost predicate IsBest(p: Problem, textIndex: nat, queryIndex: nat, previous: int, r: Option<JumpMatch>) {
    match r
    case None => forall e :: !Embeds(p, textIndex, queryIndex, e)
    case Some(m) =>
      && Embeds(p, textIndex, queryIndex, m.indices) && m.score == Score(p, previous, m.indices)
      && forall e :: Embeds(p, textIndex, queryIndex, e) ==> AtLeastAsGood(p, previous, m, e)
  }

  /* ---------- The score of a placement ---------- */

  // Placed characters that start a word, and placed characters right before another placed one.
  function WordStarts(p: Problem, indices: seq<nat>): set<nat> {
    set i | i in indices && i < |p.starts| && p.starts[i]
  }

  predicate Precedes(indices: seq<nat>, i: nat) {
    i + 1 in indices
  }

  function Adjacent(indices: seq<nat>): set<nat> {
    set i | i in indices && Precedes(indices, i)
  }

  predicate Ascending(indices: seq<nat>) {
    |indices| < 2 || (indices[0] < indices[1] && Ascending(indices[1..]))
  }

  ghost predicate AllAbove(indices: seq<nat>, bound: int) {
    forall i :: i in indices ==> bound < i
  }

  lemma {:induction false} AscendsAbove(indices: seq<nat>, bound: int)
    requires Ascending(indices) && (indices != [] ==> bound < indices[0])
    ensures AllAbove(indices, bound)
    decreases |indices|
  {
    if indices != [] {
      AscendsAbove(indices[1..], bound);
      assert indices == [indices[0]] + indices[1..];
    }
  }

  lemma {:induction false} EmbeddingAscends(p: Problem, textIndex: nat, queryIndex: nat, indices: seq<nat>)
    requires Embeds(p, textIndex, queryIndex, indices)
    ensures Ascending(indices) && (indices != [] ==> textIndex <= indices[0])
    ensures queryIndex <= |p.query| ==> |indices| == |p.query| - queryIndex
    decreases |indices|
  {
    if indices != [] { EmbeddingAscends(p, indices[0] + 1, queryIndex + 1, indices[1..]); }
  }

  // What one more character in front adds to the two sets.
  lemma StartsOfMore(p: Problem, first: nat, rest: seq<nat>)
    requires AllAbove(rest, first)
    ensures |WordStarts(p, [first] + rest)| ==
            |WordStarts(p, rest)| + if first < |p.starts| && p.starts[first] then 1 else 0
  {
    var all := [first] + rest;
    assert forall i :: i in all <==> i == first || i in rest;
    assert WordStarts(p, all) == WordStarts(p, rest) + if first < |p.starts| && p.starts[first] then {first} else {};
    assert first !in WordStarts(p, rest);
  }

  lemma AdjacentOfMore(first: nat, rest: seq<nat>)
    requires AllAbove(rest, first)
    ensures |Adjacent([first] + rest)| == |Adjacent(rest)| + if first + 1 in rest then 1 else 0
  {
    var all := [first] + rest;
    InMore(first, rest, first + 1);
    assert Precedes(all, first) <==> first + 1 in rest;
    forall i | i in rest ensures Precedes(all, i) <==> Precedes(rest, i) {
      InMore(first, rest, i + 1);
    }
    hide Precedes;
    assert forall i :: i in all <==> i == first || i in rest;
    assert Adjacent(all) == Adjacent(rest) + if first + 1 in rest then {first} else {};
    assert first !in Adjacent(rest);
  }

  lemma InMore(first: nat, rest: seq<nat>, i: nat)
    ensures i in [first] + rest <==> i == first || i in rest
  {
  }

  // Title characters skipped between the previous placed one and the last.
  function Skipped(previous: int, indices: seq<nat>): int {
    if indices == [] then 0 else indices[|indices| - 1] - previous - |indices|
  }

  // The score after a placed character: the next one may sit right behind it, and only what is
  // skipped since then counts.
  lemma {:induction false} ScoreAfter(p: Problem, previous: nat, indices: seq<nat>)
    requires Ascending(indices) && (indices != [] ==> previous < indices[0])
    ensures Score(p, previous, indices) ==
            5 * |indices| + 40 * |WordStarts(p, indices)| +
            25 * (|Adjacent(indices)| + if indices != [] && indices[0] == previous + 1 then 1 else 0) -
            Skipped(previous, indices)
    decreases |indices|
  {
    if indices == [] {
      assert WordStarts(p, indices) == {} && Adjacent(indices) == {};
    } else {
      ScoreAfter(p, indices[0], indices[1..]);
      ScoreOfFirst(p, indices);
    }
  }

  lemma ScoreOfFirst(p: Problem, indices: seq<nat>)
    requires Ascending(indices) && indices != []
    ensures |WordStarts(p, indices)| ==
            |WordStarts(p, indices[1..])| + if indices[0] < |p.starts| && p.starts[indices[0]] then 1 else 0
    ensures |Adjacent(indices)| ==
            |Adjacent(indices[1..])| + if |indices| > 1 && indices[1] == indices[0] + 1 then 1 else 0
    ensures Skipped(indices[0], indices[1..]) == indices[|indices| - 1] - indices[0] - (|indices| - 1)
  {
    var first, rest := indices[0], indices[1..];
    assert indices == [first] + rest;
    AscendsAbove(rest, first);
    StartsOfMore(p, first, rest);
    AdjacentOfMore(first, rest);
    if rest != [] {
      AscendsAbove(rest[1..], rest[0]);
      assert rest == [rest[0]] + rest[1..];
    }
  }

  /**
  What a placement of the query scores, in fifths: 5 for each character, 40 for each on a word start,
  25 for each right behind another, 20 when the first is at the very beginning, minus 1 for every
  title character skipped up to the last one placed.
  */
  lemma PlacementScore(p: Problem, indices: seq<nat>)
    requires Embeds(p, 0, 0, indices)
    ensures |indices| == |p.query|
    ensures Score(p, -1, indices) ==
            5 * |p.query| + 40 * |WordStarts(p, indices)| + 25 * |Adjacent(indices)| +
            (if indices != [] && indices[0] == 0 then 20 else 0) -
            (if indices == [] then 0 else indices[|indices| - 1] + 1 - |p.query|)
  {
    EmbeddingAscends(p, 0, 0, indices);
    if indices == [] {
      assert WordStarts(p, indices) == {} && Adjacent(indices) == {};
    } else {
      ScoreAfter(p, indices[0], indices[1..]);
      ScoreOfFirst(p, indices);
    }
  }

  lemma {:induction false} LexAntisymmetric(a: seq<nat>, b: seq<nat>)
    requires LexLeq(a, b) && LexLeq(b, a)
    ensures a == b
  {
    if a != [] {
      LexAntisymmetric(a[1..], b[1..]);
      assert a == [a[0]] + a[1..] && b == [b[0]] + b[1..];
    }
  }

  /** The best match is determined, positions included. */
  lemma BestIsUnique(p: Problem, textIndex: nat, queryIndex: nat, previous: int, r: Option<JumpMatch>, q: Option<JumpMatch>)
    requires IsBest(p, textIndex, queryIndex, previous, r) && IsBest(p, textIndex, queryIndex, previous, q)
    ensures r == q
  {
    if r.Some? && q.Some? {
      assert AtLeastAsGood(p, previous, r.value, q.value.indices);
      assert AtLeastAsGood(p, previous, q.value, r.value.indices);
      LexAntisymmetric(r.value.indices, q.value.indices);
    }
  }

  // Placing query[queryIndex] at `index` and the rest as well as possible.
  lemma ExtendBest(p: Problem, textIndex: nat, queryIndex: nat, previous: int, index: nat, rest: Option<JumpMatch>)
    requires queryIndex < |p.query| && textIndex <= index < |p.text| && p.text[index] == p.query[queryIndex]
    requires IsBest(p, index + 1, queryIndex + 1, index, rest)
    ensures rest.None? ==> forall e :: Embeds(p, textIndex, queryIndex, e) ==> e[0] != index
    ensures rest.Some? ==>
      var m := JumpMatch(StepScore(p, index, previous) + rest.value.score, [index] + rest.value.indices);
      && Embeds(p, textIndex, queryIndex, m.indices) && m.score == Score(p, previous, m.indices)
      && forall e :: Embeds(p, textIndex, queryIndex, e) && e[0] == index ==> AtLeastAsGood(p, previous, m, e)
  {
    forall e | Embeds(p, textIndex, queryIndex, e) && e[0] == index
      ensures Embeds(p, index + 1, queryIndex + 1, e[1..])
    {
    }
    if rest.Some? {
      var m := JumpMatch(StepScore(p, index, previous) + rest.value.score, [index] + rest.value.indices);
      assert m.indices[1..] == rest.value.indices;
      forall e | Embeds(p, textIndex, queryIndex, e) && e[0] == index
        ensures AtLeastAsGood(p, previous, m, e)
      {
        assert AtLeastAsGood(p, index, rest.value, e[1..]);
      }
    }
  }

  class Matcher {
    const problem: Problem
    var memo: map<(nat, nat, int), Option<JumpMatch>>

    // Every memo entry is a best match, and its previous position is the one before its text index.
    ghost predicate Valid()
      reads this
    {
      forall k :: k in memo ==> k.2 == k.0 - 1 && IsBest(problem, k.0, k.1, k.2, memo[k])
    }

    constructor (problem: Problem)
      ensures this.problem == problem && Valid()
    {
      this.problem := problem;
      memo := map[];
    }

    /** The recursion, with `previous` always the position before `textIndex`. */
    method Best(textIndex: nat, queryIndex: nat, previous: int) returns (result: Option<JumpMatch>)
      requires Valid() && queryIndex <= |problem.query| && previous == textIndex - 1
      modifies `memo
      ensures Valid() && old(memo).Keys <= memo.Keys
      ensures IsBest(problem, textIndex, queryIndex, previous, result)
      decreases |problem.query| - queryIndex
    {
      if queryIndex == |problem.query| {
        assert LexLeq([], []);
        return Some(JumpMatch(0, []));
      }
      var key := (textIndex, queryIndex, previous);
      if key in memo {
        return memo[key];
      }
      result := None;
      var index := textIndex;
      while index < |problem.text|
        invariant textIndex <= index
        invariant Valid() && old(memo).Keys <= memo.Keys
        invariant IsBestBelow(problem, textIndex, queryIndex, previous, index, result)
      {
        if problem.text[index] == problem.query[queryIndex] {
          var rest := Best(index + 1, queryIndex + 1, index);
          ExtendBest(problem, textIndex, queryIndex, previous, index, rest);
          if rest.Some? {
            var score := StepScore(problem, index, previous) + rest.value.score;
            if result.None? || score > result.value.score {
              result := Some(JumpMatch(score, [index] + rest.value.indices));
            }
          }
        }
        index := index + 1;
      }
      memo := memo[key := result];
    }
  }

  // Greedy reading: does the query occur in order?
  predicate IsSubsequence(text: string, textIndex: nat, query: string, queryIndex: nat)
    decreases |text| - textIndex
  {
    queryIndex >= |query| ||
    (textIndex < |text| &&
     IsSubsequence(text, textIndex + 1, query, if text[textIndex] == query[queryIndex] then queryIndex + 1 else queryIndex))
  }

  lemma {:induction false} GreedyFindsEmbedding(p: Problem, textIndex: nat, queryIndex: nat) returns (e: seq<nat>)
    requires queryIndex <= |p.query| && IsSubsequence(p.text, textIndex, p.query, queryIndex)
    ensures Embeds(p, textIndex, queryIndex, e)
    decreases |p.text| - textIndex
  {
    if queryIndex == |p.query| {
      e := [];
    } else if p.text[textIndex] == p.query[queryIndex] {
      e := GreedyFindsEmbedding(p, textIndex + 1, queryIndex + 1);
      assert ([textIndex] + e)[1..] == e;
      e := [textIndex] + e;
    } else {
      e := GreedyFindsEmbedding(p, textIndex + 1, queryIndex);
    }
  }

  // Skipping query characters that are already placed keeps the rest a subsequence.
  lemma {:induction false} SubsequenceDrops(text: string, textIndex: nat, query: string, queryIndex: nat)
    requires queryIndex < |query| && IsSubsequence(text, textIndex, query, queryIndex)
    ensures IsSubsequence(text, textIndex, query, queryIndex + 1)
    decreases |text| - textIndex
  {
    if text[textIndex] == query[queryIndex] {
      if queryIndex + 1 < |query| {
        if text[textIndex] == query[queryIndex + 1] {
          SubsequenceDrops(text, textIndex + 1, query, queryIndex + 1);
        }
      }
    } else {
      SubsequenceDrops(text, textIndex + 1, query, queryIndex);
      if queryIndex + 1 < |query| && text[textIndex] == query[queryIndex + 1] {
        SubsequenceDrops(text, textIndex + 1, query, queryIndex + 1);
      }
    }
  }

  lemma {:induction false} SubsequenceEarlier(text: string, from: nat, textIndex: nat, query: string, queryIndex: nat)
    requires from <= textIndex && IsSubsequence(text, textIndex, query, queryIndex)
    ensures IsSubsequence(text, from, query, queryIndex)
    decreases textIndex - from
  {
    if from < textIndex && queryIndex < |query| {
      SubsequenceEarlier(text, from + 1, textIndex, query, queryIndex);
      if text[from] == query[queryIndex] { SubsequenceDrops(text, from + 1, query, queryIndex); }
    }
  }

  lemma {:induction false} EmbeddingIsSubsequence(p: Problem, textIndex: nat, queryIndex: nat, e: seq<nat>)
    requires Embeds(p, textIndex, queryIndex, e)
    ensures IsSubsequence(p.text, textIndex, p.query, queryIndex)
    decreases |e|
  {
    if queryIndex < |p.query| {
      EmbeddingIsSubsequence(p, e[0] + 1, queryIndex + 1, e[1..]);
      SubsequenceEarlier(p.text, textIndex, e[0], p.query, queryIndex);
    }
  }

  /**
  `jumpMatch`: null exactly for an empty query or one that does not occur in order; otherwise the
  maximum score over all placements, with the lexicographically smallest positions among ties.
  */
  method JumpMatchOf(problem: Problem) returns (result: Option<JumpMatch>)
    ensures result.None? <==> problem.query == "" || !IsSubsequence(problem.text, 0, problem.query, 0)
    ensures result.Some? ==> IsBest(problem, 0, 0, -1, result)
    ensures result.Some? ==>
      var placed := result.value.indices;
      && |placed| == |problem.query|
      && result.value.score == 5 * |problem.query| + 40 * |WordStarts(problem, placed)| + 25 * |Adjacent(placed)| +
           (if placed != [] && placed[0] == 0 then 20 else 0) -
           (if placed == [] then 0 else placed[|placed| - 1] + 1 - |problem.query|)
  {
    if problem.query == "" {
      return None;
    }
    var matcher := new Matcher(problem);
    result := matcher.Best(0, 0, -1);
    if IsSubsequence(problem.text, 0, problem.query, 0) {
      ghost var e := GreedyFindsEmbedding(problem, 0, 0);
    }
    if result.Some? {
      EmbeddingIsSubsequence(problem, 0, 0, result.value.indices);
      PlacementScore(problem, result.value.indices);
    }
  }
}
