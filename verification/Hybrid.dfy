/** Ranking of search results: score normalization and maximal marginal relevance.  Scores are
    reals, and a snippet is the set of its tokens. */
module Hybrid {
  import opened Wrappers

  type Token = string

  datatype SearchResult = SearchResult(path: string, score: real, tokens: set<Token>)

  // ---------------------------------------------------------------- normalization

  function Clamp(s: real, clampNegative: bool): real {
    if clampNegative && s < 0.0 then 0.0 else s
  }

  lemma Quotient(x: real, y: real, range: real)
    requires range > 0.0
    ensures (x <= y) <==> (x / range <= y / range)
    ensures range / range == 1.0 && 0.0 / range == 0.0
  {
    var p, q := x / range, y / range;
    assert p * range == x && q * range == y;
    assert p <= q ==> p * range <= q * range;
    assert q <= p ==> q * range <= p * range;
  }

  ghost predicate Spans(scores: seq<real>, lo: int, hi: int) {
    0 <= lo < |scores| && 0 <= hi < |scores| && forall i :: 0 <= i < |scores| ==> scores[lo] <= scores[i] <= scores[hi]
  }

  /** Scores in [0, 1], the largest at 1, in the order the given ones had, ties included; and unless
      they are all alike the smallest is at 0 and distances keep their proportions. */
  ghost predicate Normalized(given: seq<real>, scores: seq<real>)
    requires |given| == |scores|
  {
    && (forall i :: 0 <= i < |scores| ==> 0.0 <= scores[i] <= 1.0)
    && (forall i, j :: 0 <= i < |scores| && 0 <= j < |scores| ==> (given[i] <= given[j] <==> scores[i] <= scores[j]))
    && (scores != [] ==> exists lo, hi :: Spans(given, lo, hi) && Spans(scores, lo, hi) && scores[hi] == 1.0
                                          && (if given[lo] == given[hi] then scores[lo] == 1.0 else scores[lo] == 0.0)
                                          && Proportional(given, scores, lo, hi))
  }

  ghost predicate Proportional(given: seq<real>, scores: seq<real>, lo: int, hi: int)
    requires |given| == |scores| && 0 <= lo < |given| && 0 <= hi < |given|
  {
    forall i :: 0 <= i < |scores| ==> (scores[i] - scores[lo]) * (given[hi] - given[lo]) == given[i] - given[lo]
  }

  lemma AffineNormalizes(given: seq<real>, lo: int, hi: int, scores: seq<real>)
    requires |given| == |scores| && Spans(given, lo, hi)
    requires var range := given[hi] - given[lo];
             forall i :: 0 <= i < |scores| ==> scores[i] == if range == 0.0 then 1.0 else (given[i] - given[lo]) / range
    ensures Normalized(given, scores)
  {
    var range := given[hi] - given[lo];
    if range != 0.0 {
      forall i, j | 0 <= i < |scores| && 0 <= j < |scores| ensures given[i] <= given[j] <==> scores[i] <= scores[j] {
        Quotient(given[i] - given[lo], given[j] - given[lo], range);
      }
      Quotient(0.0, range, range);
      assert scores[lo] == 0.0 && scores[hi] == 1.0;
    } else {
      assert forall i :: 0 <= i < |scores| ==> given[lo] <= given[i] <= given[hi];
    }
    assert Spans(given, lo, hi) && Spans(scores, lo, hi);
    assert Proportional(given, scores, lo, hi) by { ProportionKept(given, lo, hi, scores); }
  }

  lemma ProportionKept(given: seq<real>, lo: int, hi: int, scores: seq<real>)
    requires |given| == |scores| && Spans(given, lo, hi)
    requires var range := given[hi] - given[lo];
             forall i :: 0 <= i < |scores| ==> scores[i] == if range == 0.0 then 1.0 else (given[i] - given[lo]) / range
    ensures Proportional(given, scores, lo, hi)
  {
    var range := given[hi] - given[lo];
    forall i | 0 <= i < |scores| ensures (scores[i] - scores[lo]) * range == given[i] - given[lo] {
      assert given[lo] <= given[i] <= given[hi];
      if range != 0.0 {
        var x := given[i] - given[lo];
        assert x / range * range == x;
        Quotient(0.0, range, range);
      }
    }
  }

  ghost function ClampAll(scores: seq<real>, clampNegative: bool): (r: seq<real>)
    ensures |r| == |scores|
  {
    seq(|scores|, i requires 0 <= i < |scores| => Clamp(scores[i], clampNegative))
  }

  method NormalizeScores(scores: array<real>, clampNegative: bool)
    modifies scores
    ensures Normalized(ClampAll(old(scores[..]), clampNegative), scores[..])
  {
    var n := scores.Length;
    if n == 0 { return; }
    ghost var given := ClampAll(scores[..], clampNegative);
    if clampNegative {
      for k := 0 to n
        invariant forall i :: 0 <= i < n ==> scores[i] == if i < k then given[i] else old(scores[i])
      {
        if scores[k] < 0.0 { scores[k] := 0.0; }
      }
    }
    assert scores[..] == given;
    if n == 1 {
      scores[0] := 1.0;
      AffineNormalizes(given, 0, 0, scores[..]);
      return;
    }
    var minScore, maxScore := scores[0], scores[0];
    ghost var lo, hi := 0, 0;
    for k := 1 to n
      invariant 0 <= lo < k && 0 <= hi < k && minScore == given[lo] && maxScore == given[hi]
      invariant forall i :: 0 <= i < k ==> minScore <= given[i] <= maxScore
    {
      if scores[k] < minScore { minScore, lo := scores[k], k; }
      if scores[k] > maxScore { maxScore, hi := scores[k], k; }
    }
    var scoreRange := maxScore - minScore;
    if scoreRange == 0.0 {
      for k := 0 to n
        invariant forall i :: 0 <= i < k ==> scores[i] == 1.0
      {
        scores[k] := 1.0;
      }
      AffineNormalizes(given, lo, hi, scores[..]);
      return;
    }
    for k := 0 to n
      invariant forall i :: 0 <= i < n ==> scores[i] == if i < k then (given[i] - minScore) / scoreRange else given[i]
    {
      scores[k] := (scores[k] - minScore) / scoreRange;
    }
    AffineNormalizes(given, lo, hi, scores[..]);
  }

  // ---------------------------------------------------------------- similarity

  /** Shared tokens over all tokens, and 0 when there are none. */
  function Jaccard(a: set<Token>, b: set<Token>): real {
    if a + b == {} then 0.0 else |a * b| as real / |a + b| as real
  }

  lemma {:induction false} UnionSize(a: set<Token>, b: set<Token>)
    ensures |a + b| == |a| + |b| - |a * b|
  {
    assert a + b == a + (b - a) && b == (a * b) + (b - a);
    assert |a + b| == |a| + |b - a|;
    assert |b| == |a * b| + |b - a|;
  }

  method JaccardSimilarity(a: set<Token>, b: set<Token>) returns (r: real)
    ensures r == Jaccard(a, b)
  {
    if a == {} && b == {} { return 0.0; }
    var intersection, rest := 0, a;
    while rest != {}
      invariant rest <= a && intersection == |(a - rest) * b|
      decreases |rest|
    {
      hide Jaccard;
      var t :| t in rest;
      Counted(a, b, rest, t);
      rest := rest - {t};
      if t in b { intersection := intersection + 1; }
    }
    assert (a - rest) * b == a * b;
    UnionSize(a, b);
    var union := |a| + |b| - intersection;
    if union == 0 { return 0.0; }
    r := intersection as real / union as real;
  }

  lemma Counted(a: set<Token>, b: set<Token>, rest: set<Token>, t: Token)
    requires rest <= a && t in rest
    ensures |(a - (rest - {t})) * b| == |(a - rest) * b| + if t in b then 1 else 0
  {
    var before, after := (a - rest) * b, (a - (rest - {t})) * b;
    if t in b { assert after == before + {t}; } else { assert after == before; }
  }

  /** Between 0 and 1, the same either way round, 0 exactly for disjoint sets and 1 exactly for
      equal ones, the empty set being like nothing, itself included. */
  lemma JaccardMeasures(a: set<Token>, b: set<Token>)
    ensures 0.0 <= Jaccard(a, b) <= 1.0
    ensures Jaccard(a, b) == Jaccard(b, a)
    ensures Jaccard(a, b) == 0.0 <==> a * b == {}
    ensures Jaccard(a, b) == 1.0 <==> a == b != {}
    ensures Jaccard(a, b) * (|a + b| as real) == |a * b| as real
  {
    assert a + b == b + a && a * b == b * a;
    if a + b == {} {
      assert a * b == {};
    } else {
      var common, all := a * b, a + b;
      Subset(common, all);
      var p, q := |common| as real, |all| as real;
      assert q > 0.0;
      Fraction(p, q);
      assert p / q * q == p;
      if a == b { assert common == all; }
      if common == all { assert forall t :: t in a <==> t in b by { assert forall t :: t in all <==> t in common; } assert a == b; }
    }
  }

  lemma Fraction(p: real, q: real)
    requires 0.0 <= p <= q && q > 0.0
    ensures 0.0 <= p / q <= 1.0 && (p / q == 0.0 <==> p == 0.0) && (p / q == 1.0 <==> p == q)
  {
    var r := p / q;
    assert r * q == p;
    assert r < 0.0 ==> r * q < 0.0;
    assert r > 1.0 ==> r * q > q;
  }

  lemma Subset(a: set<Token>, b: set<Token>)
    requires a <= b
    ensures |a| <= |b| && (|a| == |b| <==> a == b)
  {
    assert b == a + (b - a);
    assert |b| == |a| + |b - a|;
  }

  // ---------------------------------------------------------------- maximal marginal relevance

  ghost predicate Within(results: seq<SearchResult>, chosen: seq<int>) {
    forall k :: 0 <= k < |chosen| ==> 0 <= chosen[k] < |results|
  }

  /** The largest similarity of a result to one already chosen; 0 when there is none. */
  function MaxSim(results: seq<SearchResult>, chosen: seq<int>, idx: int): (r: real)
    requires 0 <= idx < |results| && Within(results, chosen)
    ensures r >= 0.0
  {
    if chosen == [] then 0.0 else
      var before := MaxSim(results, chosen[..|chosen| - 1], idx);
      var sim := Jaccard(results[idx].tokens, results[chosen[|chosen| - 1]].tokens);
      if sim > before then sim else before
  }

  function Mmr(results: seq<SearchResult>, weight: real, chosen: seq<int>, idx: int): real
    requires 0 <= idx < |results| && Within(results, chosen)
  {
    weight * results[idx].score - (1.0 - weight) * MaxSim(results, chosen, idx)
  }

  ghost predicate Distinct(results: seq<SearchResult>, chosen: seq<int>) {
    && Within(results, chosen)
    && forall i, j :: 0 <= i < j < |chosen| ==> chosen[i] != chosen[j]
  }

  /** The first pick is the earliest result with the highest score. */
  ghost predicate BestFirst(results: seq<SearchResult>, chosen: seq<int>)
    requires Distinct(results, chosen)
  {
    chosen != [] ==>
      && (forall j :: 0 <= j < |results| ==> results[j].score <= results[chosen[0]].score)
      && (forall j :: 0 <= j < chosen[0] ==> results[j].score < results[chosen[0]].score)
  }

  /** m is the largest similarity of a result to one already chosen, 0 when none is: no similarity is
      above it and one of them attains it. */
  ghost predicate Largest(results: seq<SearchResult>, chosen: seq<int>, idx: int, m: real)
    requires 0 <= idx < |results| && Within(results, chosen)
  {
    if chosen == [] then m == 0.0
    else && (forall k :: 0 <= k < |chosen| ==> Jaccard(results[idx].tokens, results[chosen[k]].tokens) <= m)
         && exists k :: 0 <= k < |chosen| && Jaccard(results[idx].tokens, results[chosen[k]].tokens) == m
  }

  /** Pick k is at least as good as any result not picked before it: its score and its largest
      similarity to the earlier picks, weighed against each other, are. */
  ghost predicate GreedyAt(results: seq<SearchResult>, weight: real, chosen: seq<int>, k: int)
    requires Distinct(results, chosen) && 0 <= k < |chosen|
  {
    forall j, m, n :: 0 <= j < |results| && j !in chosen[..k]
                      && Largest(results, chosen[..k], j, m) && Largest(results, chosen[..k], chosen[k], n) ==>
      weight * results[j].score - (1.0 - weight) * m <= weight * results[chosen[k]].score - (1.0 - weight) * n
  }

  ghost predicate Greedy(results: seq<SearchResult>, weight: real, chosen: seq<int>) {
    && Distinct(results, chosen)
    && BestFirst(results, chosen)
    && forall k :: 0 < k < |chosen| ==> GreedyAt(results, weight, chosen, k)
  }

  /** The results at the chosen places, in that order. */
  ghost predicate Picks(results: seq<SearchResult>, chosen: seq<int>, out: seq<SearchResult>)
    requires Within(results, chosen)
  {
    |out| == |chosen| && forall k :: 0 <= k < |out| ==> out[k] == results[chosen[k]]
  }

  function Wanted(n: nat, maxResults: int): nat {
    if maxResults <= 0 then 0 else if maxResults < n then maxResults else n
  }

  lemma MaxSimIsLargest(results: seq<SearchResult>, chosen: seq<int>, idx: int)
    requires 0 <= idx < |results| && Within(results, chosen)
    ensures Largest(results, chosen, idx, MaxSim(results, chosen, idx))
    ensures forall m :: Largest(results, chosen, idx, m) ==> m == MaxSim(results, chosen, idx)
    decreases |chosen|
  {
    hide Jaccard;
    if chosen != [] {
      var init, last := chosen[..|chosen| - 1], chosen[|chosen| - 1];
      var sim := Jaccard(results[idx].tokens, results[last].tokens);
      MaxSimIsLargest(results, init, idx);
      JaccardMeasures(results[idx].tokens, results[last].tokens);
      var before, max := MaxSim(results, init, idx), MaxSim(results, chosen, idx);
      forall k | 0 <= k < |chosen| ensures Jaccard(results[idx].tokens, results[chosen[k]].tokens) <= max {
        if k < |init| { assert init[k] == chosen[k]; }
      }
      if sim > before || init == [] {
        assert Jaccard(results[idx].tokens, results[chosen[|chosen| - 1]].tokens) == max;
      } else {
        var k :| 0 <= k < |init| && Jaccard(results[idx].tokens, results[init[k]].tokens) == before;
        assert chosen[k] == init[k];
      }
    }
  }

  /** Greedy picking told by `Mmr`, which is how it is done. */
  lemma GreedyByMmr(results: seq<SearchResult>, weight: real, chosen: seq<int>, k: int)
    requires Distinct(results, chosen) && 0 <= k < |chosen|
    ensures GreedyAt(results, weight, chosen, k) <==>
              forall j :: 0 <= j < |results| && j !in chosen[..k] ==>
                Mmr(results, weight, chosen[..k], j) <= Mmr(results, weight, chosen[..k], chosen[k])
  {
    hide MaxSim, Largest;
    forall j | 0 <= j < |results| ensures Within(results, chosen[..k])
      && Largest(results, chosen[..k], j, MaxSim(results, chosen[..k], j))
      && forall m :: Largest(results, chosen[..k], j, m) ==> m == MaxSim(results, chosen[..k], j)
    {
      MaxSimIsLargest(results, chosen[..k], j);
    }
  }

  /** Whatever the order in which the remaining results are looked at. */
  method MmrRerank(results: seq<SearchResult>, weight: real, maxResults: int)
      returns (out: seq<SearchResult>)
    ensures exists chosen :: Greedy(results, weight, chosen) && |chosen| == Wanted(|results|, maxResults)
                             && Picks(results, chosen, out)
  {
    if |results| == 0 || maxResults <= 0 {
      assert Greedy(results, weight, []) && Picks(results, [], []);
      return [];
    }
    if |results| == 1 {
      assert Greedy(results, weight, [0]) && Picks(results, [0], results[..1]);
      return results[..1];
    }
    var want := if maxResults > |results| then |results| else maxResults;
    var best := 0;
    for i := 0 to |results|
      invariant 0 <= best < |results|
      invariant forall j :: 0 <= j < i ==> results[j].score <= results[best].score
      invariant forall j :: 0 <= j < best ==> results[j].score < results[best].score
    {
      if results[i].score > results[best].score { best := i; }
    }
    var selected: seq<int> := [best];
    var remaining: set<int> := {};
    for i := 0 to |results|
      invariant forall j :: j in remaining <==> 0 <= j < i
    {
      remaining := remaining + {i};
    }
    remaining := remaining - {best};
    while |selected| < want && remaining != {}
      invariant 1 <= |selected| <= want
      invariant forall i :: i in remaining <==> 0 <= i < |results| && i !in selected
      invariant Greedy(results, weight, selected)
      decreases want - |selected|
    {
      var candidate := PickNext(results, weight, selected, remaining);
      OneMorePick(results, weight, selected, candidate);
      selected := selected + [candidate];
      remaining := remaining - {candidate};
    }
    AllPicked(results, selected, want, remaining);
    out := [];
    for k := 0 to |selected|
      invariant |out| == k && forall i :: 0 <= i < k ==> out[i] == results[selected[i]]
    {
      out := out + [results[selected[k]]];
    }
  }

  lemma MaxSimOfNone(results: seq<SearchResult>, idx: int)
    requires 0 <= idx < |results|
    ensures MaxSim(results, [], idx) == 0.0
  {}

  lemma MaxSimSnoc(results: seq<SearchResult>, chosen: seq<int>, next: int, idx: int)
    requires 0 <= idx < |results| && 0 <= next < |results| && Within(results, chosen)
    ensures Within(results, chosen + [next])
    ensures var before, sim := MaxSim(results, chosen, idx), Jaccard(results[idx].tokens, results[next].tokens);
            MaxSim(results, chosen + [next], idx) == if sim > before then sim else before
  {
    hide Jaccard;
    assert (chosen + [next])[..|chosen|] == chosen;
  }

  method MarginalRelevance(results: seq<SearchResult>, weight: real, selected: seq<int>, idx: int) returns (mmr: real)
    requires 0 <= idx < |results| && Within(results, selected)
    ensures mmr == Mmr(results, weight, selected, idx)
  {
    hide Jaccard, MaxSim;
    var maxSim := 0.0;
    MaxSimOfNone(results, idx);
    for k := 0 to |selected|
      invariant maxSim == MaxSim(results, selected[..k], idx)
    {
      assert selected[..k + 1] == selected[..k] + [selected[k]];
      MaxSimSnoc(results, selected[..k], selected[k], idx);
      var sim := JaccardSimilarity(results[idx].tokens, results[selected[k]].tokens);
      if sim > maxSim { maxSim := sim; }
    }
    assert selected[..|selected|] == selected;
    mmr := weight * results[idx].score - (1.0 - weight) * maxSim;
  }

  /** A candidate no other one beats, for any order in which the candidates come. */
  method PickNext(results: seq<SearchResult>, weight: real, selected: seq<int>, remaining: set<int>)
      returns (candidate: int)
    requires Within(results, selected) && remaining != {}
    requires forall i :: i in remaining ==> 0 <= i < |results|
    ensures candidate in remaining
    ensures forall j :: j in remaining ==> Mmr(results, weight, selected, j) <= Mmr(results, weight, selected, candidate)
  {
    hide Mmr, Within;
    var rest := remaining;
    candidate := -1;
    var bestMmr := 0.0; // stands for minus infinity while there is no candidate
    while rest != {}
      invariant rest <= remaining
      invariant candidate == -1 ==> rest == remaining
      invariant candidate != -1 ==> candidate in remaining && bestMmr == Mmr(results, weight, selected, candidate)
      invariant forall j :: j in remaining - rest ==> Mmr(results, weight, selected, j) <= bestMmr
      decreases |rest|
    {
      ghost var some := Member(rest);
      assert some in rest;
      var idx :| idx in rest;
      rest := rest - {idx};
      var mmr := MarginalRelevance(results, weight, selected, idx);
      if candidate == -1 || mmr > bestMmr {
        bestMmr, candidate := mmr, idx;
      }
    }
  }

  lemma OneMorePick(results: seq<SearchResult>, weight: real, chosen: seq<int>, next: int)
    requires Greedy(results, weight, chosen) && chosen != []
    requires 0 <= next < |results| && next !in chosen
    requires forall j :: 0 <= j < |results| && j !in chosen ==>
               Mmr(results, weight, chosen, j) <= Mmr(results, weight, chosen, next)
    ensures Greedy(results, weight, chosen + [next])
  {
    hide Mmr, Largest, GreedyAt;
    var all := chosen + [next];
    forall k | 0 < k < |all| ensures GreedyAt(results, weight, all, k) {
      GreedyByMmr(results, weight, all, k);
      if k < |chosen| {
        GreedyByMmr(results, weight, chosen, k);
        assert all[..k] == chosen[..k] && all[k] == chosen[k] && GreedyAt(results, weight, chosen, k);
      } else {
        assert all[..k] == chosen;
      }
    }
  }

  /** The picks use up the results only when all of them are wanted. */
  lemma AllPicked(results: seq<SearchResult>, chosen: seq<int>, want: nat, remaining: set<int>)
    requires Distinct(results, chosen) && |chosen| <= want <= |results|
    requires forall i :: i in remaining <==> 0 <= i < |results| && i !in chosen
    requires |chosen| == want || remaining == {}
    ensures |chosen| == want
  {
    if remaining == {} {
      Pigeonhole(chosen, |results|);
    }
  }

  lemma {:induction false} Pigeonhole(chosen: seq<int>, n: nat)
    requires forall i :: 0 <= i < n ==> i in chosen
    ensures |chosen| >= n
    decreases n
  {
    if n > 0 {
      assert n - 1 in chosen;
      var k :| 0 <= k < |chosen| && chosen[k] == n - 1;
      var rest := chosen[..k] + chosen[k + 1..];
      forall i | 0 <= i < n - 1 ensures i in rest {
        assert i in chosen;
        var j :| 0 <= j < |chosen| && chosen[j] == i;
        assert rest[if j < k then j else j - 1] == i;
      }
      Pigeonhole(rest, n - 1);
    }
  }

  // ---------------------------------------------------------------- what greedy picking gives

  lemma {:induction false} MaxSimGrows(results: seq<SearchResult>, chosen: seq<int>, idx: int, k: nat)
    requires 0 <= idx < |results| && Distinct(results, chosen) && k <= |chosen|
    ensures MaxSim(results, chosen[..k], idx) <= MaxSim(results, chosen, idx)
    decreases |chosen|
  {
    if k < |chosen| {
      var init := chosen[..|chosen| - 1];
      assert init[..k] == chosen[..k];
      MaxSimGrows(results, init, idx, k);
    } else {
      assert chosen[..k] == chosen;
    }
  }

  lemma WiderIsLess(results: seq<SearchResult>, weight: real, chosen: seq<int>, k: nat, idx: int)
    requires 0 <= idx < |results| && Distinct(results, chosen) && k <= |chosen| && weight <= 1.0
    ensures Mmr(results, weight, chosen, idx) <= Mmr(results, weight, chosen[..k], idx)
  {
    hide MaxSim;
    MaxSimGrows(results, chosen, idx, k);
    Scale(1.0 - weight, MaxSim(results, chosen[..k], idx), MaxSim(results, chosen, idx));
  }

  /** Marginal relevance never rises from one pick to the next, for any weight from 0 to 1. */
  lemma RelevanceFalls(results: seq<SearchResult>, weight: real, chosen: seq<int>, k: nat)
    requires Greedy(results, weight, chosen) && k + 1 < |chosen| && 0.0 <= weight <= 1.0
    ensures Mmr(results, weight, chosen[..k + 1], chosen[k + 1]) <= Mmr(results, weight, chosen[..k], chosen[k])
  {
    hide MaxSim, Mmr, GreedyAt;
    var next := chosen[k + 1];
    assert chosen[..k + 1][..k] == chosen[..k];
    WiderIsLess(results, weight, chosen[..k + 1], k, next);
    if k == 0 {
      assert chosen[..0] == [];
      FirstIsMost(results, weight, next, chosen[0]);
    } else {
      GreedyByMmr(results, weight, chosen, k);
      assert GreedyAt(results, weight, chosen, k) && next !in chosen[..k];
    }
  }

  lemma FirstIsMost(results: seq<SearchResult>, weight: real, a: int, b: int)
    requires 0 <= a < |results| && 0 <= b < |results| && weight >= 0.0 && results[a].score <= results[b].score
    ensures Mmr(results, weight, [], a) <= Mmr(results, weight, [], b)
  {
    Scale(weight, results[a].score, results[b].score);
  }

  lemma Scale(c: real, x: real, y: real)
    requires c >= 0.0 && x <= y
    ensures c * x <= c * y
  {}

  /** With all the weight on relevance the picks are the top results by score, best first. */
  lemma RelevanceOnlyIsTopK(results: seq<SearchResult>, chosen: seq<int>, k: nat)
    requires Greedy(results, 1.0, chosen) && k < |chosen|
    ensures forall j :: 0 <= j < |results| && j !in chosen[..k] ==> results[j].score <= results[chosen[k]].score
  {
    forall j | 0 <= j < |results| && j !in chosen[..k] ensures results[j].score <= results[chosen[k]].score {
      if k > 0 {
        GreedyByMmr(results, 1.0, chosen, k);
        assert GreedyAt(results, 1.0, chosen, k);
        assert Mmr(results, 1.0, chosen[..k], j) <= Mmr(results, 1.0, chosen[..k], chosen[k]);
      }
    }
  }

  /** With all the weight on diversity each later pick is as little like the earlier ones as any. */
  lemma DiversityOnlyIsLeastAlike(results: seq<SearchResult>, chosen: seq<int>, k: nat, j: int, m: real, n: real)
    requires Greedy(results, 0.0, chosen) && 0 < k < |chosen| && 0 <= j < |results| && j !in chosen[..k]
    requires Within(results, chosen[..k]) && Largest(results, chosen[..k], j, m) && Largest(results, chosen[..k], chosen[k], n)
    ensures n <= m
  {
    hide Largest;
    assert GreedyAt(results, 0.0, chosen, k);
  }

  /** Of two results with the same score, the one more like the earlier picks is never picked first,
      unless diversity does not count at all. */
  lemma EqualScoresPreferUnlike(results: seq<SearchResult>, weight: real, chosen: seq<int>, k: nat, j: int, m: real, n: real)
    requires Greedy(results, weight, chosen) && weight < 1.0 && 0 < k < |chosen| && 0 <= j < |results| && j !in chosen[..k]
    requires Within(results, chosen[..k]) && Largest(results, chosen[..k], j, m) && Largest(results, chosen[..k], chosen[k], n)
    requires results[j].score == results[chosen[k]].score
    ensures n <= m
  {
    hide Largest, Jaccard;
    assert GreedyAt(results, weight, chosen, k);
    Outweighed(weight, results[j].score, results[chosen[k]].score, m, n);
  }

  lemma Outweighed(weight: real, a: real, b: real, m: real, n: real)
    requires weight * a - (1.0 - weight) * m <= weight * b - (1.0 - weight) * n && a == b && weight < 1.0
    ensures n <= m
  {
    var c, x := 1.0 - weight, weight * a;
    var y, z := c * m, c * n;
    assert x == weight * b;
    assert x - y <= x - z;
    Cancel(c, n, m);
  }

  lemma Cancel(c: real, x: real, y: real)
    requires c > 0.0 && c * x <= c * y
    ensures x <= y
  {
    assert c * (x - y) == c * x - c * y;
    assert x > y ==> c * (x - y) > 0.0;
  }
}
