/** How the matches of a search are ranked and cut down to a list of words. */
module Ranking {
  import opened Basics
  import opened EditScripts

  /** A dictionary word, its probability and the weight of one way to it. */
  datatype Match = Match(word: string, prob: real, weight: real)

  /** What matches are ranked by, least first. */
  type Key = Match -> real

  function Weighted(alpha: real, beta: real): Key {
    (e: Match) => alpha * e.prob + beta * e.weight
  }

  /** e behind everything that scores no more: a stable sort. */
  function Insert(key: Key, sorted: seq<Match>, e: Match): seq<Match> {
    var n := |sorted| - 1;
    if sorted == [] || key(sorted[n]) <= key(e) then sorted + [e]
    else Insert(key, sorted[..n], e) + [sorted[n]]
  }

  function Ranked(key: Key, matches: seq<Match>): seq<Match> {
    if matches == [] then []
    else Insert(key, Ranked(key, matches[..|matches| - 1]), matches[|matches| - 1])
  }

  ghost predicate Ordered(key: Key, ms: seq<Match>) {
    forall i, j :: 0 <= i < j < |ms| ==> key(ms[i]) <= key(ms[j])
  }

  /** The matches of one score, in order. */
  function Scoring(key: Key, ms: seq<Match>, score: real): seq<Match> {
    if ms == [] then []
    else
      var n := |ms| - 1;
      Scoring(key, ms[..n], score) + (if key(ms[n]) == score then [ms[n]] else [])
  }

  lemma {:induction false} InsertRanks(key: Key, sorted: seq<Match>, e: Match)
    requires Ordered(key, sorted)
    ensures Ordered(key, Insert(key, sorted, e))
    ensures multiset(Insert(key, sorted, e)) == multiset(sorted) + multiset{e}
  {
    var n := |sorted| - 1;
    if sorted != [] && key(sorted[n]) > key(e) {
      InsertRanks(key, sorted[..n], e);
      var less := Insert(key, sorted[..n], e);
      assert sorted == sorted[..n] + [sorted[n]];
      forall x | x in less ensures key(x) <= key(sorted[n]) {
        assert x in multiset(less);
        if x != e {
          assert x in sorted[..n];
        }
      }
    }
  }

  lemma ScoringLast(key: Key, ms: seq<Match>, e: Match, score: real)
    ensures Scoring(key, [], score) == []
    ensures Scoring(key, ms + [e], score) == Scoring(key, ms, score) + (if key(e) == score then [e] else [])
  {
    assert (ms + [e])[..|ms|] == ms;
  }

  lemma {:induction false} InsertIsStable(key: Key, sorted: seq<Match>, e: Match, score: real)
    requires Ordered(key, sorted)
    ensures Scoring(key, Insert(key, sorted, e), score) ==
              Scoring(key, sorted, score) + (if key(e) == score then [e] else [])
  {
    hide Scoring;
    var n := |sorted| - 1;
    if sorted == [] || key(sorted[n]) <= key(e) {
      ScoringLast(key, sorted, e, score);
    } else {
      InsertIsStable(key, sorted[..n], e, score);
      ScoringLast(key, Insert(key, sorted[..n], e), sorted[n], score);
      assert sorted[..n] + [sorted[n]] == sorted;
      ScoringLast(key, sorted[..n], sorted[n], score);
    }
  }

  /** Ranking sorts by the key, and matches with the same key keep their order. */
  lemma {:induction false} RankedIsSorted(key: Key, matches: seq<Match>)
    ensures Ordered(key, Ranked(key, matches))
    ensures multiset(Ranked(key, matches)) == multiset(matches)
  {
    if matches != [] {
      var n := |matches| - 1;
      RankedIsSorted(key, matches[..n]);
      InsertRanks(key, Ranked(key, matches[..n]), matches[n]);
      assert matches == matches[..n] + [matches[n]];
    }
  }

  lemma {:induction false} RankedIsStable(key: Key, matches: seq<Match>, score: real)
    ensures Scoring(key, Ranked(key, matches), score) == Scoring(key, matches, score)
  {
    hide Insert;
    if matches != [] {
      var n := |matches| - 1;
      RankedIsStable(key, matches[..n], score);
      RankedIsSorted(key, matches[..n]);
      InsertIsStable(key, Ranked(key, matches[..n]), matches[n], score);
    }
  }

  /** The matches before the first that is too much heavier than the best one. */
  function Near(ms: seq<Match>, best: real, maxDiff: Option<real>): seq<Match> {
    if ms == [] || (maxDiff.Some? && ms[0].weight - best > maxDiff.value) then []
    else [ms[0]] + Near(ms[1..], best, maxDiff)
  }

  /** The words, each at its first place. */
  function Firsts(ms: seq<Match>): seq<string> {
    if ms == [] then []
    else
      var words, w := Firsts(ms[..|ms| - 1]), ms[|ms| - 1].word;
      if w in words then words else words + [w]
  }

  function AtMost(words: seq<string>, matchNum: Option<int>): seq<string> {
    if matchNum.Some? && 0 < matchNum.value < |words| then words[..matchNum.value] else words
  }

  /** The words that are returned; a number of zero or less is no limit. */
  function Best(matches: seq<Match>, key: Key, matchNum: Option<int>, maxDiff: Option<real>): seq<string> {
    var ranked := Ranked(key, matches);
    if ranked == [] then [] else AtMost(Firsts(Near(ranked, ranked[0].weight, maxDiff)), matchNum)
  }

  /** Where a word is first found. */
  ghost predicate FirstAt(ms: seq<Match>, w: string, k: nat) {
    k < |ms| && ms[k].word == w && forall l :: 0 <= l < k ==> ms[l].word != w
  }

  /** words are the words of ms without repetition, in the order of their first places at. */
  ghost predicate AreFirsts(ms: seq<Match>, words: seq<string>, at: seq<nat>) {
    && |at| == |words|
    && (forall i :: 0 <= i < |at| ==> FirstAt(ms, words[i], at[i]))
    && (forall i, j :: 0 <= i < j < |at| ==> at[i] < at[j])
    && (forall k :: 0 <= k < |ms| ==> ms[k].word in words)
  }

  lemma {:induction false} FirstsAreFirst(ms: seq<Match>) returns (at: seq<nat>)
    ensures AreFirsts(ms, Firsts(ms), at)
  {
    if ms == [] {
      return [];
    }
    var n := |ms| - 1;
    at := FirstsAreFirst(ms[..n]);
    var words := Firsts(ms[..n]);
    hide Firsts;
    assert ms == ms[..n] + [ms[n]];
    MoreFirsts(ms[..n], ms[n], words, at);
    if ms[n].word !in words {
      at := at + [n];
    }
    NextFirst(ms);
  }

  lemma NextFirst(ms: seq<Match>)
    requires ms != []
    ensures var words, w := Firsts(ms[..|ms| - 1]), ms[|ms| - 1].word;
            Firsts(ms) == if w in words then words else words + [w]
  {}

  lemma MoreFirsts(ms: seq<Match>, e: Match, words: seq<string>, at: seq<nat>)
    requires AreFirsts(ms, words, at)
    ensures if e.word in words then AreFirsts(ms + [e], words, at) else AreFirsts(ms + [e], words + [e.word], at + [|ms|])
  {
    forall i | 0 <= i < |at| ensures FirstAt(ms + [e], words[i], at[i]) {
      assert FirstAt(ms, words[i], at[i]);
    }
    if e.word !in words {
      assert FirstAt(ms + [e], e.word, |ms|);
    }
  }

  lemma {:induction false} FirstsGrow(ms: seq<Match>, k: nat)
    requires k <= |ms|
    ensures Firsts(ms[..k]) <= Firsts(ms)
  {
    if k < |ms| {
      FirstsGrow(ms[..|ms| - 1], k);
      assert ms[..|ms| - 1][..k] == ms[..k];
    } else {
      assert ms[..k] == ms;
    }
  }

  lemma {:induction false} NearIsPrefix(ms: seq<Match>, best: real, maxDiff: Option<real>)
    ensures Near(ms, best, maxDiff) <= ms
  {
    if ms != [] && Near(ms, best, maxDiff) != [] {
      NearIsPrefix(ms[1..], best, maxDiff);
    }
  }

  /** The limits on number and difference only cut the list of words short. */
  lemma LimitsOnlyCut(matches: seq<Match>, key: Key, matchNum: Option<int>, maxDiff: Option<real>)
    ensures Best(matches, key, matchNum, maxDiff) <= Best(matches, key, None, None)
    ensures matchNum.Some? && matchNum.value > 0 ==> |Best(matches, key, matchNum, maxDiff)| <= matchNum.value
  {
    hide Ranked; hide Firsts; hide Near;
    var ranked := Ranked(key, matches);
    if ranked != [] {
      var near := Near(ranked, ranked[0].weight, maxDiff);
      NearAll(ranked, ranked[0].weight);
      NearIsPrefix(ranked, ranked[0].weight, maxDiff);
      FirstsGrow(ranked, |near|);
      assert ranked[..|near|] == near;
    }
  }

  /** Within the difference allowed. */
  predicate Light(e: Match, best: real, maxDiff: Option<real>) {
    maxDiff.Some? ==> e.weight - best <= maxDiff.value
  }

  /** What is near is the longest beginning of light matches. */
  lemma {:induction false} NearIsLight(ms: seq<Match>, best: real, maxDiff: Option<real>)
    ensures var n := |Near(ms, best, maxDiff)|;
            && n <= |ms| && Near(ms, best, maxDiff) == ms[..n]
            && (forall j :: 0 <= j < n ==> Light(ms[j], best, maxDiff))
            && (n < |ms| ==> !Light(ms[n], best, maxDiff))
  {
    if ms != [] && Light(ms[0], best, maxDiff) {
      NearIsLight(ms[1..], best, maxDiff);
      assert forall j :: 1 <= j < |ms| ==> ms[j] == ms[1..][j - 1];
    }
  }

  /** Every match up to the first one of u is light. */
  ghost predicate LightUpTo(ms: seq<Match>, u: string, best: real, maxDiff: Option<real>) {
    exists k: nat :: FirstAt(ms, u, k) && forall j :: 0 <= j <= k && maxDiff.Some? ==> ms[j].weight - best <= maxDiff.value
  }

  lemma NearWords(ms: seq<Match>, u: string, best: real, maxDiff: Option<real>)
    ensures u in Firsts(Near(ms, best, maxDiff)) <==> LightUpTo(ms, u, best, maxDiff)
  {
    var near := Near(ms, best, maxDiff);
    NearIsLight(ms, best, maxDiff);
    var words := Firsts(near);
    var at := FirstsAreFirst(near);
    hide Near; hide Firsts;
    if u in words {
      var i :| 0 <= i < |words| && words[i] == u;
      FirstOfPrefix(ms, |near|, u, at[i]);
    }
    if LightUpTo(ms, u, best, maxDiff) {
      var k: nat :| FirstAt(ms, u, k) && forall j :: 0 <= j <= k && maxDiff.Some? ==> ms[j].weight - best <= maxDiff.value;
      assert k < |near| && near[k].word == u;
    }
  }

  lemma FirstOfPrefix(ms: seq<Match>, n: nat, u: string, k: nat)
    requires n <= |ms| && FirstAt(ms[..n], u, k)
    ensures FirstAt(ms, u, k)
  {
    assert forall l :: 0 <= l <= k ==> ms[..n][l] == ms[l];
  }

  /** A word survives max_diff exactly if every match up to the first of its own is light; so a light one is
      lost behind a heavier one that scores better. */
  lemma SurvivesExactly(matches: seq<Match>, key: Key, maxDiff: Option<real>, u: string)
    requires matches != []
    ensures Ranked(key, matches) != []
    ensures u in Best(matches, key, None, maxDiff) <==>
            LightUpTo(Ranked(key, matches), u, Ranked(key, matches)[0].weight, maxDiff)
  {
    RankedIsSorted(key, matches);
    hide Ranked; hide Near; hide Firsts; hide LightUpTo;
    assert matches[0] in multiset(Ranked(key, matches));
    NearWords(Ranked(key, matches), u, Ranked(key, matches)[0].weight, maxDiff);
  }

  /** match_num takes that many words if there are more. */
  lemma NumberExactly(matches: seq<Match>, key: Key, matchNum: Option<int>, maxDiff: Option<real>)
    ensures var all := Best(matches, key, None, maxDiff);
            Best(matches, key, matchNum, maxDiff) ==
              if matchNum.Some? && 0 < matchNum.value < |all| then all[..matchNum.value] else all
  {}

  /** c is as near as may be, but scores behind b, which is not. */
  lemma HeavierHides(a: Match, b: Match, c: Match)
    requires a == Match("a", 0.0, 0.0) && b == Match("b", 0.0, 5.0) && c == Match("c", 10.0, 1.0)
    ensures c.weight - a.weight <= 2.0
    ensures Best([a, b, c], Weighted(1.0, 1.0), None, Some(2.0)) == ["a"]
  {
    var key := Weighted(1.0, 1.0);
    assert key(a) == 0.0 && key(b) == 5.0 && key(c) == 11.0;
    assert [a, b, c][..2] == [a, b] && [a, b][..1] == [a];
    assert Ranked(key, [a]) == [a];
    assert Ranked(key, [a, b]) == [a, b];
    assert Ranked(key, [a, b, c]) == [a, b, c];
    assert [a, b, c][1..] == [b, c];
    assert Near([b, c], 0.0, Some(2.0)) == [];
    assert Near([a, b, c], 0.0, Some(2.0)) == [a];
    assert Firsts([a]) == ["a"];
  }

  lemma {:induction false} NearAll(ms: seq<Match>, best: real)
    ensures Near(ms, best, None) == ms
  {
    if ms != [] {
      NearAll(ms[1..], best);
    }
  }

  /** The first i matches are all near, and so are the near ones of the rest. */
  ghost predicate Passed(ms: seq<Match>, i: nat, best: real, maxDiff: Option<real>)
    requires i <= |ms|
  {
    Near(ms, best, maxDiff) == ms[..i] + Near(ms[i..], best, maxDiff)
  }

  lemma PassedNone(ms: seq<Match>, best: real, maxDiff: Option<real>)
    ensures Passed(ms, 0, best, maxDiff) && Firsts(ms[..0]) == []
  {
    assert ms[0..] == ms;
  }

  lemma PassedAll(ms: seq<Match>, best: real, maxDiff: Option<real>)
    requires Passed(ms, |ms|, best, maxDiff)
    ensures Near(ms, best, maxDiff) == ms[..|ms|]
  {}

  lemma PassedOne(ms: seq<Match>, i: nat, best: real, maxDiff: Option<real>)
    requires i < |ms| && Passed(ms, i, best, maxDiff)
    ensures if maxDiff.Some? && ms[i].weight - best > maxDiff.value then Near(ms, best, maxDiff) == ms[..i]
            else Passed(ms, i + 1, best, maxDiff) && ms[..i + 1] <= Near(ms, best, maxDiff)
  {
    if !(maxDiff.Some? && ms[i].weight - best > maxDiff.value) {
      assert ms[i..][1..] == ms[i + 1..];
      Moved(ms, i, Near(ms[i + 1..], best, maxDiff));
    }
  }

  lemma Moved(ms: seq<Match>, i: nat, rest: seq<Match>)
    requires i < |ms|
    ensures ms[..i] + ([ms[i]] + rest) == ms[..i + 1] + rest
  {}

  lemma FirstsOne(ms: seq<Match>, i: nat, near: seq<Match>)
    requires i < |ms|
    ensures Firsts(ms[..i + 1]) ==
              if ms[i].word in Firsts(ms[..i]) then Firsts(ms[..i]) else Firsts(ms[..i]) + [ms[i].word]
    ensures ms[..i + 1] <= near ==> Firsts(ms[..i + 1]) <= Firsts(near)
  {
    assert ms[..i + 1][..i] == ms[..i];
    if ms[..i + 1] <= near {
      FirstsGrow(near, i + 1);
      assert near[..i + 1] == ms[..i + 1];
    }
  }
}
