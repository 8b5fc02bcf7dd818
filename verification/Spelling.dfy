/** What the search and the ranking mean for the dictionary: the edit distance decides. */
module Spelling {
  import opened Basics
  import opened EditScripts
  import opened Ranking
  import opened Bor

  ghost predicate Searched(m: ErrorModel, words: Words, limit: real, t: string, scripts: seq<Script>, matches: seq<Match>) {
    Complete(m, words, limit, Point("", t, 0.0), scripts, matches)
  }

  /** One match for every edit script from a dictionary word that stays within the limit, and no other. */
  lemma OneMatchForEachScript(m: ErrorModel, words: Words, limit: real, t: string, scripts: seq<Script>, matches: seq<Match>)
    requires Searched(m, words, limit, t, scripts, matches)
    ensures |matches| == |scripts|
    ensures forall i, j :: 0 <= i < j < |scripts| ==> scripts[i] != scripts[j]
    ensures InOrder(scripts)
    ensures forall i :: 0 <= i < |scripts| ==>
              && Spelled(scripts[i]) in words
              && matches[i] == Match(Spelled(scripts[i]), words[Spelled(scripts[i])], Cost(m, scripts[i], t))
    ensures m.NonNegative() ==>
              forall e :: e in scripts <==> Aligned(e, t) && Spelled(e) in words && Cost(m, e, t) <= limit
  {
    var p := Point("", t, 0.0);
    forall i | 0 <= i < |scripts|
      ensures Spelled(scripts[i]) in words
      ensures matches[i] == Match(Spelled(scripts[i]), words[Spelled(scripts[i])], Cost(m, scripts[i], t))
    {
      var e := scripts[i];
      assert e in scripts;
      AdmittedExactly(m, words, limit, p, e);
      EndReached(m, p, e);
      assert "" + Spelled(e) == Spelled(e);
    }
    if m.NonNegative() {
      forall e ensures e in scripts <==> Aligned(e, t) && Spelled(e) in words && Cost(m, e, t) <= limit {
        PruningLosesNothing(m, words, limit, p, e);
        assert "" + Spelled(e) == Spelled(e);
      }
    }
  }

  /** The dictionary words whose distance is within the limit. */
  predicate WithinLimit(m: ErrorModel, words: Words, limit: real, t: string, u: string) {
    u in words && Distance(m, u, t).Some? && Distance(m, u, t).value <= limit
  }

  /** The match of a word by its cheapest script. */
  function Closest(m: ErrorModel, words: Words, t: string, u: string): Match
    requires u in words && Distance(m, u, t).Some?
  {
    Match(u, words[u], Distance(m, u, t).value)
  }

  /** A word is matched exactly if its distance is within the limit; its least weight is that distance. */
  lemma LeastWeight(m: ErrorModel, words: Words, limit: real, t: string, scripts: seq<Script>, matches: seq<Match>, u: string)
    requires Searched(m, words, limit, t, scripts, matches) && m.NonNegative()
    ensures (exists i :: 0 <= i < |matches| && matches[i].word == u) <==> WithinLimit(m, words, limit, t, u)
    ensures WithinLimit(m, words, limit, t, u) ==> Closest(m, words, t, u) in matches
    ensures forall i :: 0 <= i < |matches| && matches[i].word == u ==>
              && u in words && matches[i].prob == words[u]
              && Distance(m, u, t).Some? && Distance(m, u, t).value <= matches[i].weight <= limit
  {
    OneMatchForEachScript(m, words, limit, t, scripts, matches);
    forall i | 0 <= i < |matches| && matches[i].word == u
      ensures u in words && matches[i].prob == words[u]
      ensures Distance(m, u, t).Some? && Distance(m, u, t).value <= matches[i].weight <= limit
    {
      assert scripts[i] in scripts;
      DistanceIsLowerBound(m, scripts[i], t);
    }
    if WithinLimit(m, words, limit, t, u) {
      var e := DistanceIsReached(m, u, t);
      assert e in scripts;
      var i :| 0 <= i < |scripts| && scripts[i] == e;
      assert matches[i] == Closest(m, words, t, u);
    }
  }

  /** A key that ranks the ways to one word by their weight. */
  ghost predicate Rising(key: Key) {
    forall a: Match, b: Match :: a.prob == b.prob && a.weight <= b.weight ==> key(a) <= key(b)
  }

  lemma WeightedRises(alpha: real, beta: real)
    requires beta >= 0.0
    ensures Rising(Weighted(alpha, beta))
  {
    forall a: Match, b: Match | a.prob == b.prob && a.weight <= b.weight
      ensures Weighted(alpha, beta)(a) <= Weighted(alpha, beta)(b)
    {
      Product(beta, b.weight - a.weight);
      assert beta * b.weight == beta * a.weight + beta * (b.weight - a.weight);
    }
  }

  lemma WeightOf(alpha: real, beta: real, e: Match)
    ensures Weighted(alpha, beta)(e) == alpha * e.prob + beta * e.weight
  {}

  lemma Product(a: real, b: real)
    requires a >= 0.0 && b >= 0.0
    ensures a * b >= 0.0
  {}

  /** Without other limits, the words returned are the dictionary words within the limit, each once, in the
      order of the key of their closest matches. */
  lemma RankedByDistance(m: ErrorModel, words: Words, limit: real, t: string, scripts: seq<Script>, matches: seq<Match>,
                         key: Key)
    requires Searched(m, words, limit, t, scripts, matches) && m.NonNegative() && Rising(key)
    ensures var res := Best(matches, key, None, None);
            && (forall u :: u in res <==> WithinLimit(m, words, limit, t, u))
            && (forall i, j :: 0 <= i < j < |res| ==> res[i] != res[j])
            && (forall i, j :: 0 <= i < j < |res| ==>
                  WithinLimit(m, words, limit, t, res[i]) && WithinLimit(m, words, limit, t, res[j]) &&
                  key(Closest(m, words, t, res[i])) <= key(Closest(m, words, t, res[j])))
  {
    hide Best; hide Ranked; hide Distance; hide Complete; hide Rising;
    var ranked := Ranked(key, matches);
    var res := Best(matches, key, None, None);
    RankedIsSorted(key, matches);
    var at := BestAre(matches, key);
    forall u ensures u in res <==> WithinLimit(m, words, limit, t, u) {
      LeastWeight(m, words, limit, t, scripts, matches, u);
      SameWords(matches, ranked, u);
      InFirsts(ranked, res, at, u);
    }
    forall i, j | 0 <= i < j < |res|
      ensures res[i] != res[j]
      ensures WithinLimit(m, words, limit, t, res[i]) && WithinLimit(m, words, limit, t, res[j])
      ensures key(Closest(m, words, t, res[i])) <= key(Closest(m, words, t, res[j]))
    {
      assert FirstAt(ranked, res[i], at[i]) && FirstAt(ranked, res[j], at[j]) && at[i] < at[j];
      assert res[i] in res && res[j] in res;
      EarlierIsCloser(m, words, limit, t, scripts, matches, key, res[i], at[i], res[j], at[j]);
    }
  }

  /** Of two words the one found first has the closest match that scores no more. */
  lemma EarlierIsCloser(m: ErrorModel, words: Words, limit: real, t: string, scripts: seq<Script>, matches: seq<Match>,
                        key: Key, u: string, at: nat, v: string, behind: nat)
    requires Searched(m, words, limit, t, scripts, matches) && m.NonNegative() && Rising(key)
    requires WithinLimit(m, words, limit, t, u) && FirstAt(Ranked(key, matches), u, at)
    requires WithinLimit(m, words, limit, t, v) && FirstAt(Ranked(key, matches), v, behind) && at < behind
    ensures key(Closest(m, words, t, u)) <= key(Closest(m, words, t, v))
  {
    hide Ranked; hide Complete; hide Rising; hide Distance; hide EditScripts.Aligned;
    var ranked := Ranked(key, matches);
    RankedIsSorted(key, matches);
    ScoreOfFirst(m, words, limit, t, scripts, matches, key, u, at);
    LeastWeight(m, words, limit, t, scripts, matches, v);
    var closest := Closest(m, words, t, v);
    assert closest in multiset(ranked);
    var k :| 0 <= k < |ranked| && ranked[k] == closest;
    assert behind <= k;
  }

  /** Hence best_match ranks by alpha * probability + beta * distance. */
  lemma BestByDistance(m: ErrorModel, words: Words, limit: real, t: string, scripts: seq<Script>, matches: seq<Match>,
                       alpha: real, beta: real)
    requires Searched(m, words, limit, t, scripts, matches) && m.NonNegative() && beta >= 0.0
    ensures var res := Best(matches, Weighted(alpha, beta), None, None);
            && (forall u :: u in res <==> WithinLimit(m, words, limit, t, u))
            && (forall i, j :: 0 <= i < j < |res| ==>
                  && res[i] != res[j]
                  && WithinLimit(m, words, limit, t, res[i]) && WithinLimit(m, words, limit, t, res[j])
                  && alpha * words[res[i]] + beta * Distance(m, res[i], t).value
                       <= alpha * words[res[j]] + beta * Distance(m, res[j], t).value)
  {
    hide Weighted; hide Best; hide Distance; hide Rising;
    WeightedRises(alpha, beta);
    forall u | WithinLimit(m, words, limit, t, u)
      ensures Weighted(alpha, beta)(Closest(m, words, t, u)) == alpha * words[u] + beta * Distance(m, u, t).value
    {
      WeightOf(alpha, beta, Closest(m, words, t, u));
    }
    RankedByDistance(m, words, limit, t, scripts, matches, Weighted(alpha, beta));
  }

  lemma BestAre(matches: seq<Match>, key: Key) returns (at: seq<nat>)
    ensures AreFirsts(Ranked(key, matches), Best(matches, key, None, None), at)
  {
    var ranked := Ranked(key, matches);
    at := FirstsAreFirst(ranked);
    if ranked != [] {
      NearAll(ranked, ranked[0].weight);
    }
  }

  lemma SameWords(matches: seq<Match>, ranked: seq<Match>, u: string)
    requires multiset(ranked) == multiset(matches)
    ensures (exists i :: 0 <= i < |matches| && matches[i].word == u) <==> (exists i :: 0 <= i < |ranked| && ranked[i].word == u)
  {
    if i :| 0 <= i < |matches| && matches[i].word == u {
      assert matches[i] in multiset(ranked);
    }
    if i :| 0 <= i < |ranked| && ranked[i].word == u {
      assert ranked[i] in multiset(matches);
    }
  }

  lemma InFirsts(ranked: seq<Match>, res: seq<string>, at: seq<nat>, u: string)
    requires AreFirsts(ranked, res, at)
    ensures u in res <==> exists i :: 0 <= i < |ranked| && ranked[i].word == u
  {
    if i :| 0 <= i < |res| && res[i] == u {
      assert FirstAt(ranked, u, at[i]);
    }
  }

  /** The first match of a word scores as little as its closest. */
  lemma ScoreOfFirst(m: ErrorModel, words: Words, limit: real, t: string, scripts: seq<Script>, matches: seq<Match>,
                     key: Key, u: string, k: nat)
    requires Searched(m, words, limit, t, scripts, matches) && m.NonNegative() && Rising(key)
    requires WithinLimit(m, words, limit, t, u) && FirstAt(Ranked(key, matches), u, k)
    ensures key(Closest(m, words, t, u)) <= key(Ranked(key, matches)[k])
  {
    var ranked := Ranked(key, matches);
    RankedIsSorted(key, matches);
    LeastWeight(m, words, limit, t, scripts, matches, u);
    assert ranked[k] in multiset(matches);
    var i :| 0 <= i < |matches| && matches[i] == ranked[k];
  }

  // Single edits, told over the table of weights itself.

  /** The script that leaves a word as it is. */
  function Kept(u: string): Script {
    if u == "" then [] else [Change(u[0])] + Kept(u[1..])
  }

  /** What is left as it is costs nothing: the scripts from a place are those from behind it. */
  lemma {:induction false} KeptAdmitted(m: ErrorModel, words: Words, limit: real, prefix: string, a: string, t: string,
                                        weight: real, e: Script)
    requires weight <= limit
    ensures Admitted(m, words, limit, Point(prefix, a + t, weight), Kept(a) + e)
            <==> Admitted(m, words, limit, Point(prefix + a, t, weight), e)
    ensures End(m, Point(prefix, a + t, weight), Kept(a) + e) == End(m, Point(prefix + a, t, weight), e)
    decreases |a|
  {
    if a == "" {
      assert a + t == t && prefix + a == prefix && Kept(a) + e == e;
    } else {
      var all := Kept(a) + e;
      assert all[0] == Change(a[0]) && all[1..] == Kept(a[1..]) + e;
      assert (a + t)[0] == a[0] && (a + t)[1..] == a[1..] + t && prefix + [a[0]] + a[1..] == prefix + a;
      assert Move(m, Point(prefix, a + t, weight), Change(a[0])) == Point(prefix + [a[0]], a[1..] + t, weight);
      KeptAdmitted(m, words, limit, prefix + [a[0]], a[1..], t, weight, e);
    }
  }

  /** The end of a script that leaves everything behind its one edit as it is. */
  lemma KeptToTheEnd(m: ErrorModel, words: Words, limit: real, prefix: string, b: string, weight: real)
    ensures weight <= limit && prefix + b in words ==> Admitted(m, words, limit, Point(prefix, b, weight), Kept(b))
    ensures weight <= limit ==> End(m, Point(prefix, b, weight), Kept(b)) == Point(prefix + b, "", weight)
  {
    if weight <= limit {
      KeptAdmitted(m, words, limit, prefix, b, "", weight, []);
      assert b + "" == b && Kept(b) + [] == Kept(b);
    }
  }

  /** A script by which a word is reached is told as a match. */
  lemma Reached(m: ErrorModel, words: Words, limit: real, t: string, scripts: seq<Script>, matches: seq<Match>,
                e: Script, u: string, w: real)
    requires Searched(m, words, limit, t, scripts, matches)
    requires Admitted(m, words, limit, Point("", t, 0.0), e) && End(m, Point("", t, 0.0), e) == Point(u, "", w) && u in words
    ensures Match(u, words[u], w) in matches
  {
    var i :| 0 <= i < |scripts| && scripts[i] == e;
    assert matches[i] == Match(u, words[u], w);
  }

  /** A word is matched with the weight of one edit exactly if that weight, and zero, are within the limit. */
  lemma OneEdit(m: ErrorModel, words: Words, limit: real, t: string, scripts: seq<Script>, matches: seq<Match>,
                a: string, edit: Edit, rest: string, b: string, w: real)
    requires Searched(m, words, limit, t, scripts, matches)
    requires t == a + rest && rest != "" && a + Letters(edit) + b in words
    requires rest[Uses(edit)..] == b && EditCost(m, edit, rest[0]) == w
    ensures Match(a + Letters(edit) + b, words[a + Letters(edit) + b], w) in matches <==> 0.0 <= limit && w <= limit
  {
    var u := a + Letters(edit) + b;
    if 0.0 <= limit && w <= limit {
      var e := Kept(a) + ([edit] + Kept(b));
      var p, q := Point(a, rest, 0.0), Point(a + Letters(edit), b, w);
      assert "" + a == a;
      KeptAdmitted(m, words, limit, "", a, rest, 0.0, [edit] + Kept(b));
      assert Move(m, p, edit) == q;
      assert ([edit] + Kept(b))[1..] == Kept(b);
      KeptToTheEnd(m, words, limit, a + Letters(edit), b, w);
      Reached(m, words, limit, t, scripts, matches, e, u, w);
    }
    NeedsRoom(m, words, limit, t, scripts, matches, Match(u, words[u], w));
  }

  lemma NeedsRoom(m: ErrorModel, words: Words, limit: real, t: string, scripts: seq<Script>, matches: seq<Match>, x: Match)
    requires Searched(m, words, limit, t, scripts, matches)
    ensures x in matches ==> 0.0 <= limit && x.weight <= limit
  {
    if x in matches {
      MatchesAreWords(m, words, limit, Point("", t, 0.0), scripts, matches);
      var i :| 0 <= i < |matches| && matches[i] == x;
      assert scripts[i] in scripts;
    }
  }

  /** One character typed for another weighs what the table has under the typed one for the one meant, and 100 when it
      has nothing there. */
  lemma OneChange(m: ErrorModel, words: Words, limit: real, scripts: seq<Script>, matches: seq<Match>,
                  a: string, meant: char, typed: char, b: string)
    requires meant != typed && Searched(m, words, limit, a + [typed] + b, scripts, matches) && a + [meant] + b in words
    ensures var u := a + [meant] + b;
            var w := if typed in m.unProb && meant in m.unProb[typed] then m.unProb[typed][meant] else 100.0;
            Match(u, words[u], w) in matches <==> 0.0 <= limit && w <= limit
  {
    var rest := [typed] + b;
    assert a + [typed] + b == a + rest && rest[1..] == b;
    var w := if typed in m.unProb && meant in m.unProb[typed] then m.unProb[typed][meant] else 100.0;
    OneEdit(m, words, limit, a + [typed] + b, scripts, matches, a, Change(meant), rest, b, w);
  }

  /** A character left out weighs what the table has under '_' for it. */
  lemma OneInsertion(m: ErrorModel, words: Words, limit: real, scripts: seq<Script>, matches: seq<Match>,
                     a: string, meant: char, b: string)
    requires b != "" && Searched(m, words, limit, a + b, scripts, matches) && a + [meant] + b in words
    ensures var u := a + [meant] + b;
            var w := if '_' in m.unProb && meant in m.unProb['_'] then m.unProb['_'][meant] else 100.0;
            Match(u, words[u], w) in matches <==> 0.0 <= limit && w <= limit
  {
    var w := if '_' in m.unProb && meant in m.unProb['_'] then m.unProb['_'][meant] else 100.0;
    assert b[0..] == b;
    OneEdit(m, words, limit, a + b, scripts, matches, a, Insert(meant), b, b, w);
  }

  /** A character too many weighs what the table has under it for '_'. */
  lemma OneDeletion(m: ErrorModel, words: Words, limit: real, scripts: seq<Script>, matches: seq<Match>,
                    a: string, typed: char, b: string)
    requires Searched(m, words, limit, a + [typed] + b, scripts, matches) && a + b in words
    ensures var w := if typed in m.unProb && '_' in m.unProb[typed] then m.unProb[typed]['_'] else 100.0;
            Match(a + b, words[a + b], w) in matches <==> 0.0 <= limit && w <= limit
  {
    var rest := [typed] + b;
    assert a + [typed] + b == a + rest && rest[1..] == b && a + "" + b == a + b;
    var w := if typed in m.unProb && '_' in m.unProb[typed] then m.unProb[typed]['_'] else 100.0;
    OneEdit(m, words, limit, a + [typed] + b, scripts, matches, a, Delete, rest, b, w);
  }

  /** A word typed as it is meant weighs nothing. */
  lemma NoEdit(m: ErrorModel, words: Words, limit: real, scripts: seq<Script>, matches: seq<Match>, u: string)
    requires Searched(m, words, limit, u, scripts, matches) && u in words
    ensures Match(u, words[u], 0.0) in matches <==> 0.0 <= limit
  {
    if 0.0 <= limit {
      KeptToTheEnd(m, words, limit, "", u, 0.0);
      assert "" + u == u;
      Reached(m, words, limit, u, scripts, matches, Kept(u), u, 0.0);
    }
    NeedsRoom(m, words, limit, u, scripts, matches, Match(u, words[u], 0.0));
  }

  /** Without other limits exactly the words of the matches are returned, whatever the weights are. */
  lemma MatchedIsReturned(matches: seq<Match>, alpha: real, beta: real, u: string)
    ensures u in Best(matches, Weighted(alpha, beta), None, None) <==> exists i :: 0 <= i < |matches| && matches[i].word == u
  {
    hide Weighted; hide Ranked; hide Best;
    var key := Weighted(alpha, beta);
    RankedIsSorted(key, matches);
    var at := BestAre(matches, key);
    SameWords(matches, Ranked(key, matches), u);
    InFirsts(Ranked(key, matches), Best(matches, key, None, None), at, u);
  }

  /** A word one change away is returned if the table's weight for it is within the limit. */
  lemma OneChangeReturned(m: ErrorModel, words: Words, limit: real, scripts: seq<Script>, matches: seq<Match>,
                          meant: char, typed: char, alpha: real, beta: real)
    requires meant != typed && Searched(m, words, limit, [typed], scripts, matches) && [meant] in words
    requires typed in m.unProb && meant in m.unProb[typed] && 0.0 <= limit && m.unProb[typed][meant] <= limit
    ensures [meant] in Best(matches, Weighted(alpha, beta), None, None)
  {
    var u, w := [meant], m.unProb[typed][meant];
    assert "" + [typed] + "" == [typed] && "" + [meant] + "" == u;
    OneChange(m, words, limit, scripts, matches, "", meant, typed, "");
    var i :| 0 <= i < |matches| && matches[i] == Match(u, words[u], w);
    MatchedIsReturned(matches, alpha, beta, u);
  }

  /** A trie is made for the language model, fitted and asked for a word. */
  method FitAndMatch(langModel: Words, errModel: ErrorModel, word: string, alpha: real, beta: real, maxWeight: real)
      returns (res: seq<string>, ghost matches: seq<Match>, ghost scripts: seq<Script>)
    ensures Searched(errModel, langModel - {""}, maxWeight, word, scripts, matches)
    ensures forall u :: u in res <==> exists i :: 0 <= i < |matches| && matches[i].word == u
    ensures forall meant, typed {:trigger errModel.unProb[typed][meant]} ::
              meant != typed && word == [typed] && [meant] in langModel && 0.0 <= maxWeight &&
              typed in errModel.unProb && meant in errModel.unProb[typed] && errModel.unProb[typed][meant] <= maxWeight ==>
                [meant] in res
  {
    hide Best; hide Weighted; hide Complete; hide Bor.Valid;
    var bor := new Bor(langModel, errModel);
    bor.Fit();
    assert bor.words == langModel - {""};
    res, matches, scripts := bor.BestMatch(word, alpha, beta, maxWeight, None, None);
    forall u ensures u in res <==> exists i :: 0 <= i < |matches| && matches[i].word == u {
      MatchedIsReturned(matches, alpha, beta, u);
    }
    forall meant, typed {:trigger errModel.unProb[typed][meant]} | meant != typed && word == [typed] && [meant] in langModel && 0.0 <= maxWeight
      && typed in errModel.unProb && meant in errModel.unProb[typed] && errModel.unProb[typed][meant] <= maxWeight
      ensures [meant] in res
    {
      OneChangeReturned(errModel, langModel - {""}, maxWeight, scripts, matches, meant, typed, alpha, beta);
    }
  }
}
