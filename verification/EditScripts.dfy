/** Weighted edit scripts from dictionary words to a typed word, independent of any trie. */
module EditScripts {
  import opened Basics

  /** unProb[typed][meant] is the weight of typing one character for another; '_' stands for none. */
  datatype ErrorModel = ErrorModel(unProb: map<char, map<char, real>>) {
    function Weight(meant: char, typed: char): real {
      if typed in unProb && meant in unProb[typed] then unProb[typed][meant] else 100.0
    }

    ghost predicate NonNegative() {
      forall typed, meant :: typed in unProb && meant in unProb[typed] ==> unProb[typed][meant] >= 0.0
    }
  }

  /** Change and Insert spell a character of the dictionary word, Change and Delete use up a typed one. */
  datatype Edit = Change(c: char) | Insert(c: char) | Delete

  type Script = seq<Edit>

  function EditCost(m: ErrorModel, edit: Edit, typed: char): real {
    match edit
    case Change(c) => if c != typed then m.Weight(c, typed) else 0.0
    case Insert(c) => m.Weight(c, '_')
    case Delete => m.Weight('_', typed)
  }

  function Letters(edit: Edit): string { if edit.Delete? then "" else [edit.c] }

  function Uses(edit: Edit): nat { if edit.Insert? then 0 else 1 }

  function Spelled(e: Script): string {
    if e == [] then "" else Letters(e[0]) + Spelled(e[1..])
  }

  function Used(e: Script): nat {
    if e == [] then 0 else Uses(e[0]) + Used(e[1..])
  }

  function Cost(m: ErrorModel, e: Script, t: string): real {
    if e == [] || t == "" then 0.0 else EditCost(m, e[0], t[0]) + Cost(m, e[1..], t[Uses(e[0])..])
  }

  /** A script for the whole typed word; nothing is inserted behind its last character. */
  predicate Aligned(e: Script, t: string) {
    Used(e) == |t| && (e != [] ==> !e[|e| - 1].Insert?)
  }

  /** A place in the search: the letters so far, the rest of the typed word and the weight so far. */
  datatype Point = Point(prefix: string, rest: string, weight: real)

  function Move(m: ErrorModel, p: Point, edit: Edit): Point
    requires p.rest != ""
  {
    Point(p.prefix + Letters(edit), p.rest[Uses(edit)..], p.weight + EditCost(m, edit, p.rest[0]))
  }

  type Words = map<string, real>

  /** The scripts that the search follows from p to a dictionary word without exceeding the limit. */
  predicate Admitted(m: ErrorModel, words: Words, limit: real, p: Point, e: Script)
    decreases |e|
  {
    && p.weight <= limit
    && if p.rest == "" then e == [] && p.prefix in words
       else e != [] && Admitted(m, words, limit, Move(m, p, e[0]), e[1..])
  }

  function End(m: ErrorModel, p: Point, e: Script): Point
    decreases |e|
  {
    if e == [] || p.rest == "" then p else End(m, Move(m, p, e[0]), e[1..])
  }

  lemma {:induction false} AlignedTail(e: Script, t: string)
    requires e != [] && t != ""
    ensures Aligned(e, t) <==> Aligned(e[1..], t[Uses(e[0])..]) && (e[0].Insert? ==> e[1..] != [])
  {}

  /** No script that uses up nothing more is aligned but the empty one. */
  lemma {:induction false} NothingToUse(e: Script)
    ensures Aligned(e, "") <==> e == []
  {
    if e != [] && Aligned(e, "") {
      assert e[0].Insert?;
      NothingToUse(e[1..]);
    }
  }

  lemma SpelledOn(prefix: string, e: Script)
    ensures e == [] ==> prefix + Spelled(e) == prefix
    ensures e != [] ==> prefix + Letters(e[0]) + Spelled(e[1..]) == prefix + Spelled(e)
  {
    if e != [] {
      Grouped(prefix, Letters(e[0]), Spelled(e[1..]));
    }
  }

  lemma Grouped(a: string, b: string, c: string)
    ensures (a + b) + c == a + (b + c)
  {}

  lemma {:induction false} EndReached(m: ErrorModel, p: Point, e: Script)
    requires Aligned(e, p.rest)
    ensures End(m, p, e) == Point(p.prefix + Spelled(e), "", p.weight + Cost(m, e, p.rest))
    decreases |e|
  {
    hide Spelled;
    NothingToUse(e);
    SpelledOn(p.prefix, e);
    if e != [] {
      AlignedTail(e, p.rest);
      EndReached(m, Move(m, p, e[0]), e[1..]);
    }
  }

  /** No beginning of the script exceeds the limit. */
  ghost predicate Within(m: ErrorModel, e: Script, t: string, weight: real, limit: real) {
    forall k :: 0 <= k <= |e| ==> weight + Cost(m, e[..k], t) <= limit
  }

  lemma WithinTail(m: ErrorModel, e: Script, t: string, weight: real, limit: real)
    requires t != ""
    ensures e == [] ==> (Within(m, e, t, weight, limit) <==> weight <= limit)
    ensures e != [] ==>
              (Within(m, e, t, weight, limit) <==>
               weight <= limit && Within(m, e[1..], t[Uses(e[0])..], weight + EditCost(m, e[0], t[0]), limit))
  {
    assert e[..0] == [];
    if e != [] {
      var more, rest, cost := e[1..], t[Uses(e[0])..], EditCost(m, e[0], t[0]);
      forall k | 0 <= k <= |more| ensures Cost(m, e[..k + 1], t) == cost + Cost(m, more[..k], rest) {
        assert e[..k + 1][1..] == more[..k];
      }
      if Within(m, e, t, weight, limit) {
        forall k | 0 <= k <= |more| ensures weight + cost + Cost(m, more[..k], rest) <= limit {
          assert weight + Cost(m, e[..k + 1], t) <= limit;
        }
        assert weight + Cost(m, e[..0], t) <= limit;
      }
      if weight <= limit && Within(m, more, rest, weight + cost, limit) {
        forall k | 0 <= k <= |e| ensures weight + Cost(m, e[..k], t) <= limit {
          if k > 0 {
            assert weight + cost + Cost(m, more[..k - 1], rest) <= limit;
          }
        }
      }
    }
  }

  /** Admitted, without the search: the script is aligned, spells a dictionary word from here, and no
      beginning of it exceeds the limit. */
  lemma {:induction false} AdmittedExactly(m: ErrorModel, words: Words, limit: real, p: Point, e: Script)
    ensures Admitted(m, words, limit, p, e) <==>
              Aligned(e, p.rest) && p.prefix + Spelled(e) in words && Within(m, e, p.rest, p.weight, limit)
    decreases |e|
  {
    NothingToUse(e);
    SpelledOn(p.prefix, e);
    if p.rest != "" {
      WithinTail(m, e, p.rest, p.weight, limit);
      if e != [] {
        hide Within; hide Aligned; hide Spelled;
        AlignedTail(e, p.rest);
        NothingToUse(e[1..]);
        AdmittedExactly(m, words, limit, Move(m, p, e[0]), e[1..]);
      }
    } else {
      NoCost(m, e, p.weight, limit);
    }
  }

  lemma NoCost(m: ErrorModel, e: Script, weight: real, limit: real)
    ensures Within(m, e, "", weight, limit) <==> weight <= limit
  {
    assert Cost(m, e[..0], "") == 0.0;
  }

  lemma {:induction false} CostGrows(m: ErrorModel, e: Script, t: string, k: nat)
    requires m.NonNegative() && k <= |e|
    ensures 0.0 <= Cost(m, e[..k], t) <= Cost(m, e, t)
    decreases |e|
  {
    if e == [] || t == "" {
    } else if k == 0 {
      CostGrows(m, e[1..], t[Uses(e[0])..], 0);
    } else {
      CostGrows(m, e[1..], t[Uses(e[0])..], k - 1);
      assert e[..k][1..] == e[1..][..k - 1];
    }
  }

  /** With weights that are not negative, cutting off heavy beginnings loses no script within the limit. */
  lemma PruningLosesNothing(m: ErrorModel, words: Words, limit: real, p: Point, e: Script)
    requires m.NonNegative()
    ensures Admitted(m, words, limit, p, e) <==>
              Aligned(e, p.rest) && p.prefix + Spelled(e) in words && p.weight + Cost(m, e, p.rest) <= limit
  {
    AdmittedExactly(m, words, limit, p, e);
    assert e[..|e|] == e;
    forall k | 0 <= k <= |e| ensures Cost(m, e[..k], p.rest) <= Cost(m, e, p.rest) {
      CostGrows(m, e, p.rest, k);
    }
  }

  // The edit distance, by recursion on the two words.

  function Least(a: Option<real>, b: Option<real>): Option<real> {
    if a.None? then b
    else if b.None? then a
    else if a.value <= b.value then a else b
  }

  function Plus(cost: real, d: Option<real>): Option<real> {
    if d.None? then None else Some(cost + d.value)
  }

  /** The least cost of turning the dictionary word u into t, None if there is no way: characters of u
      behind the last one of t cannot be left out. */
  function Distance(m: ErrorModel, u: string, t: string): Option<real>
    decreases |u| + |t|
  {
    if t == "" then (if u == "" then Some(0.0) else None)
    else
      var delete := Plus(EditCost(m, Delete, t[0]), Distance(m, u, t[1..]));
      if u == "" then delete
      else
        Least(delete,
          Least(Plus(EditCost(m, Change(u[0]), t[0]), Distance(m, u[1..], t[1..])),
                Plus(EditCost(m, Insert(u[0]), t[0]), Distance(m, u[1..], t))))
  }

  lemma {:induction false} DistanceIsLowerBound(m: ErrorModel, e: Script, t: string)
    requires Aligned(e, t)
    ensures Distance(m, Spelled(e), t).Some? && Distance(m, Spelled(e), t).value <= Cost(m, e, t)
    decreases |e|
  {
    NothingToUse(e);
    if t != "" {
      AlignedTail(e, t);
      DistanceIsLowerBound(m, e[1..], t[Uses(e[0])..]);
      assert !e[0].Delete? ==> Spelled(e)[1..] == Spelled(e[1..]);
      assert e[0].Delete? ==> Spelled(e) == Spelled(e[1..]);
      assert t[0..] == t;
    }
  }

  lemma HeadAndTail(u: string)
    ensures "" + u == u
    ensures u != "" ==> [u[0]] + u[1..] == u
  {}

  lemma {:induction false} DistanceIsReached(m: ErrorModel, u: string, t: string) returns (e: Script)
    requires Distance(m, u, t).Some?
    ensures Aligned(e, t) && Spelled(e) == u && Cost(m, e, t) == Distance(m, u, t).value
    decreases |u| + |t|
  {
    if t == "" {
      return [];
    }
    var d := Distance(m, u, t);
    var edit, v, s;
    if d == Plus(EditCost(m, Delete, t[0]), Distance(m, u, t[1..])) {
      edit, v, s := Delete, u, t[1..];
    } else if d == Plus(EditCost(m, Change(u[0]), t[0]), Distance(m, u[1..], t[1..])) {
      edit, v, s := Change(u[0]), u[1..], t[1..];
    } else {
      edit, v, s := Insert(u[0]), u[1..], t;
    }
    var rest := DistanceIsReached(m, v, s);
    e := [edit] + rest;
    hide Distance;
    assert e[1..] == rest && t[Uses(edit)..] == s;
    HeadAndTail(u);
    NothingToUse(rest);
    AlignedTail(e, t);
  }

  // What the missing insertions at the end amount to.

  function InsertAll(m: ErrorModel, u: string): real {
    if u == "" then 0.0 else m.Weight(u[0], '_') + InsertAll(m, u[1..])
  }

  lemma InsertAllSums(m: ErrorModel, c: char, u: string)
    ensures InsertAll(m, "") == 0.0
    ensures InsertAll(m, [c] + u)
            == (if '_' in m.unProb && c in m.unProb['_'] then m.unProb['_'][c] else 100.0) + InsertAll(m, u)
  {
    assert ([c] + u)[1..] == u;
  }

  function Smaller(a: real, b: real): real { if a <= b then a else b }

  /** The edit distance with insertions behind the last typed character. */
  function FullDistance(m: ErrorModel, u: string, t: string): real
    decreases |u| + |t|
  {
    if t == "" then InsertAll(m, u)
    else
      var delete := EditCost(m, Delete, t[0]) + FullDistance(m, u, t[1..]);
      if u == "" then delete
      else
        Smaller(delete,
          Smaller(EditCost(m, Change(u[0]), t[0]) + FullDistance(m, u[1..], t[1..]),
                  EditCost(m, Insert(u[0]), t[0]) + FullDistance(m, u[1..], t)))
  }

  lemma {:induction false} FullIsBelow(m: ErrorModel, u: string, t: string, k: nat)
    requires k <= |u| && Distance(m, u[..k], t).Some?
    ensures FullDistance(m, u, t) <= Distance(m, u[..k], t).value + InsertAll(m, u[k..])
    decreases |u| + |t|
  {
    var v := u[..k];
    if t == "" {
      assert u[0..] == u;
    } else if Distance(m, v, t) == Plus(EditCost(m, Delete, t[0]), Distance(m, v, t[1..])) {
      FullIsBelow(m, u, t[1..], k);
    } else {
      assert v[1..] == u[1..][..k - 1] && u[1..][k - 1..] == u[k..];
      if Distance(m, v, t) == Plus(EditCost(m, Change(u[0]), t[0]), Distance(m, v[1..], t[1..])) {
        FullIsBelow(m, u[1..], t[1..], k - 1);
      } else {
        FullIsBelow(m, u[1..], t, k - 1);
      }
    }
  }

  lemma DistanceSteps(m: ErrorModel, v: string, t: string)
    requires t != ""
    ensures Distance(m, v, t[1..]).Some? ==>
              Distance(m, v, t).Some?
              && Distance(m, v, t).value <= EditCost(m, Delete, t[0]) + Distance(m, v, t[1..]).value
    ensures v != "" && Distance(m, v[1..], t[1..]).Some? ==>
              Distance(m, v, t).Some?
              && Distance(m, v, t).value <= EditCost(m, Change(v[0]), t[0]) + Distance(m, v[1..], t[1..]).value
    ensures v != "" && Distance(m, v[1..], t).Some? ==>
              Distance(m, v, t).Some?
              && Distance(m, v, t).value <= EditCost(m, Insert(v[0]), t[0]) + Distance(m, v[1..], t).value
  {}

  lemma NoDistance(m: ErrorModel)
    ensures Distance(m, "", "") == Some(0.0)
  {}

  lemma {:induction false} FullIsReached(m: ErrorModel, u: string, t: string) returns (k: nat)
    ensures k <= |u| && Distance(m, u[..k], t).Some?
    ensures FullDistance(m, u, t) == Distance(m, u[..k], t).value + InsertAll(m, u[k..])
    decreases |u| + |t|
  {
    hide Distance;
    var full := FullDistance(m, u, t);
    if t == "" {
      NoDistance(m);
      assert u[0..] == u;
      return 0;
    }
    if full == EditCost(m, Delete, t[0]) + FullDistance(m, u, t[1..]) {
      k := FullIsReached(m, u, t[1..]);
    } else {
      if full == EditCost(m, Change(u[0]), t[0]) + FullDistance(m, u[1..], t[1..]) {
        k := FullIsReached(m, u[1..], t[1..]);
      } else {
        k := FullIsReached(m, u[1..], t);
      }
      assert u[..k + 1][1..] == u[1..][..k] && u[1..][k..] == u[k + 1..];
      k := k + 1;
    }
    DistanceSteps(m, u[..k], t);
    FullIsBelow(m, u, t, k);
  }

  /** The search's distance is the full one exactly if no proper beginning of the word, with the rest inserted
      behind it, is cheaper than the whole word without such insertions. */
  lemma AgreesExactly(m: ErrorModel, u: string, t: string)
    ensures Distance(m, u, t) == Some(FullDistance(m, u, t)) <==>
              && Distance(m, u, t).Some?
              && forall k :: 0 <= k < |u| && Distance(m, u[..k], t).Some? ==>
                   Distance(m, u, t).value <= Distance(m, u[..k], t).value + InsertAll(m, u[k..])
  {
    hide Distance; hide FullDistance;
    assert u[..|u|] == u && InsertAll(m, u[|u|..]) == 0.0;
    if Distance(m, u, t).Some? {
      FullIsBelow(m, u, t, |u|);
    }
    var reached := FullIsReached(m, u, t);
    forall k | 0 <= k < |u| && Distance(m, u[..k], t).Some?
      ensures FullDistance(m, u, t) <= Distance(m, u[..k], t).value + InsertAll(m, u[k..])
    {
      FullIsBelow(m, u, t, k);
    }
  }

  /** It matters: without any learnt weights, the typed "a" is 100 away from "ab", and the search says 200. */
  lemma TrailingInsertionMatters(m: ErrorModel)
    requires m.unProb == map[]
    ensures Distance(m, "ab", "a") == Some(200.0) && FullDistance(m, "ab", "a") == 100.0
  {
    assert "ab"[1..] == "b" && "b"[1..] == "" && "a"[1..] == "";
    assert Distance(m, "ab", "") == None && Distance(m, "b", "") == None && Distance(m, "", "") == Some(0.0);
    assert Distance(m, "", "a") == Some(100.0);
    assert Distance(m, "b", "a") == Some(100.0);
    assert InsertAll(m, "b") == 100.0 && InsertAll(m, "ab") == 200.0;
    assert FullDistance(m, "ab", "") == 200.0 && FullDistance(m, "b", "") == 100.0;
    assert FullDistance(m, "b", "a") == 100.0;
  }
}
