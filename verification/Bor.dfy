/** The trie of dictionary words and the search for the words that a typed one may stand for. */
module Bor {
  import opened Basics
  import opened EditScripts
  import opened Ranking

  function Parent(q: string): string
    requires q != ""
  {
    q[..|q| - 1]
  }

  class Node {
    const word: string
    var children: map<char, Node>
    var prob: Option<real>

    constructor (word: string)
      ensures this.word == word && children == map[] && prob == None
    {
      this.word, children, prob := word, map[], None;
    }
  }

  type Nodes = map<string, Node>

  type Kids = map<string, map<char, Node>>

  /** The nodes are exactly the beginnings they are filed under, linked by their last character. */
  ghost predicate Tree(nodes: Nodes, kids: Kids) {
    && "" in nodes && kids.Keys == nodes.Keys
    && (forall p, c {:trigger c in kids[p]} :: p in kids && c in kids[p] ==> p + [c] in nodes && kids[p][c] == nodes[p + [c]])
    && (forall q {:trigger Parent(q)} :: q in nodes && q != "" ==> Parent(q) in nodes && q[|q| - 1] in kids[Parent(q)])
  }

  ghost predicate Linked(nodes: Nodes, repr: set<Node>, kids: Kids)
    reads repr`children
  {
    && Tree(nodes, kids)
    && (forall p :: p in nodes ==> nodes[p] in repr && nodes[p].word == p && nodes[p].children == kids[p])
  }

  /** A new leaf below p. */
  lemma TreeGrows(nodes: Nodes, kids: Kids, p: string, c: char, child: Node)
    requires Tree(nodes, kids) && p in nodes && c !in kids[p]
    ensures p + [c] !in nodes
    ensures Tree(nodes[p + [c] := child], kids[p := kids[p][c := child]][p + [c] := map[]])
  {
    var prefix := p + [c];
    assert Parent(prefix) == p && prefix[|prefix| - 1] == c;
    var nodes', kids' := nodes[prefix := child], kids[p := kids[p][c := child]][prefix := map[]];
    forall q, d | q in kids' && d in kids'[q] ensures q + [d] in nodes' && kids'[q][d] == nodes'[q + [d]] {
      if q + [d] == prefix {
        assert Parent(q + [d]) == q && (q + [d])[|q|] == d;
      } else if q != prefix {
        assert q == p ==> d != c;
        assert d in kids[q];
      }
    }
  }

  /** The marked nodes are the dictionary words, with their probabilities. */
  ghost predicate Marked(nodes: Nodes, repr: set<Node>, words: Words)
    reads repr`prob
  {
    && words.Keys <= nodes.Keys
    && (forall p :: p in nodes ==> nodes[p] in repr && nodes[p].prob == if p in words then Some(words[p]) else None)
  }

  /** First edits that have been tried. */
  datatype Tried = Tried(changed: set<char>, inserted: set<char>, deleted: bool) {
    predicate Has(edit: Edit) {
      match edit
      case Change(c) => c in changed
      case Insert(c) => c in inserted
      case Delete => deleted
    }

    function And(edit: Edit): Tried {
      match edit
      case Change(c) => this.(changed := changed + {c})
      case Insert(c) => this.(inserted := inserted + {c})
      case Delete => this.(deleted := true)
    }
  }

  /** The scripts admitted from p that begin with one of the edits tried, each once. */
  ghost predicate Lists(m: ErrorModel, words: Words, limit: real, p: Point, tried: Tried, scripts: seq<Script>) {
    && (forall i, j :: 0 <= i < j < |scripts| ==> scripts[i] != scripts[j])
    && (forall e :: e in scripts <==> e != [] && tried.Has(e[0]) && Admitted(m, words, limit, p, e))
  }

  /** All scripts admitted from p, each once. */
  ghost predicate ListsAll(m: ErrorModel, words: Words, limit: real, p: Point, scripts: seq<Script>) {
    && (forall i, j :: 0 <= i < j < |scripts| ==> scripts[i] != scripts[j])
    && (forall e :: e in scripts <==> Admitted(m, words, limit, p, e))
  }

  /** One match for each script: the word it spells and its weight. */
  ghost predicate Tells(m: ErrorModel, words: Words, p: Point, scripts: seq<Script>, matches: seq<Match>) {
    && |matches| == |scripts|
    && forall i :: 0 <= i < |scripts| ==>
         var end := End(m, p, scripts[i]);
         end.prefix in words && matches[i] == Match(end.prefix, words[end.prefix], end.weight)
  }

  function Prepend(edit: Edit, scripts: seq<Script>): seq<Script>
  {
    seq(|scripts|, i requires 0 <= i < |scripts| => [edit] + scripts[i])
  }

  lemma InPrepend(edit: Edit, scripts: seq<Script>, e: Script)
    ensures e in Prepend(edit, scripts) <==> e != [] && e[0] == edit && e[1..] in scripts
  {
    if e != [] && e[0] == edit && e[1..] in scripts {
      var i :| 0 <= i < |scripts| && scripts[i] == e[1..];
      assert Prepend(edit, scripts)[i] == e;
    }
    if e in Prepend(edit, scripts) {
      var i :| 0 <= i < |scripts| && Prepend(edit, scripts)[i] == e;
      assert e[1..] == scripts[i];
    }
  }

  /** Where the search goes on after each kind of edit. */
  lemma Moves(m: ErrorModel, p: Point, c: char)
    requires p.rest != ""
    ensures Move(m, p, Change(c)) ==
              Point(p.prefix + [c], p.rest[1..], if c != p.rest[0] then p.weight + m.Weight(c, p.rest[0]) else p.weight)
    ensures Move(m, p, Insert(c)) == Point(p.prefix + [c], p.rest, p.weight + m.Weight(c, '_'))
    ensures Move(m, p, Delete) == Point(p.prefix, p.rest[1..], p.weight + m.Weight('_', p.rest[0]))
  {}

  lemma ListsNothing(m: ErrorModel, words: Words, limit: real, p: Point)
    ensures Lists(m, words, limit, p, Tried({}, {}, false), []) && Tells(m, words, p, [], [])
    ensures p.weight > limit || (p.rest == "" && p.prefix !in words) ==> ListsAll(m, words, limit, p, [])
  {}

  lemma ListsArrival(m: ErrorModel, words: Words, limit: real, p: Point)
    requires p.weight <= limit && p.rest == "" && p.prefix in words
    ensures ListsAll(m, words, limit, p, [[]]) && Tells(m, words, p, [[]], [Match(p.prefix, words[p.prefix], p.weight)])
  {}

  /** One more first edit: the scripts that go on from where it leads. */
  lemma ListsMore(m: ErrorModel, words: Words, limit: real, p: Point, tried: Tried, scripts: seq<Script>,
                  edit: Edit, subs: seq<Script>)
    requires p.rest != "" && p.weight <= limit && !tried.Has(edit)
    requires Lists(m, words, limit, p, tried, scripts) && ListsAll(m, words, limit, Move(m, p, edit), subs)
    ensures Lists(m, words, limit, p, tried.And(edit), scripts + Prepend(edit, subs))
  {
    var all := scripts + Prepend(edit, subs);
    forall e ensures e in all <==> e != [] && tried.And(edit).Has(e[0]) && Admitted(m, words, limit, p, e) {
      InPrepend(edit, subs, e);
      assert e in all <==> e in scripts || e in Prepend(edit, subs);
    }
    forall i, j | 0 <= i < j < |all| ensures all[i] != all[j] {
      if i < |scripts| <= j {
        assert all[i] in scripts && tried.Has(all[i][0]);
        assert all[j][0] == edit;
      } else if |scripts| <= i {
        assert all[i][1..] == subs[i - |scripts|] && all[j][1..] == subs[j - |scripts|];
      }
    }
  }

  lemma TellsMore(m: ErrorModel, words: Words, p: Point, scripts: seq<Script>, matches: seq<Match>,
                  edit: Edit, subs: seq<Script>, more: seq<Match>)
    requires p.rest != "" && Tells(m, words, p, scripts, matches) && Tells(m, words, Move(m, p, edit), subs, more)
    ensures Tells(m, words, p, scripts + Prepend(edit, subs), matches + more)
  {
    var all := scripts + Prepend(edit, subs);
    forall i | |scripts| <= i < |all| ensures End(m, p, all[i]) == End(m, Move(m, p, edit), subs[i - |scripts|]) {
      assert all[i][1..] == subs[i - |scripts|];
    }
  }

  /** Changes are tried before insertions, and deletions last. */
  function Turn(edit: Edit): nat {
    match edit
    case Change(_) => 0
    case Insert(_) => 1
    case Delete => 2
  }

  /** Of two ways that part, the one that goes on with the earlier kind of edit comes first. */
  ghost predicate InOrder(scripts: seq<Script>) {
    forall i, j, k {:trigger scripts[i][k], scripts[j][k]} ::
      0 <= i < j < |scripts| && 0 <= k < |scripts[i]| && k < |scripts[j]| && scripts[i][..k] == scripts[j][..k] ==>
        Turn(scripts[i][k]) <= Turn(scripts[j][k])
  }

  lemma SameStart(e: Script, f: Script, k: nat)
    requires k < |e| && k < |f| && e[..k] == f[..k]
    ensures k > 0 ==> e[0] == f[0]
  {
    if k > 0 {
      assert e[..k][0] == f[..k][0];
    }
  }

  lemma SameRest(edit: Edit, e: Script, f: Script, k: nat)
    requires 0 < k <= |e| && k <= |f| && ([edit] + e)[..k] == ([edit] + f)[..k]
    ensures e[..k - 1] == f[..k - 1]
  {
    assert e[..k - 1] == ([edit] + e)[..k][1..];
    assert f[..k - 1] == ([edit] + f)[..k][1..];
  }

  lemma InOrderMore(scripts: seq<Script>, edit: Edit, subs: seq<Script>)
    requires InOrder(scripts) && InOrder(subs)
    requires forall e :: e in scripts ==> e != [] && e[0] != edit && Turn(e[0]) <= Turn(edit)
    ensures InOrder(scripts + Prepend(edit, subs))
  {
    var all := scripts + Prepend(edit, subs);
    forall i, j, k | 0 <= i < j < |all| && 0 <= k < |all[i]| && k < |all[j]| && all[i][..k] == all[j][..k]
      ensures Turn(all[i][k]) <= Turn(all[j][k])
    {
      if i < |scripts| <= j {
        assert all[i] in scripts && all[j][0] == edit;
        SameStart(all[i], all[j], k);
      } else if |scripts| <= i && k > 0 {
        var e, f := subs[i - |scripts|], subs[j - |scripts|];
        assert all[i] == [edit] + e && all[j] == [edit] + f;
        SameRest(edit, e, f, k);
        assert e[k - 1] == all[i][k] && f[k - 1] == all[j][k];
      }
    }
  }

  /** The kinds of edits that have been tried come before this one or are of its kind. */
  ghost predicate ItsTurn(tried: Tried, edit: Edit) {
    (edit.Change? ==> tried.inserted == {}) && (!edit.Delete? ==> !tried.deleted)
  }

  /** The matches so far, over the first edits tried; scripts are the ways to them, one each. */
  ghost predicate Partly(m: ErrorModel, words: Words, limit: real, p: Point, tried: Tried,
                         scripts: seq<Script>, matches: seq<Match>) {
    Lists(m, words, limit, p, tried, scripts) && Tells(m, words, p, scripts, matches) && InOrder(scripts)
  }

  /** All matches, one for each script. */
  ghost predicate Complete(m: ErrorModel, words: Words, limit: real, p: Point, scripts: seq<Script>, matches: seq<Match>) {
    ListsAll(m, words, limit, p, scripts) && Tells(m, words, p, scripts, matches) && InOrder(scripts)
  }

  lemma PartlyNothing(m: ErrorModel, words: Words, limit: real, p: Point)
    ensures Partly(m, words, limit, p, Tried({}, {}, false), [], [])
  {}

  lemma Extended(m: ErrorModel, words: Words, limit: real, p: Point, tried: Tried, scripts: seq<Script>, matches: seq<Match>,
                 edit: Edit, subs: seq<Script>, more: seq<Match>)
    requires p.rest != "" && p.weight <= limit && !tried.Has(edit) && ItsTurn(tried, edit)
    requires Partly(m, words, limit, p, tried, scripts, matches) && Complete(m, words, limit, Move(m, p, edit), subs, more)
    ensures Partly(m, words, limit, p, tried.And(edit), scripts + Prepend(edit, subs), matches + more)
  {
    ListsMore(m, words, limit, p, tried, scripts, edit, subs);
    TellsMore(m, words, p, scripts, matches, edit, subs, more);
    InOrderMore(scripts, edit, subs);
  }

  /** Every match is a dictionary word with its probability, within the limit. */
  lemma MatchesAreWords(m: ErrorModel, words: Words, limit: real, p: Point, scripts: seq<Script>, matches: seq<Match>)
    requires Complete(m, words, limit, p, scripts, matches)
    ensures forall i :: 0 <= i < |matches| ==>
              && p.prefix <= matches[i].word && matches[i].word in words
              && matches[i].prob == words[matches[i].word] && matches[i].weight <= limit
  {
    forall i | 0 <= i < |matches|
      ensures p.prefix <= matches[i].word && matches[i].word in words
      ensures matches[i].prob == words[matches[i].word] && matches[i].weight <= limit
    {
      var e := scripts[i];
      assert e in scripts;
      AdmittedExactly(m, words, limit, p, e);
      EndReached(m, p, e);
      assert e[..|e|] == e;
    }
  }

  lemma {:induction false} BeginningIn(nodes: Nodes, kids: Kids, p: string, q: string)
    requires Tree(nodes, kids) && q in nodes && p <= q
    ensures p in nodes
    decreases |q|
  {
    if p != q {
      assert p <= Parent(q);
      BeginningIn(nodes, kids, p, Parent(q));
    }
  }

  /** From a place outside the trie no dictionary word is reached. */
  lemma DeadEnd(nodes: Nodes, kids: Kids, m: ErrorModel, words: Words, limit: real, p: Point, e: Script)
    requires Tree(nodes, kids) && words.Keys <= nodes.Keys && p.prefix !in nodes
    ensures !Admitted(m, words, limit, p, e)
  {
    AdmittedExactly(m, words, limit, p, e);
    if p.prefix + Spelled(e) in words {
      BeginningIn(nodes, kids, p.prefix, p.prefix + Spelled(e));
    }
  }

  /** Nothing is admitted that begins with an edit towards a missing child. */
  lemma Finished(nodes: Nodes, repr: set<Node>, kids: Kids, m: ErrorModel, words: Words, limit: real, p: Point, tried: Tried,
                 scripts: seq<Script>, matches: seq<Match>)
    requires Linked(nodes, repr, kids) && Marked(nodes, repr, words) && p.prefix in nodes && p.rest != ""
    requires Partly(m, words, limit, p, tried, scripts, matches)
    requires tried == Tried(nodes[p.prefix].children.Keys, nodes[p.prefix].children.Keys, true)
    ensures Complete(m, words, limit, p, scripts, matches)
  {
    forall e: Script | Admitted(m, words, limit, p, e) ensures e in scripts {
      if !tried.Has(e[0]) {
        assert Parent(p.prefix + [e[0].c]) == p.prefix;
        DeadEnd(nodes, kids, m, words, limit, Move(m, p, e[0]), e[1..]);
      }
    }
  }

  lemma RootIn(nodes: Nodes, repr: set<Node>, kids: Kids)
    requires Linked(nodes, repr, kids)
    ensures "" in nodes && nodes[""] in repr
  {}

  lemma MarkOf(nodes: Nodes, repr: set<Node>, kids: Kids, words: Words, p: string)
    requires Linked(nodes, repr, kids) && Marked(nodes, repr, words) && p in nodes
    ensures nodes[p].word == p && (nodes[p].prob == if p in words then Some(words[p]) else None)
  {}

  lemma ChildIn(nodes: Nodes, repr: set<Node>, kids: Kids, p: string, c: char)
    requires Linked(nodes, repr, kids) && p in nodes && c in nodes[p].children
    ensures p + [c] in nodes && nodes[p].children[c] == nodes[p + [c]] && nodes[p + [c]].word == p + [c]
    ensures nodes[p + [c]] in repr
  {}

  /** The nodes below one. */
  ghost function Below(nodes: Nodes, p: string): set<string> {
    set q | q in nodes && p <= q && p != q
  }

  lemma BelowChild(nodes: Nodes, p: string, c: char)
    requires p + [c] in nodes
    ensures |Below(nodes, p + [c])| < |Below(nodes, p)|
  {
    assert Below(nodes, p + [c]) <= Below(nodes, p) - {p + [c]};
    Smaller(Below(nodes, p + [c]), Below(nodes, p), p + [c]);
  }

  lemma {:induction false} Smaller(a: set<string>, b: set<string>, x: string)
    requires x in b && a <= b - {x}
    ensures |a| < |b|
    decreases |a|
  {
    if a != {} {
      var y :| y in a;
      Smaller(a - {y}, b - {y}, x);
    }
  }

  lemma TreeKeys(nodes: Nodes, kids: Kids)
    requires Tree(nodes, kids)
    ensures nodes.Keys == kids.Keys && "" in nodes
  {}

  lemma MarkedGrows(nodes: Nodes, repr: set<Node>, words: Words, prefix: string, child: Node)
    requires Marked(nodes, repr, words) && prefix !in nodes && child.prob == None
    ensures Marked(nodes[prefix := child], repr + {child}, words)
  {}

  lemma LinkedGrows(nodes: Nodes, repr: set<Node>, kids: Kids, p: string, c: char, child: Node)
    requires p in nodes && nodes.Keys == kids.Keys && p + [c] !in nodes
    requires Tree(nodes[p + [c] := child], kids[p := kids[p][c := child]][p + [c] := map[]])
    requires child.word == p + [c] && child.children == map[]
    requires forall q :: q in nodes ==>
               nodes[q] in repr && nodes[q].word == q && nodes[q].children == if q == p then kids[p][c := child] else kids[q]
    ensures Linked(nodes[p + [c] := child], repr + {child}, kids[p := kids[p][c := child]][p + [c] := map[]])
  {}

  class Bor {
    const root: Node
    const langModel: Words
    const errModel: ErrorModel
    var maxWeight: real

    ghost var nodes: Nodes
    ghost var repr: set<Node>
    ghost var kids: Kids
    ghost var words: Words

    ghost predicate Valid()
      reads this`nodes, this`repr, this`kids, this`words, repr`children, repr`prob
    {
      Linked(nodes, repr, kids) && nodes[""] == root && Marked(nodes, repr, words) && "" !in words
    }

    constructor (langModel: Words, errModel: ErrorModel)
      ensures Valid() && words == map[] && fresh(repr)
      ensures this.langModel == langModel && this.errModel == errModel
    {
      this.langModel, this.errModel, maxWeight := langModel, errModel, 0.0;
      root := new Node("");
      nodes, repr, kids, words := map["" := root], {root}, map["" := map[]], map[];
    }

    /** Goes to the child for the next character, which is made if it is not there. */
    method Descend(node: Node, ghost p: string, c: char, prefix: string) returns (child: Node)
      requires Valid() && p in nodes && nodes[p] == node && node in repr && prefix == p + [c]
      modifies this`nodes, this`repr, this`kids, node`children
      ensures Valid() && words == old(words)
      ensures prefix in nodes && child == nodes[prefix] && child.word == prefix && child in repr
      ensures fresh(repr - old(repr))
    {
      if c in node.children {
        ChildIn(nodes, repr, kids, p, c);
        child := node.children[c];
      } else {
        child := Grow(node, p, c, prefix);
      }
    }

    method Grow(node: Node, ghost p: string, c: char, prefix: string) returns (child: Node)
      requires Valid() && p in nodes && nodes[p] == node && node in repr && prefix == p + [c] && c !in node.children
      modifies this`nodes, this`repr, this`kids, node`children
      ensures Valid() && words == old(words)
      ensures prefix in nodes && child == nodes[prefix] && child.word == prefix && child in repr
      ensures fresh(repr - old(repr))
    {
      hide Tree; hide Marked;
      child := new Node(prefix);
      TreeGrows(nodes, kids, p, c, child);
      TreeKeys(nodes, kids);
      MarkedGrows(nodes, repr, words, prefix, child);
      node.children := node.children[c := child];
      LinkedGrows(nodes, repr, kids, p, c, child);
      nodes, repr, kids := nodes[prefix := child], repr + {child}, kids[p := kids[p][c := child]][prefix := map[]];
    }

    /** Enters one word; the node of its last character is marked, so the empty word leaves no mark. */
    method AddWord(word: string)
      requires Valid() && word in langModel
      modifies this`nodes, this`words, this`repr, this`kids, repr`children, repr`prob
      ensures Valid() && fresh(repr - old(repr))
      ensures words == if word == "" then old(words) else old(words)[word := langModel[word]]
    {
      RootIn(nodes, repr, kids);
      hide Valid;
      var node := root;
      assert word[..0] == "";
      for i := 0 to |word|
        invariant Valid() && fresh(repr - old(repr))
        invariant word[..i] in nodes && nodes[word[..i]] == node && node in repr
        invariant words == if 0 < i == |word| then old(words)[word := langModel[word]] else old(words)
      {
        node := EnterNext(node, word, i);
      }
    }

    /** One character of a word, and the mark behind the last. */
    method EnterNext(node: Node, word: string, i: nat) returns (next: Node)
      requires Valid() && word in langModel && i < |word|
      requires word[..i] in nodes && nodes[word[..i]] == node && node in repr
      modifies this`nodes, this`words, this`repr, this`kids, node`children, repr`prob
      ensures Valid() && fresh(repr - old(repr))
      ensures word[..i + 1] in nodes && nodes[word[..i + 1]] == next && next in repr
      ensures words == if i + 1 == |word| then old(words)[word := langModel[word]] else old(words)
    {
      hide Valid;
      assert word[..i + 1] == word[..i] + [word[i]];
      assert i + 1 == |word| ==> word[..i + 1] == word;
      next := Descend(node, word[..i], word[i], word[..i + 1]);
      if next.word == word {
        Mark(next, word);
      }
    }

    method Mark(node: Node, word: string)
      requires Valid() && word in langModel && word != "" && word in nodes && nodes[word] == node && node in repr
      modifies this`words, node`prob
      ensures Valid() && words == old(words)[word := langModel[word]]
    {
      node.prob := Some(langModel[word]);
      words := words[word := langModel[word]];
    }

    /** Enters all words of the language model, in any order. */
    method Fit()
      requires Valid()
      modifies this`nodes, this`words, this`repr, this`kids, repr`children, repr`prob
      ensures Valid() && fresh(repr - old(repr))
      ensures words == old(words) + (langModel - {""})
    {
      hide Linked; hide Marked;
      var rest := langModel.Keys;
      while rest != {}
        invariant Valid() && fresh(repr - old(repr))
        invariant rest <= langModel.Keys
        invariant words == old(words) + (langModel - rest - {""})
      {
        var word :| word in rest;
        AddWord(word);
        OneMoreWord(old(words), langModel, rest, word);
        rest := rest - {word};
      }
      assert langModel - {} - {""} == langModel - {""};
    }

    /** A node of the trie. */
    ghost predicate IsNode(node: Node)
      reads this`nodes
    {
      node.word in nodes && nodes[node.word] == node
    }

    lemma ChildOf(node: Node, c: char)
      requires Valid() && IsNode(node) && c in node.children
      ensures IsNode(node.children[c]) && node.children[c].word == node.word + [c]
      ensures |Below(nodes, node.word + [c])| < |Below(nodes, node.word)|
    {
      ChildIn(nodes, repr, kids, node.word, c);
      BelowChild(nodes, node.word, c);
    }

    /** The matches that begin with one changed character. */
    method TryChange(word: string, start: Node, weight: real, child: char, found: seq<Match>,
                     ghost tried: Tried, ghost ways: seq<Script>)
        returns (candidates: seq<Match>, ghost scripts: seq<Script>)
      requires Valid() && IsNode(start) && word != "" && weight <= maxWeight
      requires child in start.children && !tried.Has(Change(child)) && ItsTurn(tried, Change(child))
      requires Partly(errModel, words, maxWeight, Point(start.word, word, weight), tried, ways, found)
      ensures Valid()
      ensures Partly(errModel, words, maxWeight, Point(start.word, word, weight), tried.And(Change(child)), scripts, candidates)
      decreases |word|, |Below(nodes, start.word)|, 0
    {
      hide Partly; hide Complete; hide Valid; hide Prepend; hide Below; hide Move; hide ErrorModel.Weight; hide Tried.And; hide Tried.Has;
      ghost var p := Point(start.word, word, weight);
      ChildOf(start, child);
      Moves(errModel, p, child);
      var newWeight := if child != word[0] then weight + errModel.Weight(child, word[0]) else weight;
      var more, subs := Search(word[1..], start.children[child], newWeight);
      Extended(errModel, words, maxWeight, p, tried, ways, found, Change(child), subs, more);
      candidates, scripts := found + more, ways + Prepend(Change(child), subs);
    }

    /** The matches that begin with one inserted character. */
    method TryInsert(word: string, start: Node, weight: real, child: char, found: seq<Match>,
                     ghost tried: Tried, ghost ways: seq<Script>)
        returns (candidates: seq<Match>, ghost scripts: seq<Script>)
      requires Valid() && IsNode(start) && word != "" && weight <= maxWeight
      requires child in start.children && !tried.Has(Insert(child)) && ItsTurn(tried, Insert(child))
      requires Partly(errModel, words, maxWeight, Point(start.word, word, weight), tried, ways, found)
      ensures Valid()
      ensures Partly(errModel, words, maxWeight, Point(start.word, word, weight), tried.And(Insert(child)), scripts, candidates)
      decreases |word|, |Below(nodes, start.word)|, 0
    {
      hide Partly; hide Complete; hide Valid; hide Prepend; hide Below; hide Move; hide ErrorModel.Weight; hide Tried.And; hide Tried.Has;
      ghost var p := Point(start.word, word, weight);
      ChildOf(start, child);
      Moves(errModel, p, child);
      var more, subs := Search(word, start.children[child], weight + errModel.Weight(child, '_'));
      Extended(errModel, words, maxWeight, p, tried, ways, found, Insert(child), subs, more);
      candidates, scripts := found + more, ways + Prepend(Insert(child), subs);
    }

    /** The matches that begin with a changed character. */
    method SearchChanged(word: string, start: Node, weight: real)
        returns (candidates: seq<Match>, ghost scripts: seq<Script>)
      requires Valid() && IsNode(start) && word != "" && weight <= maxWeight
      ensures Valid()
      ensures Partly(errModel, words, maxWeight, Point(start.word, word, weight), Tried(start.children.Keys, {}, false), scripts, candidates)
      decreases |word|, |Below(nodes, start.word)|, 1
    {
      ghost var p := Point(start.word, word, weight);
      PartlyNothing(errModel, words, maxWeight, p);
      hide Partly; hide Valid; hide Below;
      candidates, scripts := [], [];
      var rest := start.children.Keys;
      ghost var seen: set<char> := {};
      while rest != {}
        invariant Valid()
        invariant seen !! rest && seen + rest == start.children.Keys
        invariant Partly(errModel, words, maxWeight, p, Tried(seen, {}, false), scripts, candidates)
      {
        var child :| child in rest;
        candidates, scripts := TryChange(word, start, weight, child, candidates, Tried(seen, {}, false), scripts);
        rest, seen := rest - {child}, seen + {child};
      }
    }

    /** Then those that begin with an inserted one. */
    method SearchInserted(word: string, start: Node, weight: real, found: seq<Match>, ghost ways: seq<Script>)
        returns (candidates: seq<Match>, ghost scripts: seq<Script>)
      requires Valid() && IsNode(start) && word != "" && weight <= maxWeight
      requires Partly(errModel, words, maxWeight, Point(start.word, word, weight), Tried(start.children.Keys, {}, false), ways, found)
      ensures Valid()
      ensures Partly(errModel, words, maxWeight, Point(start.word, word, weight), Tried(start.children.Keys, start.children.Keys, false), scripts, candidates)
      decreases |word|, |Below(nodes, start.word)|, 1
    {
      hide Partly; hide Valid; hide Below;
      ghost var p := Point(start.word, word, weight);
      candidates, scripts := found, ways;
      var rest := start.children.Keys;
      ghost var seen: set<char> := {};
      while rest != {}
        invariant Valid()
        invariant seen !! rest && seen + rest == start.children.Keys
        invariant Partly(errModel, words, maxWeight, p, Tried(start.children.Keys, seen, false), scripts, candidates)
      {
        var child :| child in rest;
        candidates, scripts := TryInsert(word, start, weight, child, candidates, Tried(start.children.Keys, seen, false), scripts);
        rest, seen := rest - {child}, seen + {child};
      }
    }

    /** And those that begin with a deleted one, which are the last. */
    method SearchDeleted(word: string, start: Node, weight: real, found: seq<Match>, ghost ways: seq<Script>)
        returns (candidates: seq<Match>, ghost scripts: seq<Script>)
      requires Valid() && IsNode(start) && word != "" && weight <= maxWeight
      requires Partly(errModel, words, maxWeight, Point(start.word, word, weight), Tried(start.children.Keys, start.children.Keys, false), ways, found)
      ensures Valid()
      ensures Complete(errModel, words, maxWeight, Point(start.word, word, weight), scripts, candidates)
      decreases |word|, |Below(nodes, start.word)|, 0
    {
      hide Partly; hide Complete; hide Linked; hide Marked; hide Prepend; hide Below; hide Move; hide ErrorModel.Weight;
      ghost var p := Point(start.word, word, weight);
      ghost var tried := Tried(start.children.Keys, start.children.Keys, false);
      Moves(errModel, p, word[0]);
      var more, subs := Search(word[1..], start, weight + errModel.Weight('_', word[0]));
      Extended(errModel, words, maxWeight, p, tried, ways, found, Delete, subs, more);
      candidates, scripts := found + more, ways + Prepend(Delete, subs);
      Finished(nodes, repr, kids, errModel, words, maxWeight, p, tried.And(Delete), scripts, candidates);
    }

    /** The matches of word from a node on; scripts are the ways to them, one each. */
    method Search(word: string, start: Node, weight: real) returns (candidates: seq<Match>, ghost scripts: seq<Script>)
      requires Valid() && IsNode(start)
      ensures Valid()
      ensures Complete(errModel, words, maxWeight, Point(start.word, word, weight), scripts, candidates)
      ensures forall i :: 0 <= i < |candidates| ==>
                && start.word <= candidates[i].word && candidates[i].word in words
                && candidates[i].prob == words[candidates[i].word] && candidates[i].weight <= maxWeight
      decreases |word|, |Below(nodes, start.word)|, 2
    {
      ghost var p := Point(start.word, word, weight);
      ListsNothing(errModel, words, maxWeight, p);
      MarkOf(nodes, repr, kids, words, start.word);
      if weight > maxWeight {
        return [], [];
      }
      if word == "" {
        if start.prob != None {
          ListsArrival(errModel, words, maxWeight, p);
          return [Match(start.word, start.prob.value, weight)], [[]];
        } else {
          return [], [];
        }
      }
      hide Partly; hide Complete; hide Linked; hide Marked; hide Below;
      candidates, scripts := SearchChanged(word, start, weight);
      candidates, scripts := SearchInserted(word, start, weight, candidates, scripts);
      candidates, scripts := SearchDeleted(word, start, weight, candidates, scripts);
      MatchesAreWords(errModel, words, maxWeight, p, scripts, candidates);
    }

    /** The words within maxWeight, best first. */
    method BestMatch(word: string, alpha: real, beta: real, maxWeight: real, matchNum: Option<int>, maxDiff: Option<real>)
        returns (res: seq<string>, ghost matches: seq<Match>, ghost scripts: seq<Script>)
      requires Valid()
      modifies this`maxWeight
      ensures Valid() && this.maxWeight == maxWeight
      ensures Complete(errModel, words, maxWeight, Point("", word, 0.0), scripts, matches)
      ensures res == Best(matches, Weighted(alpha, beta), matchNum, maxDiff)
    {
      this.maxWeight := maxWeight;
      RootIn(nodes, repr, kids);
      var found;
      found, scripts := Search(word, root, 0.0);
      matches := found;
      var ranked := Ranked(Weighted(alpha, beta), found);
      if |ranked| == 0 {
        return [], matches, scripts;
      }
      res := Choose(ranked, matchNum, maxDiff);
    }

    method Choose(ranked: seq<Match>, matchNum: Option<int>, maxDiff: Option<real>) returns (res: seq<string>)
      requires ranked != []
      ensures res == AtMost(Firsts(Near(ranked, ranked[0].weight, maxDiff)), matchNum)
    {
      hide Near; hide Firsts; hide Passed;
      var bestWeight := ranked[0].weight;
      res := [];
      PassedNone(ranked, bestWeight, maxDiff);
      for i := 0 to |ranked|
        invariant res == Firsts(ranked[..i]) && Passed(ranked, i, bestWeight, maxDiff)
        invariant matchNum.Some? && 0 < matchNum.value ==> |res| < matchNum.value
      {
        var e := ranked[i];
        PassedOne(ranked, i, bestWeight, maxDiff);
        FirstsOne(ranked, i, Near(ranked, bestWeight, maxDiff));
        if maxDiff.Some? && e.weight - bestWeight > maxDiff.value {
          return;
        }
        if e.word !in res {
          res := res + [e.word];
          if matchNum.Some? && |res| == matchNum.value {
            return;
          }
        }
      }
      PassedAll(ranked, bestWeight, maxDiff);
    }
  }

  lemma OneMoreWord(words: Words, model: Words, rest: set<string>, word: string)
    requires word in rest && rest <= model.Keys
    ensures words + (model - (rest - {word}) - {""}) ==
              if word == "" then words + (model - rest - {""}) else (words + (model - rest - {""}))[word := model[word]]
  {}
}
