/** The cache as it is stored: a doubly linked list of nodes, an index by key and a count of free bytes.
    unique_ptr ownership is modelled by plain references, freeing a node by dropping it from the list. */
module SimpleLru {
  import opened LruSpec
  import opened LruLaws

  class LruNode {
    const key: string
    var value: string
    var next: LruNode?
    var prev: LruNode?

    constructor (key: string, value: string)
      ensures this.key == key && this.value == value && next == null && prev == null
    {
      this.key, this.value, next, prev := key, value, null, null;
    }
  }

  /** The node at a position, null beyond either end. */
  ghost function At(nodes: seq<LruNode>, i: int): LruNode? {
    if 0 <= i < |nodes| then nodes[i] else null
  }

  /** Always true: mentioning Spot(i) is what makes the verifier look at position i of a list. */
  ghost predicate Spot(i: int) { true }

  ghost function Cut<T>(s: seq<T>, i: nat): seq<T>
    requires i < |s|
  {
    s[..i] + s[i + 1..]
  }

  ghost function First<T>(s: seq<T>, i: nat): seq<T>
    requires i < |s|
  {
    [s[i]] + Cut(s, i)
  }

  /** Where position j of Cut(s, i) comes from. */
  ghost function CutSource(i: int, j: int): int { if j < i then j else j + 1 }

  /** Where position j of First(s, i) comes from. */
  ghost function FirstSource(i: int, j: int): int { if j == 0 then i else if j <= i then j - 1 else j }

  lemma AtCut(nodes: seq<LruNode>, i: nat, j: int)
    requires i < |nodes|
    ensures |Cut(nodes, i)| == |nodes| - 1
    ensures At(Cut(nodes, i), j) == At(nodes, CutSource(i, j))
  {}

  lemma AtFirst(nodes: seq<LruNode>, i: nat, j: int)
    requires i < |nodes|
    ensures |First(nodes, i)| == |nodes|
    ensures At(First(nodes, i), j) == At(nodes, FirstSource(i, j))
  {}

  /** The entries are the keys and values of the nodes. */
  ghost predicate Mirror(nodes: seq<LruNode>, entries: Entries, repr: set<LruNode>)
    reads repr`value
  {
    && |entries| == |nodes|
    && (forall i {:trigger Spot(i)} :: Spot(i) && 0 <= i < |nodes| ==>
          nodes[i] in repr && entries[i] == Entry(nodes[i].key, nodes[i].value))
  }

  lemma MirrorCut(nodes: seq<LruNode>, entries: Entries, repr: set<LruNode>, i: nat)
    requires Mirror(nodes, entries, repr) && i < |nodes|
    ensures Mirror(Cut(nodes, i), Cut(entries, i), repr)
  {
    var cut := Cut(nodes, i);
    forall j | 0 <= j < |cut| ensures cut[j] in repr && Cut(entries, i)[j] == Entry(cut[j].key, cut[j].value) {
      assert Spot(CutSource(i, j)) && cut[j] == nodes[CutSource(i, j)];
    }
  }

  lemma MirrorFirst(nodes: seq<LruNode>, entries: Entries, repr: set<LruNode>, i: nat)
    requires Mirror(nodes, entries, repr) && i < |nodes|
    ensures Mirror(First(nodes, i), First(entries, i), repr)
  {
    var moved := First(nodes, i);
    forall j | 0 <= j < |moved| ensures moved[j] in repr && First(entries, i)[j] == Entry(moved[j].key, moved[j].value) {
      assert Spot(FirstSource(i, j)) && moved[j] == nodes[FirstSource(i, j)];
    }
  }

  lemma MirrorAdded(nodes: seq<LruNode>, entries: Entries, repr: set<LruNode>, added: LruNode)
    requires Mirror(nodes, entries, repr)
    ensures Mirror([added] + nodes, [Entry(added.key, added.value)] + entries, repr + {added})
  {
    var all, allEntries := [added] + nodes, [Entry(added.key, added.value)] + entries;
    forall j | 0 <= j < |all| ensures all[j] in repr + {added} && allEntries[j] == Entry(all[j].key, all[j].value) {
      assert Spot(j - 1);
    }
  }

  /** The index holds exactly the nodes, each under its own key; position says where in the list. */
  ghost predicate IndexOfNodes(nodes: seq<LruNode>, index: map<string, LruNode>, position: map<string, nat>) {
    && index.Keys == position.Keys
    && (forall i {:trigger Spot(i)} :: Spot(i) && 0 <= i < |nodes| ==>
          nodes[i].key in position && position[nodes[i].key] == i && index[nodes[i].key] == nodes[i])
    && (forall k {:trigger position[k]} :: k in position ==> position[k] < |nodes| && nodes[position[k]].key == k)
  }

  ghost predicate Unique(nodes: seq<LruNode>, i: int) {
    0 <= i < |nodes| ==> forall j {:trigger Spot(j)} :: Spot(j) && 0 <= j < |nodes| && j != i ==> nodes[j] != nodes[i]
  }

  lemma IndexedUnique(nodes: seq<LruNode>, index: map<string, LruNode>, position: map<string, nat>, i: int)
    requires IndexOfNodes(nodes, index, position)
    ensures Unique(nodes, i)
  {
    assert Spot(i);
    forall j | 0 <= i < |nodes| && 0 <= j < |nodes| && j != i ensures nodes[j] != nodes[i] {
      assert Spot(j);
    }
  }

  lemma IndexOfCut(nodes: seq<LruNode>, index: map<string, LruNode>, position: map<string, nat>, i: nat)
      returns (position': map<string, nat>)
    requires IndexOfNodes(nodes, index, position) && i < |nodes|
    ensures IndexOfNodes(Cut(nodes, i), index - {nodes[i].key}, position')
  {
    var cut, key := Cut(nodes, i), nodes[i].key;
    assert Spot(i);
    forall k | k in position && k != key ensures position[k] != i {
      assert nodes[position[k]].key == k;
    }
    position' := map k | k in position && k != key :: if position[k] < i then position[k] else (position[k] - 1) as nat;
    forall j | 0 <= j < |cut|
      ensures cut[j].key in position' && position'[cut[j].key] == j && index[cut[j].key] == cut[j]
    {
      assert Spot(CutSource(i, j)) && cut[j] == nodes[CutSource(i, j)];
    }
  }

  lemma IndexOfFirst(nodes: seq<LruNode>, index: map<string, LruNode>, position: map<string, nat>, i: nat)
      returns (position': map<string, nat>)
    requires IndexOfNodes(nodes, index, position) && i < |nodes|
    ensures IndexOfNodes(First(nodes, i), index, position')
  {
    var moved := First(nodes, i);
    position' := map k | k in position ::
      if position[k] == i then 0 else if position[k] < i then position[k] + 1 else position[k];
    forall j | 0 <= j < |moved|
      ensures moved[j].key in position' && position'[moved[j].key] == j && index[moved[j].key] == moved[j]
    {
      assert Spot(FirstSource(i, j)) && moved[j] == nodes[FirstSource(i, j)];
    }
  }

  lemma IndexOfAdded(nodes: seq<LruNode>, index: map<string, LruNode>, position: map<string, nat>, added: LruNode)
      returns (position': map<string, nat>)
    requires IndexOfNodes(nodes, index, position) && added.key !in index
    ensures IndexOfNodes([added] + nodes, index[added.key := added], position')
  {
    var all, index' := [added] + nodes, index[added.key := added];
    position' := (map k | k in position :: position[k] + 1)[added.key := 0];
    forall j | 0 <= j < |all|
      ensures all[j].key in position' && position'[all[j].key] == j && index'[all[j].key] == all[j]
    {
      assert Spot(j - 1);
    }
  }

  lemma HeadBytes(es: Entries)
    requires es != []
    ensures Bytes(es) == es[0].Size() + Bytes(es[1..])
  {
    assert es == [es[0]] + es[1..];
    BytesConcat([es[0]], es[1..]);
  }

  /** What an eviction loop has left of es, whose head it must not reach. */
  ghost predicate Trimmed(es: Entries, now: Entries, room: nat) {
    && 1 <= |now| <= |es|
    && now == es[..|now|]
    && EvictTo(now[1..], room) == EvictTo(es[1..], room)
  }

  lemma EvictLast(es: Entries, less: Entries, room: nat)
    requires Bytes(es) > room
    requires es != [] ==> less == es[..|es| - 1]
    ensures es != [] && EvictTo(es, room) == EvictTo(less, room)
  {}

  lemma SliceShift(now: Entries, less: Entries)
    requires |now| > 1 && less == now[..|now| - 1]
    ensures less[1..] == now[1..][..|now| - 2] && less[0] == now[0]
  {}

  lemma TrimNothing(es: Entries, now: Entries, room: nat)
    requires es == now != []
    ensures Trimmed(es, now, room)
  {
    assert es[..|es|] == es;
  }

  lemma TrimmedSome(es: Entries, now: Entries, room: nat)
    requires Trimmed(es, now, room)
    ensures now != [] && es != [] && now[0] == es[0]
  {}

  lemma NoBytes()
    ensures Bytes([]) == 0
  {}

  lemma TrimStep(es: Entries, now: Entries, less: Entries, room: nat)
    requires Trimmed(es, now, room) && Bytes(now) > es[0].Size() + room
    requires less == now[..|now| - 1]
    ensures |now| > 1 && Trimmed(es, less, room)
  {
    HeadBytes(now);
    assert |now| > 1;
    SliceShift(now, less);
    EvictLast(now[1..], less[1..], room);
  }

  lemma TrimDone(es: Entries, now: Entries, room: nat)
    requires Trimmed(es, now, room) && Bytes(now) <= es[0].Size() + room
    ensures now == [es[0]] + EvictTo(es[1..], room)
  {
    HeadBytes(now);
  }

  lemma WithoutHead(es: Entries)
    requires DistinctKeys(es) && es != []
    ensures Without(es, es[0].key) == es[1..]
    ensures Has(es, es[0].key) && Find(es, es[0].key) == es[0]
    ensures MoveToFront(es, es[0].key) == es
  {
    WithoutAt(es, 0);
    assert es[..0] + es[1..] == es[1..];
    assert [es[0]] + es[1..] == es;
  }

  /** Overwriting the front entry, as the specification has it. */
  lemma HeadPut(cmp: Comparison, c: LruSpec.Cache, key: string, value: string)
    requires DistinctKeys(c.entries) && c.entries != [] && c.entries[0].key == key
    ensures var e := Entry(key, value);
            LruSpec.Put(cmp, c, key, value) ==
              if e.Size() > c.maxSize then Reply(c, Done(false))
              else if cmp.Unsigned? && e.Size() < c.entries[0].Size() then Reply(c, Undefined)
              else Reply(c.(entries := [e] + EvictTo(c.entries[1..], c.maxSize - e.Size())), Done(true))
  {
    hide DistinctKeys; hide Without; hide EvictTo; hide Find; hide Has; hide MoveToFront;
    WithoutHead(c.entries);
  }

  /** An overwrite does not depend on whether its key was moved to the front before. */
  lemma MoveThenPut(cmp: Comparison, c: LruSpec.Cache, key: string, value: string)
    requires DistinctKeys(c.entries) && Has(c.entries, key)
    ensures var moved := c.(entries := MoveToFront(c.entries, key));
            var r, r' := LruSpec.Put(cmp, c, key, value), LruSpec.Put(cmp, moved, key, value);
            r.outcome == r'.outcome && (r.outcome.Done? ==> r == r')
  {
    WithoutHasNot(c.entries, key);
    WithoutBytes(c.entries, key);
    var e := Find(c.entries, key);
    DistinctPrepend(e, Without(c.entries, key), Without(c.entries, key));
    WithoutHead([e] + Without(c.entries, key));
  }

  lemma GetByParts(c: LruSpec.Cache, key: string)
    requires DistinctKeys(c.entries)
    ensures LruSpec.Get(c, key).cache == c.(entries := MoveToFront(c.entries, key))
    ensures LruSpec.Get(c, key).outcome == Done(Has(c.entries, key))
    ensures Has(c.entries, key) ==> MoveToFront(c.entries, key) != [] && MoveToFront(c.entries, key)[0] == Find(c.entries, key)
    ensures Fronted(c.entries, key, MoveToFront(c.entries, key))
  {
    MoveFronts(c.entries, key);
  }

  /** A Put by its guards; of an absent key it is a PutIfAbsent. */
  lemma PutByGuards(cmp: Comparison, c: LruSpec.Cache, key: string, value: string)
    ensures var r := LruSpec.Put(cmp, c, key, value);
            && (r.outcome.Undefined? <==>
                  && cmp.Unsigned? && |key| + |value| <= c.maxSize
                  && Has(c.entries, key) && |value| < |Find(c.entries, key).value|)
            && (r.outcome.Done? ==> (r.outcome.ok <==> |key| + |value| <= c.maxSize))
            && (!Has(c.entries, key) ==> LruSpec.PutIfAbsent(c, key, value).outcome == r.outcome)
            && (!Has(c.entries, key) ==> LruSpec.PutIfAbsent(c, key, value).cache == r.cache)
  {}

  class SimpleLRU {
    const comparison: Comparison
    const maxSize: nat
    var freeSize: nat
    var head: LruNode?
    var tail: LruNode?
    var index: map<string, LruNode>

    /** The nodes from head to tail. */
    ghost var nodes: seq<LruNode>

    /** The abstract value: the pairs the nodes hold, in the same order. */
    ghost var entries: Entries

    /** Where in the list each key is. */
    ghost var position: map<string, nat>

    /** Every node the cache has ever linked. */
    ghost var repr: set<LruNode>

    ghost predicate Linked()
      reads this`head, this`tail, this`nodes, this`repr, repr`next, repr`prev
    {
      && head == At(nodes, 0)
      && tail == At(nodes, |nodes| - 1)
      && Chained(nodes)
    }

    /** Neighbours in the sequence are linked both ways. */
    ghost predicate Chained(ns: seq<LruNode>)
      reads this`repr, repr`next, repr`prev
    {
      forall i {:trigger Spot(i)} :: Spot(i) && 0 <= i < |ns| ==>
        ns[i] in repr && ns[i].next == At(ns, i + 1) && ns[i].prev == At(ns, i - 1)
    }

    ghost function Cache(): LruSpec.Cache
      reads this
    {
      LruSpec.Cache(maxSize, entries)
    }

    /** The list, the index and the abstract value describe the same nodes. */
    ghost predicate Shaped()
      reads this, repr
    {
      && Linked()
      && IndexOfNodes(nodes, index, position)
      && Mirror(nodes, entries, repr)
    }

    ghost predicate Valid()
      reads this, repr
    {
      && maxSize < TWO_64
      && Shaped()
      && freeSize + Bytes(entries) == maxSize
    }

    constructor (maxSize: nat, comparison: Comparison)
      requires maxSize < TWO_64
      ensures Valid() && this.maxSize == maxSize && this.comparison == comparison && entries == [] && repr == {}
    {
      this.comparison, this.maxSize, freeSize := comparison, maxSize, maxSize;
      head, tail, index, nodes, entries := null, null, map[], [], [];
      position, repr := map[], {};
    }

    lemma IndexIsHas(key: string)
      requires Shaped()
      ensures key in index <==> Has(entries, key)
      ensures key in index ==> entries[position[key]].key == key && nodes[position[key]] == index[key]
      ensures DistinctKeys(entries)
    {
      forall i | 0 <= i < |entries| ensures entries[i].key in position && position[entries[i].key] == i {
        assert Spot(i);
      }
      if key in position {
        assert Spot(position[key]);
      }
    }

    lemma TailIsLast()
      requires Shaped()
      ensures tail == null <==> nodes == []
      ensures |nodes| == |entries|
    {
      assert Spot(|nodes| - 1);
    }

    lemma CacheValid()
      requires Valid()
      ensures Cache().Valid()
      ensures freeSize + Bytes(entries) == maxSize
    {
      IndexIsHas("");
    }

    /** The pointers that go from position i to the front change as told, position by position. */
    ghost predicate Respliced(ns: seq<LruNode>, i: nat)
      requires 0 < i < |ns|
      reads this`repr, repr`next, repr`prev
    {
      forall k {:trigger Spot(k)} :: Spot(k) && 0 <= k < |ns| ==>
        && ns[k] in repr
        && ns[k].next == (if k == i then ns[0] else if k == i - 1 then At(ns, i + 1) else At(ns, k + 1))
        && ns[k].prev == (if k == 0 then ns[i] else if k == i then null else if k == i + 1 then ns[i - 1] else At(ns, k - 1))
    }

    /** Relinks the node at position i, not the head, to the front.  Its former neighbour in front always
        has a neighbour of its own by the last test: the head points back to the node that passes it. */
    method Splice(found: LruNode, ghost i: nat)
      requires Linked() && 0 < i < |nodes| && nodes[i] == found
      requires Unique(nodes, i - 1) && Unique(nodes, i) && Unique(nodes, i + 1) && Unique(nodes, 0)
      modifies this`head, this`tail, repr`next, repr`prev
      ensures head == found && tail == if i == |nodes| - 1 then nodes[i - 1] else old(tail)
      ensures Respliced(nodes, i)
    {
      assert Spot(0) && Spot(i - 1) && Spot(i) && Spot(i + 1);
      if found.next != null {
        found.next.prev := found.prev;
      } else {
        tail := found.prev;
      }
      head.prev := found;
      found.prev.next := found.next;
      found.next := head;
      head := found;
      if found.prev.prev == null {
        assert false;
      }
      found.prev := null;
    }

    method LinkFirst(found: LruNode, ghost i: nat)
      requires Linked() && 0 < i < |nodes| && nodes[i] == found
      requires Unique(nodes, i - 1) && Unique(nodes, i) && Unique(nodes, i + 1) && Unique(nodes, 0)
      modifies this`head, this`tail, this`nodes, repr`next, repr`prev
      ensures Linked()
      ensures nodes == First(old(nodes), i)
    {
      assert tail == nodes[|nodes| - 1];
      Splice(found, i);
      ghost var ns := nodes;
      nodes := First(ns, i);
      AtFirst(ns, i, 0);
      AtFirst(ns, i, |ns| - 1);
      FirstChained(ns, i);
    }

    lemma FirstChained(ns: seq<LruNode>, i: nat)
      requires 0 < i < |ns| && Respliced(ns, i)
      ensures Chained(First(ns, i))
    {
      var nodes' := First(ns, i);
      AtFirst(ns, i, 0);
      hide First; hide Cut;
      forall j | 0 <= j < |nodes'|
        ensures nodes'[j] in repr && nodes'[j].next == At(nodes', j + 1) && nodes'[j].prev == At(nodes', j - 1)
      {
        AtFirst(ns, i, j - 1);
        AtFirst(ns, i, j);
        AtFirst(ns, i, j + 1);
        assert Spot(FirstSource(i, j));
      }
    }

    /** Cuts the node at position i out of the list. */
    method Unlink(removed: LruNode, ghost i: nat)
      requires Linked() && i < |nodes| && nodes[i] == removed
      requires Unique(nodes, i - 1) && Unique(nodes, i) && Unique(nodes, i + 1)
      modifies this`head, this`tail, this`nodes, repr`next, repr`prev
      ensures Linked()
      ensures nodes == Cut(old(nodes), i)
    {
      assert Spot(i - 1) && Spot(i) && Spot(i + 1);
      if removed.next != null {
        removed.next.prev := removed.prev;
      } else {
        tail := removed.prev;
      }
      if removed.prev != null {
        removed.prev.next := removed.next;
      } else {
        head := removed.next;
      }
      ghost var ns := nodes;
      nodes := Cut(ns, i);
      forall j | 0 <= j < |nodes|
        ensures nodes[j] in repr && nodes[j].next == At(nodes, j + 1) && nodes[j].prev == At(nodes, j - 1)
      {
        AtCut(ns, i, j - 1);
        AtCut(ns, i, j);
        AtCut(ns, i, j + 1);
        assert Spot(CutSource(i, j));
      }
    }

    /** Links a new node in front of the list. */
    method LinkNew(added: LruNode)
      requires Linked() && added !in repr && added.next == null && added.prev == null
      requires Unique(nodes, 0)
      modifies this`head, this`tail, this`nodes, this`repr, repr`prev, added`next
      ensures Linked()
      ensures nodes == [added] + old(nodes) && repr == old(repr) + {added}
    {
      assert Spot(0) && Spot(|nodes| - 1);
      if head == null {
        head := added;
        tail := head;
      } else {
        head.prev := added;
        added.next := head;
        head := added;
      }
      ghost var ns := nodes;
      nodes := [added] + ns;
      repr := repr + {added};
      forall j | 0 <= j < |nodes|
        ensures nodes[j] in repr && nodes[j].next == At(nodes, j + 1) && nodes[j].prev == At(nodes, j - 1)
      {
        assert Spot(j - 1);
      }
    }

    method MoveNode(found: LruNode, ghost i: nat)
      requires Shaped() && 0 < i < |nodes| && nodes[i] == found
      modifies this`head, this`tail, this`nodes, this`entries, this`position, repr`next, repr`prev
      ensures Shaped()
      ensures nodes == First(old(nodes), i)
      ensures entries == First(old(entries), i)
    {
      hide Linked; hide IndexOfNodes; hide First; hide Cut;
      ghost var ns, es := nodes, entries;
      ghost var position' := IndexOfFirst(ns, index, position, i);
      LinkFirst(found, i) by {
        IndexedUnique(ns, index, position, i - 1);
        IndexedUnique(ns, index, position, i);
        IndexedUnique(ns, index, position, i + 1);
        IndexedUnique(ns, index, position, 0);
      }
      MirrorFirst(ns, es, repr, i);
      position := position';
      entries := First(es, i);
    }

    /** A present key's node comes to the front; nothing else moves. */
    method MoveToHead(key: string) returns (found: LruNode?)
      requires Valid()
      modifies this`head, this`tail, this`nodes, this`entries, this`position, repr`next, repr`prev
      ensures Valid()
      ensures found == null <==> key !in index
      ensures found != null ==> nodes != [] && found == nodes[0] && found.key == key && found in repr
      ensures entries == LruSpec.MoveToFront(old(entries), key)
    {
      IndexIsHas(key);
      if key !in index {
        return null;
      }
      found := index[key];
      ghost var i := position[key];
      assert Spot(0) && Spot(i);
      WithoutAt(entries, i);
      if head.key == key {
        WithoutHead(entries);
        return found;
      }
      BytesCut(entries, i);
      BytesConcat([entries[i]], Cut(entries, i));
      MoveNode(found, i);
    }

    /** Cuts the node at position i out of the list and of the abstract value. */
    method CutNode(removed: LruNode, ghost i: nat)
      requires Shaped() && i < |nodes| && nodes[i] == removed
      modifies this`head, this`tail, this`nodes, this`entries, repr`next, repr`prev
      ensures Linked() && Mirror(nodes, entries, repr)
      ensures nodes == Cut(old(nodes), i)
      ensures entries == Cut(old(entries), i)
    {
      hide Linked; hide IndexOfNodes; hide Cut; hide Unique;
      ghost var ns, es := nodes, entries;
      Unlink(removed, i) by {
        IndexedUnique(ns, index, position, i - 1);
        IndexedUnique(ns, index, position, i);
        IndexedUnique(ns, index, position, i + 1);
      }
      MirrorCut(ns, es, repr, i);
      entries := Cut(es, i);
    }

    lemma EntryOf(i: nat)
      requires Shaped() && i < |nodes|
      ensures |entries| == |nodes| && nodes[i] in repr && entries[i] == Entry(nodes[i].key, nodes[i].value)
    {
      assert Spot(i);
    }

    /** Drops the node at position i from the index, the budget and the list. */
    method RemoveNode(removed: LruNode, ghost i: nat)
      requires Shaped() && i < |nodes| && nodes[i] == removed
      modifies this`freeSize, this`index, this`head, this`tail, this`nodes, this`entries, this`position, repr`next, repr`prev
      ensures Shaped()
      ensures freeSize == old(freeSize) + old(entries)[i].Size()
      ensures nodes == Cut(old(nodes), i)
      ensures entries == Cut(old(entries), i)
    {
      hide Linked; hide IndexOfNodes; hide Mirror; hide Cut;
      EntryOf(i);
      ghost var position' := IndexOfCut(nodes, index, position, i);
      CutNode(removed, i);
      freeSize := freeSize + |removed.key| + |removed.value|;
      index := index - {removed.key};
      position := position';
    }

    method Delete(key: string) returns (deleted: bool)
      requires Valid()
      modifies this`freeSize, this`index, this`head, this`tail, this`nodes, this`entries, this`position, repr`next, repr`prev
      ensures Valid()
      ensures LruSpec.Delete(old(Cache()), key) == Reply(Cache(), Done(deleted))
      ensures forall j :: 0 <= j < |old(entries)| && old(entries)[j].key == key ==>
                            nodes == Cut(old(nodes), j) && entries == Cut(old(entries), j)
      ensures deleted <==> Has(old(entries), key)
      ensures !deleted ==> entries == old(entries)
    {
      IndexIsHas(key);
      if key !in index {
        WithoutAbsent(entries, key);
        return false;
      }
      var removed := index[key];
      ghost var i := position[key];
      WithoutAt(entries, i);
      BytesCut(entries, i);
      RemoveNode(removed, i);
      return true;
    }

    method EvictTail()
      requires Valid() && nodes != []
      modifies this`freeSize, this`index, this`head, this`tail, this`nodes, this`entries, this`position, repr`next, repr`prev
      ensures Valid()
      ensures nodes == old(nodes)[..|old(nodes)| - 1]
      ensures entries == old(entries)[..|old(nodes)| - 1]
    {
      assert Spot(|nodes| - 1);
      var deleted := Delete(tail.key);
    }

    /** Evicts from the tail until size bytes are free. */
    method EvictFor(size: nat)
      requires Valid() && size <= maxSize
      modifies this`freeSize, this`index, this`head, this`tail, this`nodes, this`entries, this`position, repr`next, repr`prev
      ensures Valid() && size <= freeSize
      ensures entries == EvictTo(old(entries), maxSize - size)
    {
      while freeSize < size
        invariant Valid()
        invariant EvictTo(entries, maxSize - size) == EvictTo(old(entries), maxSize - size)
        decreases |nodes|
      {
        assert nodes != [];
        EvictTail();
      }
    }

    /** Puts a new node in front of the list and in the index. */
    method InsertNode(added: LruNode)
      requires Shaped() && added !in repr && added.next == null && added.prev == null && added.key !in index
      modifies this`index, this`head, this`tail, this`nodes, this`entries, this`position, this`repr, repr`prev, added`next
      ensures Shaped() && repr == old(repr) + {added}
      ensures entries == [Entry(added.key, added.value)] + old(entries)
    {
      hide Linked; hide IndexOfNodes; hide Mirror;
      ghost var ns, es := nodes, entries;
      ghost var position' := IndexOfAdded(ns, index, position, added);
      MirrorAdded(ns, es, repr, added);
      LinkNew(added) by {
        IndexedUnique(ns, index, position, 0);
      }
      index := index[added.key := added];
      position := position';
      entries := [Entry(added.key, added.value)] + es;
    }

    method AddNode(key: string, value: string)
      requires Valid() && key !in index && |key| + |value| <= freeSize
      modifies this, repr
      ensures Valid() && fresh(repr - old(repr))
      ensures entries == [Entry(key, value)] + old(entries)
    {
      BytesConcat([Entry(key, value)], entries);
      var added := new LruNode(key, value);
      InsertNode(added);
      freeSize := freeSize - (|key| + |value|);
    }

    method PutInHead(key: string, value: string) returns (stored: bool)
      requires Valid() && key !in index
      modifies this, repr
      ensures Valid() && fresh(repr - old(repr))
      ensures stored <==> |key| + |value| <= maxSize
      ensures !stored ==> entries == old(entries)
      ensures LruSpec.PutIfAbsent(old(Cache()), key, value) == Reply(Cache(), Done(stored))
    {
      hide Linked; hide IndexOfNodes; hide Mirror; hide Bytes; hide Without; hide EvictTo; hide DistinctKeys;
      IndexIsHas(key);
      WithoutAbsent(entries, key);
      if |key| + |value| > maxSize {
        return false;
      }
      ghost var es := entries;
      EvictFor(|key| + |value|);
      IndexIsHas(key);
      AddNode(key, value);
      return true;
    }

    /** How the overwrite loop compares the free bytes with the growth. */
    predicate Below(free: nat, delta: int) {
      match comparison
      case Signed => free < delta
      case Unsigned => free < if delta < 0 then delta + TWO_64 else delta
    }

    /** One turn of that loop, of a list that has lost entries from es already. */
    method EvictOne(ghost ns: seq<LruNode>, ghost es: Entries, ghost room: nat, ghost meant: bool)
      requires Valid() && nodes != [] && nodes <= ns && entries <= es
      requires meant ==> Trimmed(es, entries, room) && Bytes(entries) > es[0].Size() + room
      modifies this`freeSize, this`index, this`head, this`tail, this`nodes, this`entries, this`position, repr`next, repr`prev
      ensures Valid() && |nodes| < |old(nodes)| && nodes <= ns && entries <= es
      ensures meant ==> Trimmed(es, entries, room)
    {
      hide Bytes; hide EvictTo; hide Linked; hide Mirror; hide IndexOfNodes; hide Trimmed; hide Entry.Size;
      ghost var before := entries;
      TailIsLast();
      if meant {
        TrimmedSome(es, entries, room);
      }
      EvictTail();
      if meant {
        TrimStep(es, before, entries, room);
      }
    }

    /** The eviction loop of an overwrite that changes the head's size by delta.  An unsigned loop
        with a negative delta stops only once everything, the head included, is gone. */
    method EvictWhileBelow(delta: int) returns (nullTail: bool)
      requires Valid() && nodes != [] && 0 <= entries[0].Size() + delta <= maxSize
      modifies this`freeSize, this`index, this`head, this`tail, this`nodes, this`entries, this`position, repr`next, repr`prev
      ensures Valid()
      ensures nullTail <==> comparison.Unsigned? && delta < 0 && maxSize < delta + TWO_64
      ensures comparison.Unsigned? && delta < 0 ==> nodes == []
      ensures comparison.Signed? || delta >= 0 ==> !nullTail && nodes != [] && nodes[0] == old(nodes)[0]
      ensures comparison.Signed? || delta >= 0 ==>
                entries == [old(entries)[0]] + EvictTo(old(entries)[1..], maxSize - old(entries)[0].Size() - delta)
      ensures comparison.Signed? || delta >= 0 ==> delta <= freeSize
    {
      ghost var es, room := entries, maxSize - entries[0].Size() - delta;
      ghost var meant := comparison.Signed? || delta >= 0;
      TrimNothing(es, entries, room);
      NoBytes();
      hide Bytes; hide EvictTo; hide Linked; hide Mirror; hide IndexOfNodes; hide Trimmed;
      while Below(freeSize, delta)
        invariant Valid()
        invariant nodes <= old(nodes) && entries <= es
        invariant meant ==> Trimmed(es, entries, room)
        decreases |nodes|
      {
        TailIsLast();
        if meant {
          TrimmedSome(es, entries, room);
        }
        if tail == null {
          return true;
        }
        EvictOne(old(nodes), es, room, meant);
      }
      if meant {
        TrimmedSome(es, entries, room);
        TrimDone(es, entries, room);
      } else if entries != [] {
        HeadBytes(entries);
      }
      TailIsLast();
      return false;
    }

    /** Writes the value of the head, whose size it changes by delta. */
    method WriteHead(it: LruNode, value: string, delta: int)
      requires Valid() && nodes != [] && nodes[0] == it
      requires entries[0].Size() + delta == |it.key| + |value| && delta <= freeSize
      modifies this`freeSize, this`entries, it`value
      ensures Valid()
      ensures entries == [Entry(it.key, value)] + old(entries)[1..]
    {
      IndexedUnique(nodes, index, position, 0);
      HeadBytes(entries);
      freeSize := freeSize - delta;
      it.value := value;
      entries := [Entry(it.key, value)] + entries[1..];
      HeadBytes(entries);
    }

    /** Overwrites the value of the head, evicting while the comparison asks for it. */
    method OverwriteHead(it: LruNode, key: string, value: string) returns (outcome: Outcome)
      requires Valid() && nodes != [] && nodes[0] == it && it.key == key
      modifies this`freeSize, this`index, this`head, this`tail, this`nodes, this`entries, this`position, repr`next, repr`prev, it`value
      ensures LruSpec.Put(comparison, old(Cache()), key, value).outcome == outcome
      ensures outcome.Done? ==> Valid() && LruSpec.Put(comparison, old(Cache()), key, value).cache == Cache()
    {
      IndexIsHas(key);
      assert Spot(0);
      HeadPut(comparison, Cache(), key, value);
      if |key| + |value| > maxSize {
        return Done(false);
      }
      var delta := |key| + |value| - (|it.key| + |it.value|);
      var nullTail := EvictWhileBelow(delta);
      if nullTail {
        return Undefined;
      }
      IndexIsHas(key);
      if key !in index {
        return Undefined;
      }
      assert Spot(0);
      WriteHead(it, value, delta);
      return Done(true);
    }

    method Put(key: string, value: string) returns (outcome: Outcome)
      requires Valid()
      modifies this, repr
      ensures fresh(repr - old(repr))
      ensures LruSpec.Put(comparison, old(Cache()), key, value).outcome == outcome
      ensures outcome.Done? ==> Valid() && LruSpec.Put(comparison, old(Cache()), key, value).cache == Cache()
      ensures outcome.Undefined? <==>
                && comparison.Unsigned? && |key| + |value| <= maxSize
                && Has(old(entries), key) && |value| < |Find(old(entries), key).value|
      ensures outcome.Done? ==> (outcome.ok <==> |key| + |value| <= maxSize)
      ensures outcome == Done(true) ==> StoredInFront(maxSize, old(entries), key, value, entries)
      ensures outcome == Done(false) ==> Fronted(old(entries), key, entries)
    {
      hide Linked; hide IndexOfNodes; hide Mirror; hide StoredInFront; hide Fronted; hide Bytes; hide LruSpec.Put;
      hide LruSpec.PutIfAbsent; hide Has; hide DistinctKeys; hide Entry.Size; hide MoveToFront;
      FrontedAbsent(entries, key);
      PutLeaves(comparison, Cache(), key, value) by { IndexIsHas(key); }
      PutByGuards(comparison, Cache(), key, value);
      IndexIsHas(key);
      if Has(entries, key) {
        MoveThenPut(comparison, Cache(), key, value);
      }
      var it := MoveToHead(key);
      if it == null {
        var stored := PutInHead(key, value);
        return Done(stored);
      }
      outcome := OverwriteHead(it, key, value);
    }

    method PutIfAbsent(key: string, value: string) returns (stored: bool)
      requires Valid()
      modifies this, repr
      ensures Valid() && fresh(repr - old(repr))
      ensures LruSpec.PutIfAbsent(old(Cache()), key, value) == Reply(Cache(), Done(stored))
      ensures stored <==> !Has(old(entries), key) && |key| + |value| <= maxSize
      ensures stored ==> StoredInFront(maxSize, old(entries), key, value, entries)
      ensures !stored ==> entries == old(entries)
    {
      PutLeaves(Signed, Cache(), key, value) by { IndexIsHas(key); }
      hide StoredInFront; hide Fronted;
      IndexIsHas(key);
      if key in index {
        return false;
      }
      stored := PutInHead(key, value);
    }

    method Set(key: string, value: string) returns (outcome: Outcome)
      requires Valid()
      modifies this, repr
      ensures repr == old(repr)
      ensures LruSpec.Set(comparison, old(Cache()), key, value).outcome == outcome
      ensures outcome.Done? ==> Valid() && LruSpec.Set(comparison, old(Cache()), key, value).cache == Cache()
      ensures outcome.Undefined? <==>
                && comparison.Unsigned? && |key| + |value| <= maxSize
                && Has(old(entries), key) && |value| < |Find(old(entries), key).value|
      ensures outcome.Done? ==>
                (outcome.ok <==> Has(old(entries), key) && |key| + |value| <= maxSize)
      ensures outcome == Done(true) ==> StoredInFront(maxSize, old(entries), key, value, entries)
      ensures outcome == Done(false) ==> Fronted(old(entries), key, entries)
    {
      hide Linked; hide IndexOfNodes; hide Mirror; hide StoredInFront; hide Fronted; hide Bytes; hide LruSpec.Put;
      hide Has; hide DistinctKeys; hide Entry.Size;
      FrontedAbsent(entries, key);
      PutLeaves(comparison, Cache(), key, value) by { IndexIsHas(key); }
      PutByGuards(comparison, Cache(), key, value);
      IndexIsHas(key);
      if Has(entries, key) {
        MoveThenPut(comparison, Cache(), key, value);
      }
      var it := MoveToHead(key);
      if it == null {
        return Done(false);
      }
      outcome := OverwriteHead(it, key, value);
    }

    /** The value is returned only when the key is there; otherwise it is what the caller passed. */
    method Get(key: string, value: string) returns (found: bool, value': string)
      requires Valid()
      modifies this, repr
      ensures Valid() && repr == old(repr)
      ensures LruSpec.Get(old(Cache()), key) == Reply(Cache(), Done(found))
      ensures found ==> Entry(key, value') == Find(old(entries), key)
      ensures !found ==> value' == value
      ensures found <==> Has(old(entries), key)
      ensures Fronted(old(entries), key, entries)
    {
      hide Fronted; hide Linked; hide IndexOfNodes; hide Mirror; hide LruSpec.Get; hide MoveToFront; hide Has; hide Find;
      hide DistinctKeys; hide Bytes;
      GetByParts(Cache(), key) by { IndexIsHas(key); }
      IndexIsHas(key);
      var it := MoveToHead(key);
      if it == null {
        return false, value;
      }
      EntryOf(0);
      return true, it.value;
    }
  }
}
