/** Laws of the recency list: what one operation does, and what every run keeps. */
module LruLaws {
  import opened LruSpec

  lemma {:induction false} WithoutAbsent(es: Entries, key: string)
    requires !Has(es, key)
    ensures Without(es, key) == es
  {
    if es != [] {
      var n := |es| - 1;
      assert es == es[..n] + [es[n]];
      assert !Has(es[..n], key);
      WithoutAbsent(es[..n], key);
    }
  }

  lemma {:induction false} WithoutMembers(es: Entries, key: string, e: Entry)
    ensures e in Without(es, key) <==> e in es && e.key != key
  {
    if es != [] {
      var n := |es| - 1;
      assert es == es[..n] + [es[n]];
      WithoutMembers(es[..n], key, e);
    }
  }

  lemma WithoutHasNot(es: Entries, key: string)
    ensures !Has(Without(es, key), key)
  {
    forall e | e in Without(es, key) ensures e.key != key {
      WithoutMembers(es, key, e);
    }
  }

  /** What is evicted is the shortest suffix that makes room: any prefix that fits is kept. */
  lemma {:induction false} EvictKeepsFitting(es: Entries, room: nat, n: nat)
    requires n <= |es| && Bytes(es[..n]) <= room
    ensures n <= |EvictTo(es, room)|
  {
    if n == |es| {
      assert es[..n] == es;
    } else if Bytes(es) > room {
      assert es[..|es| - 1][..n] == es[..n];
      EvictKeepsFitting(es[..|es| - 1], room, n);
    }
  }

  /** Taking a key out cuts out its one entry. */
  lemma {:induction false} WithoutAt(es: Entries, i: nat)
    requires DistinctKeys(es) && i < |es|
    ensures Without(es, es[i].key) == es[..i] + es[i + 1..]
    ensures Find(es, es[i].key) == es[i]
  {
    hide DistinctKeys; hide Has;
    var n := |es| - 1;
    DistinctFront(es, i);
    if i == n {
      WithoutAbsent(es[..n], es[i].key);
      assert es[..i] + es[i + 1..] == es[..n];
    } else {
      WithoutAt(es[..n], i);
      assert es[..n][..i] == es[..i];
      assert es[i + 1..] == es[..n][i + 1..] + [es[n]];
    }
  }

  lemma DistinctFront(es: Entries, i: nat)
    requires DistinctKeys(es) && i < |es|
    ensures var n := |es| - 1;
            && Has(es, es[i].key) && DistinctKeys(es[..n]) && !Has(es[..n], es[n].key)
            && (i < n ==> Has(es[..n], es[i].key) && es[i].key != es[n].key)
  {
    var n := |es| - 1;
    assert i < n ==> es[..n][i] == es[i];
  }

  lemma {:induction false} BytesConcat(a: Entries, b: Entries)
    ensures Bytes(a + b) == Bytes(a) + Bytes(b)
  {
    if b == [] {
      assert a + b == a;
    } else {
      var n := |b| - 1;
      assert (a + b)[..|a + b| - 1] == a + b[..n];
      BytesConcat(a, b[..n]);
    }
  }

  lemma BytesOne(e: Entry)
    ensures Bytes([e]) == e.Size()
  {}

  lemma BytesCut(es: Entries, i: nat)
    requires i < |es|
    ensures Bytes(es[..i] + es[i + 1..]) + es[i].Size() == Bytes(es)
    ensures Bytes(es[..i]) + es[i].Size() <= Bytes(es)
  {
    BytesOne(es[i]);
    Parts(es, i);
    BytesOfParts(es[..i], [es[i]], es[i + 1..]);
  }

  lemma Parts(es: Entries, i: nat)
    requires i < |es|
    ensures es == es[..i] + ([es[i]] + es[i + 1..])
  {}

  lemma BytesOfParts(before: Entries, at: Entries, behind: Entries)
    ensures Bytes(before + (at + behind)) == Bytes(before) + Bytes(at) + Bytes(behind)
    ensures Bytes(before + behind) == Bytes(before) + Bytes(behind)
  {
    BytesConcat(before, at + behind);
    BytesConcat(at, behind);
    BytesConcat(before, behind);
  }

  ghost function IndexOf(es: Entries, key: string): (i: nat)
    requires Has(es, key)
    ensures i < |es| && es[i].key == key
  {
    var i :| 0 <= i < |es| && es[i].key == key;
    i
  }

  /** The bytes of a key, and only those, leave with it. */
  lemma WithoutBytes(es: Entries, key: string)
    requires DistinctKeys(es)
    ensures DistinctKeys(Without(es, key))
    ensures Bytes(Without(es, key)) + (if Has(es, key) then Find(es, key).Size() else 0) == Bytes(es)
  {
    if Has(es, key) {
      var i := IndexOf(es, key);
      WithoutAt(es, i);
      BytesCut(es, i);
    } else {
      WithoutAbsent(es, key);
    }
  }

  /** A moved entry takes no more room than before, so moving is placing without eviction. */
  lemma MoveIsPlace(c: Cache, key: string)
    requires c.Valid() && Has(c.entries, key)
    ensures Find(c.entries, key).Size() <= c.maxSize
    ensures MoveToFront(c.entries, key) == PlaceFirst(c.maxSize, c.entries, Find(c.entries, key))
  {
    WithoutBytes(c.entries, key);
  }

  lemma DistinctPrepend(e: Entry, es: Entries, kept: Entries)
    requires DistinctKeys(es) && !Has(es, e.key) && kept <= es
    ensures DistinctKeys([e] + kept)
  {
    forall i, j | 0 <= i < j < |[e] + kept| ensures ([e] + kept)[i].key != ([e] + kept)[j].key {
      assert ([e] + kept)[j] == es[j - 1];
    }
  }

  lemma PlaceKeepsValid(c: Cache, e: Entry)
    requires c.Valid() && e.Size() <= c.maxSize
    ensures c.(entries := PlaceFirst(c.maxSize, c.entries, e)).Valid()
  {
    WithoutBytes(c.entries, e.key);
    WithoutHasNot(c.entries, e.key);
    var rest := EvictTo(Without(c.entries, e.key), c.maxSize - e.Size());
    assert Bytes([e] + rest) == e.Size() + Bytes(rest) by {
      BytesConcat([e], rest);
    }
    DistinctPrepend(e, Without(c.entries, e.key), rest);
  }

  /** The steps of a run are the operations of the cache. */
  lemma StepsAreOperations(cmp: Comparison, c: Cache, ops: seq<Op>, key: string, value: string)
    requires Run(cmp, c, ops).outcome.Done?
    ensures var d := Run(cmp, c, ops).cache;
            && Run(cmp, c, ops + [OpPut(key, value)]) == Put(cmp, d, key, value)
            && Run(cmp, c, ops + [OpPutIfAbsent(key, value)]) == PutIfAbsent(d, key, value)
            && Run(cmp, c, ops + [OpSet(key, value)]) == Set(cmp, d, key, value)
            && Run(cmp, c, ops + [OpDelete(key)]) == Delete(d, key)
            && Run(cmp, c, ops + [OpGet(key)]) == Get(d, key)
  {
    hide Run; hide Put; hide PutIfAbsent; hide Set; hide Delete; hide Get;
    RunNext(cmp, c, ops, OpPut(key, value));
    RunNext(cmp, c, ops, OpPutIfAbsent(key, value));
    RunNext(cmp, c, ops, OpSet(key, value));
    RunNext(cmp, c, ops, OpDelete(key));
    RunNext(cmp, c, ops, OpGet(key));
  }

  lemma RunNext(cmp: Comparison, c: Cache, ops: seq<Op>, op: Op)
    requires Run(cmp, c, ops).outcome.Done?
    ensures Run(cmp, c, ops + [op]) == Apply(cmp, Run(cmp, c, ops).cache, op)
  {
    hide Apply;
    assert (ops + [op])[..|ops|] == ops;
  }

  /** Every operation keeps the keys distinct and the bytes within the budget. */
  lemma ApplyKeepsValid(cmp: Comparison, c: Cache, op: Op)
    requires c.Valid()
    ensures Apply(cmp, c, op).cache.Valid()
    ensures Apply(cmp, c, op).cache.maxSize == c.maxSize
  {
    WithoutBytes(c.entries, op.key);
    if Has(c.entries, op.key) {
      MoveIsPlace(c, op.key);
      PlaceKeepsValid(c, Find(c.entries, op.key));
    }
    if (op.OpPut? || op.OpPutIfAbsent? || op.OpSet?) && Entry(op.key, op.value).Size() <= c.maxSize {
      PlaceKeepsValid(c, Entry(op.key, op.value));
    }
  }

  lemma {:induction false} RunKeepsValid(cmp: Comparison, c: Cache, ops: seq<Op>)
    requires c.Valid()
    ensures Run(cmp, c, ops).cache.Valid()
    ensures Run(cmp, c, ops).cache.maxSize == c.maxSize
  {
    if ops != [] {
      var r := Run(cmp, c, ops[..|ops| - 1]);
      RunKeepsValid(cmp, c, ops[..|ops| - 1]);
      ApplyKeepsValid(cmp, r.cache, ops[|ops| - 1]);
    }
  }

  /** A run is shrink free when no Put or Set in it stores fewer bytes over a present key than are there. */
  ghost predicate ShrinkFree(c: Cache, ops: seq<Op>) {
    ops != [] ==>
      && ShrinkFree(c, ops[..|ops| - 1])
      && !ShrinksAt(Run(Signed, c, ops[..|ops| - 1]).cache, ops[|ops| - 1])
  }

  ghost predicate ShrinksAt(c: Cache, op: Op) {
    (op.OpPut? || op.OpSet?) && Shrinks(c, Entry(op.key, op.value))
  }

  /** The comparison as compiled goes wrong on shrinking overwrites and on nothing else; until the
      first of them it cannot be told from the comparison as meant. */
  lemma {:induction false} UnsignedRunsUntilShrink(c: Cache, ops: seq<Op>)
    ensures Run(Signed, c, ops).outcome.Done?
    ensures ShrinkFree(c, ops) ==> Run(Unsigned, c, ops) == Run(Signed, c, ops)
    ensures !ShrinkFree(c, ops) ==> Run(Unsigned, c, ops).outcome.Undefined?
  {
    if ops != [] {
      UnsignedRunsUntilShrink(c, ops[..|ops| - 1]);
    }
  }

  /** An operation on one key leaves every other entry as it is, or evicts it; only storing evicts. */
  lemma OtherEntriesKept(cmp: Comparison, c: Cache, op: Op, e: Entry)
    requires e.key != op.key
    ensures e in Apply(cmp, c, op).cache.entries ==> e in c.entries
    ensures op.OpGet? || op.OpDelete? ==> (e in Apply(cmp, c, op).cache.entries <==> e in c.entries)
  {
    WithoutMembers(c.entries, op.key, e);
    assert e in MoveToFront(c.entries, op.key) <==> e in c.entries;
    if !(op.OpGet? || op.OpDelete?) && Entry(op.key, op.value).Size() <= c.maxSize {
      var e' := Entry(op.key, op.value);
      var rest := EvictTo(Without(c.entries, op.key), c.maxSize - e'.Size());
      assert e in [e'] + rest ==> e in rest;
      assert rest <= Without(c.entries, op.key);
    }
  }

  /** A stored value is what the next Get of the key answers, and a deleted key has none. */
  lemma StoreThenGet(cmp: Comparison, c: Cache, key: string, value: string)
    requires c.Valid() && Put(cmp, c, key, value).outcome == Done(true)
    ensures Get(Put(cmp, c, key, value).cache, key).outcome == Done(true)
    ensures Find(Put(cmp, c, key, value).cache.entries, key) == Entry(key, value)
    ensures !Has(Delete(c, key).cache.entries, key)
  {
    var e := Entry(key, value);
    PlaceKeepsValid(c, e);
    WithoutHasNot(c.entries, key);
    var es := PlaceFirst(c.maxSize, c.entries, e);
    assert es[0] == e;
    WithoutAt(es, 0);
  }

  /** The bytes of a list are the lengths of its keys and values. */
  lemma BytesAreLengths(es: Entries, e: Entry)
    ensures Bytes([]) == 0
    ensures Bytes(es + [e]) == Bytes(es) + |e.key| + |e.value|
  {
    assert (es + [e])[..|es|] == es;
  }

  /** kept is the longest beginning of es that takes no more than room bytes. */
  ghost predicate LongestFit(es: Entries, room: int, kept: Entries) {
    && kept <= es
    && Bytes(kept) <= room
    && (forall n :: |kept| < n <= |es| ==> Bytes(es[..n]) > room)
  }

  lemma EvictLeavesLongest(es: Entries, room: nat)
    ensures LongestFit(es, room, EvictTo(es, room))
  {
    forall n | |EvictTo(es, room)| < n <= |es| ensures Bytes(es[..n]) > room {
      if Bytes(es[..n]) <= room {
        EvictKeepsFitting(es, room, n);
      }
    }
  }

  /** now is es with the entry of the key, if there is one, put in front. */
  ghost predicate Fronted(es: Entries, key: string, now: Entries) {
    && (forall i :: 0 <= i < |es| && es[i].key == key ==> now == [es[i]] + es[..i] + es[i + 1..])
    && ((forall i :: 0 <= i < |es| ==> es[i].key != key) ==> now == es)
  }

  /** now is the new entry in front of those of the other keys, in their order, that still fit behind it. */
  ghost predicate StoredInFront(maxSize: nat, es: Entries, key: string, value: string, now: Entries) {
    && now != [] && now[0] == Entry(key, value)
    && (forall i :: 0 <= i < |es| && es[i].key == key ==>
          LongestFit(es[..i] + es[i + 1..], maxSize - |key| - |value|, now[1..]))
    && ((forall i :: 0 <= i < |es| ==> es[i].key != key) ==> LongestFit(es, maxSize - |key| - |value|, now[1..]))
  }

  lemma MoveFronts(es: Entries, key: string)
    requires DistinctKeys(es)
    ensures Fronted(es, key, MoveToFront(es, key))
  {
    hide DistinctKeys; hide MoveToFront;
    forall i | 0 <= i < |es| && es[i].key == key ensures MoveToFront(es, key) == [es[i]] + es[..i] + es[i + 1..] {
      MoveFromAt(es, i);
    }
    MoveAbsent(es, key);
  }

  lemma MoveFromAt(es: Entries, i: nat)
    requires DistinctKeys(es) && i < |es|
    ensures MoveToFront(es, es[i].key) == [es[i]] + es[..i] + es[i + 1..]
  {
    hide DistinctKeys;
    WithoutAt(es, i);
    assert Has(es, es[i].key);
    assert [es[i]] + (es[..i] + es[i + 1..]) == [es[i]] + es[..i] + es[i + 1..];
  }

  lemma MoveAbsent(es: Entries, key: string)
    ensures (forall i :: 0 <= i < |es| ==> es[i].key != key) ==> MoveToFront(es, key) == es
  {}

  lemma PlaceStores(maxSize: nat, es: Entries, key: string, value: string)
    requires DistinctKeys(es) && |key| + |value| <= maxSize
    ensures StoredInFront(maxSize, es, key, value, PlaceFirst(maxSize, es, Entry(key, value)))
  {
    hide LongestFit; hide EvictTo; hide Has;
    var e, room := Entry(key, value), maxSize - |key| - |value|;
    assert PlaceFirst(maxSize, es, e) == [e] + EvictTo(Without(es, key), room);
    assert PlaceFirst(maxSize, es, e)[1..] == EvictTo(Without(es, key), room);
    EvictLeavesLongest(Without(es, key), room);
    forall i | 0 <= i < |es| && es[i].key == key ensures Without(es, key) == es[..i] + es[i + 1..] {
      WithoutAt(es, i);
    }
    if forall i :: 0 <= i < |es| ==> es[i].key != key {
      NotThere(es, key);
    }
  }

  lemma FrontedAbsent(es: Entries, key: string)
    ensures !Has(es, key) ==> Fronted(es, key, es) && MoveToFront(es, key) == es
  {}

  lemma NotThere(es: Entries, key: string)
    requires forall i :: 0 <= i < |es| ==> es[i].key != key
    ensures !Has(es, key) && Without(es, key) == es
  {
    WithoutAbsent(es, key);
  }

  /** What a Put leaves when it stores and when it refuses. */
  lemma PutLeaves(cmp: Comparison, c: Cache, key: string, value: string)
    requires DistinctKeys(c.entries)
    ensures var r := Put(cmp, c, key, value);
            && (r.outcome == Done(true) ==> StoredInFront(c.maxSize, c.entries, key, value, r.cache.entries))
            && (r.outcome == Done(false) ==> Fronted(c.entries, key, r.cache.entries))
  {
    hide Shrinks; hide StoredInFront; hide Fronted; hide MoveToFront; hide PlaceFirst;
    MoveFronts(c.entries, key);
    if |key| + |value| <= c.maxSize {
      PlaceStores(c.maxSize, c.entries, key, value);
    }
  }

  /** A Put is refused exactly if key and value do not fit the budget at all; as compiled it is undefined exactly
      if they fit and the value is shorter than the one there. */
  lemma PutTells(cmp: Comparison, c: Cache, key: string, value: string)
    requires c.Valid()
    ensures var r := Put(cmp, c, key, value);
            && (r.outcome.Undefined? <==>
                  && cmp.Unsigned? && |key| + |value| <= c.maxSize
                  && exists i :: 0 <= i < |c.entries| && c.entries[i].key == key && |value| < |c.entries[i].value|)
            && (r.outcome.Done? ==> (r.outcome.ok <==> |key| + |value| <= c.maxSize))
            && (r.outcome == Done(true) ==> StoredInFront(c.maxSize, c.entries, key, value, r.cache.entries))
            && (r.outcome == Done(false) ==> Fronted(c.entries, key, r.cache.entries))
            && r.cache.maxSize == c.maxSize
  {
    hide Shrinks; hide StoredInFront; hide Fronted; hide MoveToFront; hide PlaceFirst;
    ShrinksMeans(c, key, value);
    PutLeaves(cmp, c, key, value);
  }

  lemma PutOutcome(cmp: Comparison, c: Cache, key: string, value: string)
    ensures var r := Put(cmp, c, key, value); r.outcome.Done? ==> (r.outcome.ok <==> |key| + |value| <= c.maxSize)
  {}

  lemma ShrinksMeans(c: Cache, key: string, value: string)
    requires DistinctKeys(c.entries)
    ensures Shrinks(c, Entry(key, value)) <==>
              && |key| + |value| <= c.maxSize
              && exists i :: 0 <= i < |c.entries| && c.entries[i].key == key && |value| < |c.entries[i].value|
  {
    if Has(c.entries, key) {
      var i := IndexOf(c.entries, key);
      WithoutAt(c.entries, i);
    }
  }

  /** PutIfAbsent stores exactly if no entry has the key and the new one fits; otherwise nothing changes. */
  lemma PutIfAbsentTells(c: Cache, key: string, value: string)
    requires c.Valid()
    ensures var r := PutIfAbsent(c, key, value);
            && r.outcome.Done?
            && (r.outcome.ok <==>
                  (forall i :: 0 <= i < |c.entries| ==> c.entries[i].key != key) && |key| + |value| <= c.maxSize)
            && (r.outcome.ok ==> StoredInFront(c.maxSize, c.entries, key, value, r.cache.entries))
            && (!r.outcome.ok ==> r.cache == c)
            && r.cache.maxSize == c.maxSize
  {
    PutTells(Signed, c, key, value);
    hide StoredInFront; hide Put;
    if !Has(c.entries, key) {
      WithoutAbsent(c.entries, key);
      assert Put(Signed, c, key, value).outcome == Done(false) ==> Put(Signed, c, key, value).cache.entries == c.entries;
    }
  }

  /** Set reports false for an absent key and changes nothing; for a present one it is a Put. */
  lemma SetTells(cmp: Comparison, c: Cache, key: string, value: string)
    requires c.Valid()
    ensures var r := Set(cmp, c, key, value);
            && (r.outcome.Undefined? <==>
                  && cmp.Unsigned? && |key| + |value| <= c.maxSize
                  && exists i :: 0 <= i < |c.entries| && c.entries[i].key == key && |value| < |c.entries[i].value|)
            && (r.outcome.Done? ==>
                  (r.outcome.ok <==>
                     (exists i :: 0 <= i < |c.entries| && c.entries[i].key == key) && |key| + |value| <= c.maxSize))
            && (r.outcome == Done(true) ==> StoredInFront(c.maxSize, c.entries, key, value, r.cache.entries))
            && (r.outcome == Done(false) ==> Fronted(c.entries, key, r.cache.entries))
            && r.cache.maxSize == c.maxSize
  {
    PutTells(cmp, c, key, value);
    hide StoredInFront; hide Put;
  }

  /** Delete reports whether the key was there, and cuts its one entry out. */
  lemma DeleteTells(c: Cache, key: string)
    requires c.Valid()
    ensures var r := Delete(c, key);
            && r.outcome.Done?
            && (r.outcome.ok <==> exists i :: 0 <= i < |c.entries| && c.entries[i].key == key)
            && (forall i :: 0 <= i < |c.entries| && c.entries[i].key == key ==>
                  r.cache.entries == c.entries[..i] + c.entries[i + 1..])
            && (!r.outcome.ok ==> r.cache == c)
            && r.cache.maxSize == c.maxSize
  {
    forall i | 0 <= i < |c.entries| && c.entries[i].key == key
      ensures Without(c.entries, key) == c.entries[..i] + c.entries[i + 1..]
    {
      WithoutAt(c.entries, i);
    }
    if !Has(c.entries, key) {
      WithoutAbsent(c.entries, key);
    }
  }

  /** Get reports whether the key is there, and fronts its entry. */
  lemma GetTells(c: Cache, key: string)
    requires c.Valid()
    ensures var r := Get(c, key);
            && r.outcome.Done?
            && (r.outcome.ok <==> exists i :: 0 <= i < |c.entries| && c.entries[i].key == key)
            && (forall i :: 0 <= i < |c.entries| && c.entries[i].key == key ==> Find(c.entries, key) == c.entries[i])
            && Fronted(c.entries, key, r.cache.entries)
            && r.cache.maxSize == c.maxSize
  {
    MoveFronts(c.entries, key);
    forall i | 0 <= i < |c.entries| && c.entries[i].key == key ensures Find(c.entries, key) == c.entries[i] {
      WithoutAt(c.entries, i);
    }
  }
}
