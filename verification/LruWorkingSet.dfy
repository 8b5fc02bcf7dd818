/** The working-set guarantee: an entry survives a run as long as its bytes, and for every distinct key
    touched since the largest size that key had, fit in the budget together. */
module LruWorkingSet {
  import opened LruSpec
  import opened LruLaws

  /** One charge for each key touched: the largest size seen. */
  type Charges = seq<(string, nat)>

  function Total(ch: Charges): nat {
    if ch == [] then 0 else Total(ch[..|ch| - 1]) + ch[|ch| - 1].1
  }

  predicate DistinctCharges(ch: Charges) {
    forall i, j :: 0 <= i < j < |ch| ==> ch[i].0 != ch[j].0
  }

  predicate Covers(ch: Charges, e: Entry) {
    exists k :: 0 <= k < |ch| && ch[k].0 == e.key && e.Size() <= ch[k].1
  }

  function Raise(ch: Charges, key: string, size: nat): Charges {
    if ch == [] then [(key, size)]
    else
      var n := |ch| - 1;
      if ch[n].0 == key then ch[..n] + [(key, if size < ch[n].1 then ch[n].1 else size)]
      else Raise(ch[..n], key, size) + [ch[n]]
  }

  /** An operation touches its key when it leaves the key in the cache, except a refused PutIfAbsent. */
  predicate Touches(cmp: Comparison, c: Cache, op: Op) {
    && Has(Apply(cmp, c, op).cache.entries, op.key)
    && (op.OpPutIfAbsent? ==> !Has(c.entries, op.key))
  }

  function Charge(cmp: Comparison, c: Cache, op: Op, ch: Charges): Charges {
    if Touches(cmp, c, op) then Raise(ch, op.key, Find(Apply(cmp, c, op).cache.entries, op.key).Size()) else ch
  }

  /** What a run has to be charged with. */
  function History(cmp: Comparison, c: Cache, ops: seq<Op>): Charges {
    if ops == [] then []
    else
      var n := |ops| - 1;
      Charge(cmp, Run(cmp, c, ops[..n]).cache, ops[n], History(cmp, c, ops[..n]))
  }

  lemma {:induction false} TotalConcat(a: Charges, b: Charges)
    ensures Total(a + b) == Total(a) + Total(b)
  {
    if b == [] {
      assert a + b == a;
    } else {
      assert (a + b)[..|a + b| - 1] == a + b[..|b| - 1];
      TotalConcat(a, b[..|b| - 1]);
    }
  }

  lemma TotalIsSum(ch: Charges, key: string, size: nat)
    ensures Total([]) == 0
    ensures Total(ch + [(key, size)]) == Total(ch) + size
  {
    assert (ch + [(key, size)])[..|ch|] == ch;
  }

  predicate Charged(ch: Charges, key: string) {
    exists k :: 0 <= k < |ch| && ch[k].0 == key
  }

  lemma {:induction false} RaiseKeys(ch: Charges, key: string, size: nat, k: nat)
    requires k < |Raise(ch, key, size)|
    ensures Raise(ch, key, size)[k].0 == key || Charged(ch, Raise(ch, key, size)[k].0)
  {
    if ch != [] {
      var n := |ch| - 1;
      if k == |Raise(ch, key, size)| - 1 {
        assert ch[n].0 == Raise(ch, key, size)[k].0;
      } else if ch[n].0 == key {
        assert ch[k].0 == Raise(ch, key, size)[k].0;
      } else {
        RaiseKeys(ch[..n], key, size, k);
        if Charged(ch[..n], Raise(ch, key, size)[k].0) {
          var i :| 0 <= i < n && ch[..n][i].0 == Raise(ch, key, size)[k].0;
          assert ch[i].0 == Raise(ch, key, size)[k].0;
        }
      }
    }
  }

  lemma {:induction false} RaiseGrows(ch: Charges, key: string, size: nat)
    requires DistinctCharges(ch)
    ensures DistinctCharges(Raise(ch, key, size))
    ensures Total(ch) <= Total(Raise(ch, key, size))
  {
    if ch != [] {
      var n := |ch| - 1;
      var r := Raise(ch, key, size);
      if ch[n].0 == key {
        assert r[..|r| - 1] == ch[..n];
      } else {
        var r' := Raise(ch[..n], key, size);
        RaiseGrows(ch[..n], key, size);
        assert r[..|r| - 1] == r';
        forall k | 0 <= k < |r'| ensures r'[k].0 != ch[n].0 {
          RaiseKeys(ch[..n], key, size, k);
        }
      }
    }
  }

  lemma {:induction false} RaiseCovers(ch: Charges, key: string, size: nat, e: Entry)
    requires Covers(ch, e) || (e.key == key && e.Size() <= size)
    ensures Covers(Raise(ch, key, size), e)
  {
    var r := Raise(ch, key, size);
    if ch == [] {
      assert r[0] == (key, size);
    } else {
      var n := |ch| - 1;
      if ch[n].0 == e.key && (ch[n].0 == key || e.Size() <= ch[n].1) && (e.Size() <= size || e.Size() <= ch[n].1) {
        assert r[|r| - 1].0 == e.key && e.Size() <= r[|r| - 1].1;
      } else if ch[n].0 == key {
        var k :| 0 <= k < |ch| && ch[k].0 == e.key && e.Size() <= ch[k].1;
        assert r[k] == ch[k];
      } else {
        if Covers(ch, e) {
          var k :| 0 <= k < |ch| && ch[k].0 == e.key && e.Size() <= ch[k].1;
          assert ch[..n][k] == ch[k];
        }
        RaiseCovers(ch[..n], key, size, e);
        LiftCover(Raise(ch[..n], key, size), ch[n], e);
      }
    }
  }

  lemma LiftCover(ch: Charges, last: (string, nat), e: Entry)
    ensures Covers(ch, e) ==> Covers(ch + [last], e)
  {
    if Covers(ch, e) {
      var k :| 0 <= k < |ch| && ch[k].0 == e.key && e.Size() <= ch[k].1;
      assert (ch + [last])[k] == ch[k];
    }
  }

  lemma CutTotal(ch: Charges, k: nat)
    requires k < |ch|
    ensures Total(ch[..k] + ch[k + 1..]) + ch[k].1 == Total(ch)
  {
    hide Total;
    ChargeParts(ch, k);
    TotalOne(ch[k]);
    TotalConcat(ch[..k], [ch[k]] + ch[k + 1..]);
    TotalConcat([ch[k]], ch[k + 1..]);
    TotalConcat(ch[..k], ch[k + 1..]);
  }

  lemma ChargeParts(ch: Charges, k: nat)
    requires k < |ch|
    ensures ch == ch[..k] + ([ch[k]] + ch[k + 1..])
  {}

  lemma TotalOne(charge: (string, nat))
    ensures Total([charge]) == charge.1
  {
    assert [charge][..0] == [];
  }

  lemma CutCovers(ch: Charges, k: nat, e: Entry)
    requires k < |ch| && Covers(ch, e) && e.key != ch[k].0
    ensures Covers(ch[..k] + ch[k + 1..], e)
  {
    var i :| 0 <= i < |ch| && ch[i].0 == e.key && e.Size() <= ch[i].1;
    assert (ch[..k] + ch[k + 1..])[if i < k then i else i - 1] == ch[i];
  }

  /** Distinct entries that are all covered are covered by their total. */
  lemma {:induction false} CoveredFits(front: Entries, ch: Charges)
    requires DistinctKeys(front) && DistinctCharges(ch)
    requires forall j :: 0 <= j < |front| ==> Covers(ch, front[j])
    ensures Bytes(front) <= Total(ch)
  {
    if front != [] {
      var n := |front| - 1;
      assert Covers(ch, front[n]);
      var k :| 0 <= k < |ch| && ch[k].0 == front[n].key && front[n].Size() <= ch[k].1;
      forall j | 0 <= j < n ensures Covers(ch[..k] + ch[k + 1..], front[..n][j]) {
        CutCovers(ch, k, front[j]);
      }
      CoveredFits(front[..n], ch[..k] + ch[k + 1..]);
      CutTotal(ch, k);
    }
  }

  /** Everything in front of x has been charged. */
  ghost predicate ShieldedAt(es: Entries, i: nat, x: Entry, ch: Charges) {
    i < |es| && es[i] == x && forall j :: 0 <= j < i ==> Covers(ch, es[j])
  }

  ghost predicate Shielded(es: Entries, x: Entry, ch: Charges) {
    exists i: nat :: ShieldedAt(es, i, x, ch)
  }

  lemma WithoutShields(es: Entries, key: string, i: nat, x: Entry, ch: Charges) returns (i': nat)
    requires DistinctKeys(es) && ShieldedAt(es, i, x, ch) && x.key != key
    ensures ShieldedAt(Without(es, key), i', x, ch)
  {
    i' := i;
    if Has(es, key) {
      var q := IndexOf(es, key);
      WithoutAt(es, q);
      i' := if q < i then i - 1 else i;
    } else {
      WithoutAbsent(es, key);
    }
  }

  lemma FrontFits(rest: Entries, e: Entry, i: nat, x: Entry, ch: Charges)
    requires DistinctKeys(rest) && !Has(rest, e.key) && DistinctCharges(ch)
    requires ShieldedAt(rest, i, x, ch) && Covers(ch, e)
    ensures e.Size() + Bytes(rest[..i + 1]) <= x.Size() + Total(ch)
  {
    hide Covers; hide Total; hide DistinctCharges;
    var front := [e] + rest[..i];
    assert forall j :: 1 <= j <= i ==> front[j] == rest[j - 1];
    CoveredFits(front, ch);
    BytesConcat([e], rest[..i]);
    BytesOne(e);
    assert rest[..i + 1] == rest[..i] + [rest[i]];
    BytesAreLengths(rest[..i], rest[i]);
  }

  lemma PrefixShields(rest: Entries, kept: Entries, e: Entry, i: nat, x: Entry, ch: Charges)
    requires ShieldedAt(rest, i, x, ch) && Covers(ch, e)
    requires kept <= rest && i < |kept|
    ensures Shielded([e] + kept, x, ch)
  {
    var es := [e] + kept;
    forall j | 0 <= j < i + 1 ensures Covers(ch, es[j]) {
      if j > 0 {
        assert es[j] == rest[j - 1];
      }
    }
    assert ShieldedAt(es, i + 1, x, ch);
  }

  lemma EvictionSparesShielded(rest: Entries, maxSize: nat, e: Entry, i: nat, x: Entry, ch: Charges)
    requires DistinctKeys(rest) && !Has(rest, e.key) && DistinctCharges(ch) && e.Size() <= maxSize
    requires ShieldedAt(rest, i, x, ch) && Covers(ch, e)
    requires x.Size() + Total(ch) <= maxSize
    ensures Shielded([e] + EvictTo(rest, maxSize - e.Size()), x, ch)
  {
    FrontFits(rest, e, i, x, ch);
    EvictKeepsFitting(rest, maxSize - e.Size(), i + 1);
    PrefixShields(rest, EvictTo(rest, maxSize - e.Size()), e, i, x, ch);
  }

  /** Placing an entry in front keeps x while the charges leave room for it. */
  lemma PlaceShields(c: Cache, e: Entry, x: Entry, ch: Charges)
    requires c.Valid() && e.Size() <= c.maxSize && e.key != x.key
    requires Shielded(c.entries, x, ch) && DistinctCharges(ch) && Covers(ch, e)
    requires x.Size() + Total(ch) <= c.maxSize
    ensures Shielded(PlaceFirst(c.maxSize, c.entries, e), x, ch)
  {
    var i: nat :| ShieldedAt(c.entries, i, x, ch);
    var rest := Without(c.entries, e.key);
    var i' := WithoutShields(c.entries, e.key, i, x, ch);
    WithoutBytes(c.entries, e.key);
    WithoutHasNot(c.entries, e.key);
    EvictionSparesShielded(rest, c.maxSize, e, i', x, ch);
  }

  lemma ShieldedStep(cmp: Comparison, c: Cache, op: Op, x: Entry, ch: Charges)
    requires c.Valid() && DistinctCharges(ch) && Shielded(c.entries, x, ch)
    requires op.key == x.key ==> op.OpPutIfAbsent?
    requires Apply(cmp, c, op).outcome.Done?
    requires x.Size() + Total(Charge(cmp, c, op, ch)) <= c.maxSize
    ensures Shielded(Apply(cmp, c, op).cache.entries, x, Charge(cmp, c, op, ch))
    ensures DistinctCharges(Charge(cmp, c, op, ch))
    ensures Total(ch) <= Total(Charge(cmp, c, op, ch))
  {
    var i: nat :| ShieldedAt(c.entries, i, x, ch);
    var after := Apply(cmp, c, op).cache.entries;
    if after == c.entries && !Touches(cmp, c, op) {
    } else if op.OpDelete? {
      WithoutHasNot(c.entries, op.key);
      var i' := WithoutShields(c.entries, op.key, i, x, ch);
    } else {
      var e := PlacedEntry(cmp, c, op);
      var ch' := Raise(ch, op.key, e.Size());
      assert Charge(cmp, c, op, ch) == ch';
      RaiseGrows(ch, op.key, e.Size());
      RaiseCovers(ch, op.key, e.Size(), e);
      forall j | 0 <= j < i ensures Covers(ch', c.entries[j]) {
        RaiseCovers(ch, op.key, e.Size(), c.entries[j]);
      }
      assert ShieldedAt(c.entries, i, x, ch');
      PlaceShields(c, e, x, ch');
    }
  }

  /** Apart from Delete, an operation that changes or touches the list places the key's entry in front. */
  lemma PlacedEntry(cmp: Comparison, c: Cache, op: Op) returns (e: Entry)
    requires c.Valid() && Apply(cmp, c, op).outcome.Done? && !op.OpDelete?
    requires Touches(cmp, c, op) || Apply(cmp, c, op).cache.entries != c.entries
    ensures e.key == op.key && e.Size() <= c.maxSize
    ensures Apply(cmp, c, op).cache.entries == PlaceFirst(c.maxSize, c.entries, e)
    ensures Touches(cmp, c, op) && Find(Apply(cmp, c, op).cache.entries, op.key) == e
  {
    var after := Apply(cmp, c, op).cache.entries;
    if Has(c.entries, op.key) && (op.OpGet? || Entry(op.key, op.value).Size() > c.maxSize) {
      e := Find(c.entries, op.key);
      MoveIsPlace(c, op.key);
    } else {
      e := Entry(op.key, op.value);
    }
    PlaceKeepsValid(c, e);
    assert after[0] == e;
    WithoutAt(after, 0);
  }

  /** The guarantee: an entry just touched, and neither deleted nor rewritten by the run, is still there. */
  lemma {:induction false} WorkingSetKept(cmp: Comparison, c: Cache, ops: seq<Op>, x: Entry)
    requires c.Valid() && c.entries != [] && c.entries[0] == x
    requires forall op :: op in ops && op.key == x.key ==> op.OpPutIfAbsent?
    requires Run(cmp, c, ops).outcome.Done?
    requires x.Size() + Total(History(cmp, c, ops)) <= c.maxSize
    ensures x in Run(cmp, c, ops).cache.entries
    ensures DistinctCharges(History(cmp, c, ops))
  {
    HistoryShields(cmp, c, ops, x);
  }

  lemma {:induction false} HistoryShields(cmp: Comparison, c: Cache, ops: seq<Op>, x: Entry)
    requires c.Valid() && c.entries != [] && c.entries[0] == x
    requires forall op :: op in ops && op.key == x.key ==> op.OpPutIfAbsent?
    requires Run(cmp, c, ops).outcome.Done?
    requires x.Size() + Total(History(cmp, c, ops)) <= c.maxSize
    ensures Shielded(Run(cmp, c, ops).cache.entries, x, History(cmp, c, ops))
    ensures DistinctCharges(History(cmp, c, ops))
  {
    if ops == [] {
      assert ShieldedAt(c.entries, 0, x, []);
    } else {
      var n := |ops| - 1;
      HistoryDistinct(cmp, c, ops[..n]);
      ChargeGrows(cmp, Run(cmp, c, ops[..n]).cache, ops[n], History(cmp, c, ops[..n]));
      HistoryShields(cmp, c, ops[..n], x);
      RunKeepsValid(cmp, c, ops[..n]);
      ShieldedStep(cmp, Run(cmp, c, ops[..n]).cache, ops[n], x, History(cmp, c, ops[..n]));
    }
  }

  lemma ChargeGrows(cmp: Comparison, c: Cache, op: Op, ch: Charges)
    requires DistinctCharges(ch)
    ensures DistinctCharges(Charge(cmp, c, op, ch))
    ensures Total(ch) <= Total(Charge(cmp, c, op, ch))
  {
    if Touches(cmp, c, op) {
      RaiseGrows(ch, op.key, Find(Apply(cmp, c, op).cache.entries, op.key).Size());
    }
  }

  lemma {:induction false} HistoryDistinct(cmp: Comparison, c: Cache, ops: seq<Op>)
    ensures DistinctCharges(History(cmp, c, ops))
  {
    if ops != [] {
      HistoryDistinct(cmp, c, ops[..|ops| - 1]);
      ChargeGrows(cmp, Run(cmp, c, ops[..|ops| - 1]).cache, ops[|ops| - 1], History(cmp, c, ops[..|ops| - 1]));
    }
  }

  /** The key has a charge of at least that size. */
  predicate Bounds(bound: Charges, key: string, size: nat) {
    exists k :: 0 <= k < |bound| && bound[k].0 == key && size <= bound[k].1
  }

  ghost predicate AllWithin(ch: Charges, bound: Charges) {
    forall k :: 0 <= k < |ch| ==> Bounds(bound, ch[k].0, ch[k].1)
  }

  lemma CutBounds(bound: Charges, k: nat, key: string, size: nat)
    requires k < |bound| && Bounds(bound, key, size) && key != bound[k].0
    ensures Bounds(bound[..k] + bound[k + 1..], key, size)
  {
    var i :| 0 <= i < |bound| && bound[i].0 == key && size <= bound[i].1;
    assert (bound[..k] + bound[k + 1..])[if i < k then i else i - 1] == bound[i];
  }

  lemma BoundAt(bound: Charges, key: string, size: nat) returns (k: nat)
    requires Bounds(bound, key, size)
    ensures k < |bound| && bound[k].0 == key && size <= bound[k].1
  {
    k :| 0 <= k < |bound| && bound[k].0 == key && size <= bound[k].1;
  }

  lemma {:induction false} WithinTotal(ch: Charges, bound: Charges)
    requires DistinctCharges(ch) && DistinctCharges(bound) && AllWithin(ch, bound)
    ensures Total(ch) <= Total(bound)
  {
    hide Bounds;
    if ch != [] {
      var n := |ch| - 1;
      assert Bounds(bound, ch[n].0, ch[n].1);
      var k := BoundAt(bound, ch[n].0, ch[n].1);
      forall j | 0 <= j < n ensures Bounds(bound[..k] + bound[k + 1..], ch[..n][j].0, ch[..n][j].1) {
        assert Bounds(bound, ch[j].0, ch[j].1);
        CutBounds(bound, k, ch[j].0, ch[j].1);
      }
      WithinTotal(ch[..n], bound[..k] + bound[k + 1..]);
      CutTotal(bound, k);
    }
  }

  lemma {:induction false} RaiseWithin(ch: Charges, key: string, size: nat, bound: Charges)
    requires AllWithin(ch, bound) && Bounds(bound, key, size)
    ensures AllWithin(Raise(ch, key, size), bound)
  {
    if ch != [] {
      var n := |ch| - 1;
      assert Bounds(bound, ch[n].0, ch[n].1);
      if ch[n].0 != key {
        RaiseWithin(ch[..n], key, size, bound);
      }
    }
  }

  /** Every entry other than x that an operation finds or leaves under its key is within the bounds. */
  ghost predicate RunWithin(cmp: Comparison, c: Cache, ops: seq<Op>, x: Entry, bound: Charges) {
    forall i, e {:trigger e in Run(cmp, c, ops[..i + 1]).cache.entries} ::
      0 <= i < |ops| && e in Run(cmp, c, ops[..i + 1]).cache.entries && e.key == ops[i].key && e != x ==>
        Bounds(bound, e.key, e.Size())
  }

  /** The guarantee by bounds of one's own: an entry just touched stays as long as it fits together with the largest
      sizes that the other keys in use may have, one for each key. */
  lemma KeptWithin(cmp: Comparison, c: Cache, ops: seq<Op>, x: Entry, bound: Charges)
    requires c.Valid() && c.entries != [] && c.entries[0] == x
    requires forall op :: op in ops && op.key == x.key ==> op.OpPutIfAbsent?
    requires Run(cmp, c, ops).outcome.Done? && DistinctCharges(bound) && RunWithin(cmp, c, ops, x, bound)
    requires x.Size() + Total(bound) <= c.maxSize
    ensures x in Run(cmp, c, ops).cache.entries
  {
    HistoryWithin(cmp, c, ops, x, bound);
    HistoryDistinct(cmp, c, ops);
    WithinTotal(History(cmp, c, ops), bound);
    WorkingSetKept(cmp, c, ops, x);
  }

  lemma {:induction false} HistoryWithin(cmp: Comparison, c: Cache, ops: seq<Op>, x: Entry, bound: Charges)
    requires c.Valid() && c.entries != [] && c.entries[0] == x
    requires forall op :: op in ops && op.key == x.key ==> op.OpPutIfAbsent?
    requires Run(cmp, c, ops).outcome.Done? && DistinctCharges(bound) && RunWithin(cmp, c, ops, x, bound)
    requires x.Size() + Total(bound) <= c.maxSize
    ensures AllWithin(History(cmp, c, ops), bound)
  {
    if ops != [] {
      var n := |ops| - 1;
      var d, ch := Run(cmp, c, ops[..n]).cache, History(cmp, c, ops[..n]);
      RunWithinFront(cmp, c, ops, x, bound);
      HistoryWithin(cmp, c, ops[..n], x, bound);
      HistoryDistinct(cmp, c, ops[..n]);
      WithinTotal(ch, bound);
      WorkingSetKept(cmp, c, ops[..n], x);
      if Touches(cmp, d, ops[n]) {
        var e := Find(Apply(cmp, d, ops[n]).cache.entries, ops[n].key);
        assert ops[..n + 1] == ops && Run(cmp, c, ops).cache == Apply(cmp, d, ops[n]).cache;
        assert e != x;
        RaiseWithin(ch, ops[n].key, e.Size(), bound);
      }
    }
  }

  lemma RunWithinFront(cmp: Comparison, c: Cache, ops: seq<Op>, x: Entry, bound: Charges)
    requires ops != [] && RunWithin(cmp, c, ops, x, bound)
    ensures RunWithin(cmp, c, ops[..|ops| - 1], x, bound)
  {
    hide Run; hide Bounds;
    var front := ops[..|ops| - 1];
    forall i, e | 0 <= i < |front| && e in Run(cmp, c, front[..i + 1]).cache.entries && e.key == front[i].key && e != x
      ensures Bounds(bound, e.key, e.Size())
    {
      assert front[..i + 1] == ops[..i + 1];
    }
  }
}
