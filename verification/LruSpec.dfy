/** The cache as a pure recency list, most recently used entry first, under a byte budget. */
module LruSpec {
  const TWO_64: nat := 0x1_0000_0000_0000_0000

  datatype Entry = Entry(key: string, value: string) {
    function Size(): nat { |key| + |value| }
  }

  type Entries = seq<Entry>

  datatype Cache = Cache(maxSize: nat, entries: Entries) {
    ghost predicate Valid() {
      && maxSize < TWO_64
      && Bytes(entries) <= maxSize
      && DistinctKeys(entries)
    }
  }

  /** The type in which the loop of an overwrite compares the free bytes with the growth: Unsigned is
      how C++ reads the comparison, Signed what it is meant to say. */
  datatype Comparison = Unsigned | Signed

  /** Undefined: the operation reads through a null tail or through an entry it has evicted. */
  datatype Outcome = Done(ok: bool) | Undefined

  datatype Reply = Reply(cache: Cache, outcome: Outcome)

  function Bytes(es: Entries): nat {
    if es == [] then 0 else Bytes(es[..|es| - 1]) + es[|es| - 1].Size()
  }

  ghost predicate DistinctKeys(es: Entries) {
    forall i, j :: 0 <= i < j < |es| ==> es[i].key != es[j].key
  }

  predicate Has(es: Entries, key: string) {
    exists i :: 0 <= i < |es| && es[i].key == key
  }

  function Without(es: Entries, key: string): Entries {
    if es == [] then []
    else
      var n := |es| - 1;
      Without(es[..n], key) + (if es[n].key == key then [] else [es[n]])
  }

  function Find(es: Entries, key: string): (e: Entry)
    requires Has(es, key)
    ensures e in es && e.key == key
  {
    if es[|es| - 1].key == key then es[|es| - 1] else Find(es[..|es| - 1], key)
  }

  function MoveToFront(es: Entries, key: string): Entries {
    if Has(es, key) then [Find(es, key)] + Without(es, key) else es
  }

  /** Drops least recently used entries until the rest fits: the shortest suffix that makes room. */
  function EvictTo(es: Entries, room: nat): (r: Entries)
    ensures r <= es
    ensures Bytes(r) <= room
  {
    if Bytes(es) <= room then es else EvictTo(es[..|es| - 1], room)
  }

  /** The new front entry pushes out whatever no longer fits behind it. */
  function PlaceFirst(maxSize: nat, es: Entries, e: Entry): Entries
    requires e.Size() <= maxSize
  {
    [e] + EvictTo(Without(es, e.key), maxSize - e.Size())
  }

  /** An overwrite whose unsigned comparison goes wrong: it stores fewer bytes than it replaces. */
  predicate Shrinks(c: Cache, e: Entry) {
    Has(c.entries, e.key) && e.Size() <= c.maxSize && e.Size() < Find(c.entries, e.key).Size()
  }

  function Put(cmp: Comparison, c: Cache, key: string, value: string): Reply {
    var e := Entry(key, value);
    if e.Size() > c.maxSize then
      Reply(c.(entries := MoveToFront(c.entries, key)), Done(false))
    else if cmp.Unsigned? && Shrinks(c, e) then
      Reply(c, Undefined)
    else
      Reply(c.(entries := PlaceFirst(c.maxSize, c.entries, e)), Done(true))
  }

  function PutIfAbsent(c: Cache, key: string, value: string): Reply {
    if Has(c.entries, key) then Reply(c, Done(false)) else Put(Signed, c, key, value)
  }

  function Set(cmp: Comparison, c: Cache, key: string, value: string): Reply {
    if Has(c.entries, key) then Put(cmp, c, key, value) else Reply(c, Done(false))
  }

  function Delete(c: Cache, key: string): Reply {
    Reply(c.(entries := Without(c.entries, key)), Done(Has(c.entries, key)))
  }

  function Get(c: Cache, key: string): Reply {
    Reply(c.(entries := MoveToFront(c.entries, key)), Done(Has(c.entries, key)))
  }

  datatype Op =
    | OpPut(key: string, value: string)
    | OpPutIfAbsent(key: string, value: string)
    | OpSet(key: string, value: string)
    | OpDelete(key: string)
    | OpGet(key: string)

  function Apply(cmp: Comparison, c: Cache, op: Op): Reply {
    match op
    case OpPut(k, v) => Put(cmp, c, k, v)
    case OpPutIfAbsent(k, v) => PutIfAbsent(c, k, v)
    case OpSet(k, v) => Set(cmp, c, k, v)
    case OpDelete(k) => Delete(c, k)
    case OpGet(k) => Get(c, k)
  }

  /** The cache after a run; the run stops at the first undefined operation. */
  function Run(cmp: Comparison, c: Cache, ops: seq<Op>): Reply {
    if ops == [] then Reply(c, Done(true))
    else
      var r := Run(cmp, c, ops[..|ops| - 1]);
      if r.outcome.Undefined? then r else Apply(cmp, r.cache, ops[|ops| - 1])
  }
}
