/** The commands over the cache: what a client's requests do to it, and what they are answered. */
module Backend {
  import opened Basics
  import opened LruSpec
  import LruLaws
  import SimpleLru
  import opened LruWorkingSet
  import opened Parser
  import opened HeaderRoundTrip
  import opened ClientSession
  import opened Requests
  import opened GetCommand

  /** A command with its argument. */
  datatype Call = Call(command: Command, argument: string)

  /** The operations of the cache that a command carries out. */
  function OpsOf(c: Cache, call: Call): seq<Op> {
    match call.command
    case Set(key, _, _) => [OpPut(key, call.argument)]
    case Add(key, _, _) => [OpPutIfAbsent(key, call.argument)]
    case Append(key, _, _) =>
      if Has(c.entries, key) then [OpGet(key), OpPut(key, Find(c.entries, key).value + call.argument)]
      else [OpGet(key)]
    case Get(keys) => Gets(keys)
    case Stats => []
  }

  /** What it answers.  The set command does not look at what the cache says. */
  function AnswerTo(c: Cache, call: Call): string {
    match call.command
    case Set(_, _, _) => "STORED"
    case Add(key, _, _) => if LruSpec.PutIfAbsent(c, key, call.argument).outcome == Done(true) then "STORED" else "NOT_STORED"
    case Append(key, _, _) => if Has(c.entries, key) then "STORED" else "NOT_STORED"
    case Get(keys) => PrintItems(Found(c.entries, keys)) + "END"
    case Stats => "END"
  }

  /** The cache after some calls; the run stops at the first undefined operation. */
  function After(cmp: Comparison, c: Cache, calls: seq<Call>): Reply {
    if calls == [] then Reply(c, Done(true))
    else
      var r := After(cmp, c, calls[..|calls| - 1]);
      if r.outcome.Undefined? then r else Run(cmp, r.cache, OpsOf(r.cache, calls[|calls| - 1]))
  }

  /** All operations that the calls carry out, one after the other. */
  function AllOps(cmp: Comparison, c: Cache, calls: seq<Call>): seq<Op> {
    if calls == [] then []
    else
      var front := calls[..|calls| - 1];
      AllOps(cmp, c, front) + OpsOf(After(cmp, c, front).cache, calls[|calls| - 1])
  }

  /** The answers that the cache gives to a run of calls, as an oracle of the connection. */
  function Oracle(cmp: Comparison, c: Cache, calls: seq<Call>): Answers {
    (n: nat, command: Command, argument: string) =>
      if n <= |calls| then AnswerTo(After(cmp, c, calls[..n]).cache, Call(command, argument)) else ""
  }

  lemma {:induction false} AfterIsRun(cmp: Comparison, c: Cache, calls: seq<Call>)
    requires After(cmp, c, calls).outcome.Done?
    ensures Run(cmp, c, AllOps(cmp, c, calls)).outcome.Done?
    ensures Run(cmp, c, AllOps(cmp, c, calls)).cache == After(cmp, c, calls).cache
  {
    if calls != [] {
      var front, last := calls[..|calls| - 1], calls[|calls| - 1];
      AfterIsRun(cmp, c, front);
      RunAppend(cmp, c, AllOps(cmp, c, front), OpsOf(After(cmp, c, front).cache, last));
    }
  }

  /** The calls that the requests of a client come to. */
  function CallsOf(rs: seq<Request>): seq<Call>
    requires forall i :: 0 <= i < |rs| ==> Proper(rs[i]) && Servable(rs[i])
  {
    if rs == [] then []
    else
      var last := rs[|rs| - 1];
      assert Proper(last) && Servable(last);
      CallsOf(rs[..|rs| - 1]) + [Call(CommandOf(last.header), Tail(last))]
  }

  lemma {:induction false} CallsOfAppend(a: seq<Request>, b: seq<Request>)
    requires forall i :: 0 <= i < |a| ==> Proper(a[i]) && Servable(a[i])
    requires forall i :: 0 <= i < |b| ==> Proper(b[i]) && Servable(b[i])
    ensures |CallsOf(a)| == |a|
    ensures CallsOf(a + b) == CallsOf(a) + CallsOf(b)
  {
    if b == [] {
      assert a + b == a;
      if a != [] {
        CallsOfAppend(a[..|a| - 1], []);
      }
    } else {
      CallsOfAppend(a, b[..|b| - 1]);
      assert (a + b)[..|a + b| - 1] == a + b[..|b| - 1];
    }
  }

  lemma OracleAt(cmp: Comparison, c: Cache, calls: seq<Call>, n: nat, call: Call)
    requires n <= |calls|
    ensures Oracle(cmp, c, calls)(n, call.command, call.argument) == AnswerTo(After(cmp, c, calls[..n]).cache, call)
  {}

  lemma LastServed(answers: Answers, s: Session, rs: seq<Request>)
    requires Idle(s) && forall i :: 0 <= i < |rs| ==> Proper(rs[i]) && Servable(rs[i])
    requires rs != [] && Proper(rs[|rs| - 1]) && Servable(rs[|rs| - 1])
    ensures var n := |rs| - 1;
            var before, call := AllServed(answers, s, rs[..n]).executed, Call(CommandOf(rs[n].header), Tail(rs[n]));
            AllServed(answers, s, rs).executed
            == before + [Executed(call.command, call.argument, answers(|before|, call.command, call.argument))]
  {}

  /** Each request is answered by the cache as the requests before it have left it. */
  lemma {:induction false} AnsweredByCache(cmp: Comparison, c: Cache, calls: seq<Call>, s: Session, rs: seq<Request>)
    requires Idle(s) && s.executed == []
    requires forall i :: 0 <= i < |rs| ==> Proper(rs[i]) && Servable(rs[i])
    requires CallsOf(rs) <= calls
    ensures |AllServed(Oracle(cmp, c, calls), s, rs).executed| == |rs|
    ensures rs != [] ==>
              var n := |rs| - 1;
              var call := Call(CommandOf(rs[n].header), Tail(rs[n]));
              AllServed(Oracle(cmp, c, calls), s, rs).executed[n]
              == Executed(call.command, call.argument, AnswerTo(After(cmp, c, CallsOf(rs[..n])).cache, call))
  {
    if rs == [] {
      NoneServed(Oracle(cmp, c, calls), s);
    }
    hide AllServed; hide Oracle; hide After; hide AnswerTo;
    if rs != [] {
      var n := |rs| - 1;
      assert Proper(rs[n]) && Servable(rs[n]);
      CallsOfAppend(rs[..n], []);
      assert CallsOf(rs[..n]) == calls[..n];
      AnsweredByCache(cmp, c, calls, s, rs[..n]);
      LastServed(Oracle(cmp, c, calls), s, rs);
      OracleAt(cmp, c, calls, n, Call(CommandOf(rs[n].header), Tail(rs[n])));
    }
  }

  lemma NoneServed(answers: Answers, s: Session)
    requires Idle(s)
    ensures AllServed(answers, s, []) == s
  {}

  /** A set is always answered the same, but the key holds the value exactly if both fit the budget. */
  lemma SetMayNotStore(cmp: Comparison, c: Cache, key: string, flags: nat, expire: int, argument: string)
    requires c.Valid() && After(cmp, c, [Call(Set(key, flags, expire), argument)]).outcome.Done?
    ensures AnswerTo(c, Call(Set(key, flags, expire), argument)) == "STORED"
    ensures Entry(key, argument) in After(cmp, c, [Call(Set(key, flags, expire), argument)]).cache.entries
            <==> Entry(key, argument).Size() <= c.maxSize || Entry(key, argument) in c.entries
  {
    OneCall(cmp, c, Call(Set(key, flags, expire), argument));
    OneOp(cmp, c, OpPut(key, argument));
    var e := Entry(key, argument);
    if e.Size() > c.maxSize {
      LruLaws.WithoutMembers(c.entries, key, e);
      if e in c.entries {
        FindsMember(c.entries, e);
      }
    }
  }

  lemma OneCall(cmp: Comparison, c: Cache, call: Call)
    ensures After(cmp, c, [call]) == Run(cmp, c, OpsOf(c, call))
    ensures AllOps(cmp, c, [call]) == OpsOf(c, call)
  {
    assert [call][..0] == [];
    assert After(cmp, c, []) == Reply(c, Done(true)) && AllOps(cmp, c, []) == [];
  }

  lemma OneOp(cmp: Comparison, c: Cache, op: Op)
    ensures Run(cmp, c, [op]) == Apply(cmp, c, op)
  {
    assert [op][..0] == [];
    assert Run(cmp, c, []) == Reply(c, Done(true));
  }

  /** Requests that leave a key alone, except to add it. */
  predicate LeavesAlone(call: Call, key: string) {
    match call.command
    case Set(k, _, _) => k != key
    case Add(_, _, _) => true
    case Append(k, _, _) => k != key
    case Get(keys) => key !in keys
    case Stats => true
  }

  lemma {:induction false} OpsLeaveAlone(cmp: Comparison, c: Cache, calls: seq<Call>, key: string, op: Op)
    requires forall call :: call in calls ==> LeavesAlone(call, key)
    ensures op in AllOps(cmp, c, calls) && op.key == key ==> op.OpPutIfAbsent?
  {
    if calls != [] {
      var front, last := calls[..|calls| - 1], calls[|calls| - 1];
      OpsLeaveAlone(cmp, c, front, key, op);
      assert LeavesAlone(last, key);
      if last.command.Get? {
        GetsNames(last.command.keys, op);
      }
    }
  }

  lemma AfterLast(cmp: Comparison, c: Cache, calls: seq<Call>, last: Call)
    ensures var r := After(cmp, c, calls);
            After(cmp, c, calls + [last]) == if r.outcome.Undefined? then r else Run(cmp, r.cache, OpsOf(r.cache, last))
  {
    hide Run; hide OpsOf;
    assert (calls + [last])[..|calls|] == calls;
  }

  lemma {:induction false} AfterAppend(cmp: Comparison, c: Cache, a: seq<Call>, b: seq<Call>)
    ensures After(cmp, c, a + b).outcome.Done? ==> After(cmp, c, a).outcome.Done?
    ensures After(cmp, c, a).outcome.Done? ==>
              var r := After(cmp, After(cmp, c, a).cache, b);
              && (After(cmp, c, a + b).outcome.Done? <==> r.outcome.Done?)
              && After(cmp, c, a + b).cache == r.cache
  {
    hide After; hide Run; hide OpsOf;
    if b == [] {
      assert a + b == a;
      AfterNone(cmp, After(cmp, c, a).cache);
    } else {
      var front, last := b[..|b| - 1], b[|b| - 1];
      AfterAppend(cmp, c, a, front);
      AfterLast(cmp, c, a + front, last);
      AfterLast(cmp, After(cmp, c, a).cache, front, last);
      assert front + [last] == b && a + front + [last] == a + b;
    }
  }

  lemma AfterNone(cmp: Comparison, c: Cache)
    ensures After(cmp, c, []) == Reply(c, Done(true))
  {}

  /** A value that is stored stays, as long as it fits together with what the calls after it touch. */
  lemma StoredStays(cmp: Comparison, c: Cache, store: Call, calls: seq<Call>, x: Entry)
    requires c.Valid() && store.command.Set? && x == Entry(store.command.key, store.argument)
    requires x.Size() <= c.maxSize && After(cmp, c, [store] + calls).outcome.Done?
    requires forall call :: call in calls ==> LeavesAlone(call, x.key)
    requires var d := After(cmp, c, [store]).cache;
             x.Size() + Total(History(cmp, d, AllOps(cmp, d, calls))) <= c.maxSize
    ensures x in After(cmp, c, [store] + calls).cache.entries && After(cmp, c, [store] + calls).cache.Valid()
  {
    AfterAppend(cmp, c, [store], calls);
    OneCall(cmp, c, store);
    OneOp(cmp, c, OpPut(x.key, x.value));
    var d := After(cmp, c, [store]).cache;
    LruLaws.ApplyKeepsValid(cmp, c, OpPut(x.key, x.value));
    assert d.entries[0] == x;
    AfterIsRun(cmp, d, calls);
    forall op | op in AllOps(cmp, d, calls) && op.key == x.key ensures op.OpPutIfAbsent? {
      OpsLeaveAlone(cmp, d, calls, x.key, op);
    }
    WorkingSetKept(cmp, d, AllOps(cmp, d, calls), x);
    LruLaws.RunKeepsValid(cmp, d, AllOps(cmp, d, calls));
  }

  /** What a set stores: the body with its line end. */
  function Stored(store: Request): Entry
    requires store.header.Storage?
  {
    Entry(store.header.key, store.body + "\r\n")
  }

  /** The requests after a set leave its key alone, carry out no undefined operation, and leave room for it. */
  ghost predicate Spared(cmp: Comparison, c: Cache, store: Request, between: seq<Request>)
    requires Proper(store) && Servable(store) && store.header.Storage?
    requires forall i :: 0 <= i < |between| ==> Proper(between[i]) && Servable(between[i])
  {
    var first, calls := [Call(CommandOf(store.header), Tail(store))], CallsOf(between);
    var d := After(cmp, c, first).cache;
    && (forall call :: call in calls ==> LeavesAlone(call, store.header.key))
    && After(cmp, c, first + calls).outcome.Done?
    && Stored(store).Size() + Total(History(cmp, d, AllOps(cmp, d, calls))) <= c.maxSize
  }

  /** From the wire to the cache and back: a set, any requests that leave its key alone, and a get of the key, in
      whatever pieces they arrive, are served, and the get is answered with the body and its line end, as long as
      it fits together with what the requests in between touch. */
  lemma SetThenGet(cmp: Comparison, c: Cache, s: Session, rs: seq<Request>, pieces: seq<string>)
    requires Idle(s) && s.executed == [] && c.Valid() && |rs| >= 2
    requires forall i :: 0 <= i < |rs| ==> Proper(rs[i]) && Servable(rs[i])
    requires rs[0].header.Storage? && rs[0].header.name == "set"
    requires rs[|rs| - 1].header == Retrieval("get", [rs[0].header.key])
    requires Spared(cmp, c, rs[0], rs[1..|rs| - 1])
    requires Joined(pieces) == Texts(rs)
    ensures Ready(s)
    ensures var f := FeedPieces(Oracle(cmp, c, CallsOf(rs)), s, pieces);
            && !f.threw && f.count == |Texts(rs)| && |f.session.executed| == |rs|
            && f.session.executed[|rs| - 1] == Executed(Get([rs[0].header.key]), "", PrintItem(Stored(rs[0])) + "END")
  {
    hide Feed; hide FeedPieces; hide Texts; hide After; hide Total; hide PrintItem; hide Found; hide Joined; hide AllServed;
    hide PrintItems; hide CallsOf; hide Oracle; hide History; hide AllOps; hide Has; hide Find;
    var n, x := |rs| - 1, Stored(rs[0]);
    var store, between, fetch := rs[0], rs[1..n], rs[n];
    assert Proper(store) && Servable(store) && Proper(fetch) && Servable(fetch);
    RunServed(Oracle(cmp, c, CallsOf(rs)), s, rs, pieces);
    OneCallOf(store);
    CallsOfAppend([store], between);
    CallsOfAppend([store] + between, [fetch]);
    assert rs[..n] == [store] + between && rs == [store] + between + [fetch];
    AnsweredByCache(cmp, c, CallsOf(rs), s, rs);
    var first, calls := Call(CommandOf(store.header), Tail(store)), CallsOf(between);
    StoredStays(cmp, c, first, calls, x);
    var d := After(cmp, c, [first] + calls).cache;
    FindsMember(d.entries, x);
    OneFound(d.entries, x);
  }

  lemma OneCallOf(r: Request)
    requires Proper(r) && Servable(r)
    ensures CallsOf([r]) == [Call(CommandOf(r.header), Tail(r))]
  {
    assert [r][..0] == [];
    assert CallsOf([]) == [];
  }

  lemma OneFound(es: Entries, x: Entry)
    requires Has(es, x.key) && Find(es, x.key) == x
    ensures PrintItems(Found(es, [x.key])) == PrintItem(x)
  {
    hide PrintItem; hide Has; hide Find;
    FoundOne(es, [x.key]);
    PrintedOne([x]);
  }

  lemma FoundOne(es: Entries, keys: seq<string>)
    requires |keys| == 1
    ensures Found(es, keys) == if Has(es, keys[0]) then [Find(es, keys[0])] else []
  {
    hide Has; hide Find;
    assert keys[..0] == [];
  }

  lemma PrintedOne(items: Entries)
    requires |items| == 1
    ensures PrintItems(items) == PrintItem(items[0])
  {
    hide PrintItem;
    assert items[..0] == [];
    assert "" + PrintItem(items[0]) == PrintItem(items[0]);
  }

  // The commands one by one, told over the entries as they were.

  lemma TwoOps(cmp: Comparison, c: Cache, a: Op, b: Op)
    requires Apply(cmp, c, a).outcome.Done?
    ensures Run(cmp, c, [a, b]) == Apply(cmp, Apply(cmp, c, a).cache, b)
  {
    assert [a, b][..1] == [a];
    OneOp(cmp, c, a);
  }

  /** An add is answered STORED exactly if no entry has the key and the new one fits, and only then stores it. */
  lemma AddTells(cmp: Comparison, c: Cache, key: string, flags: nat, expire: int, argument: string)
    requires c.Valid()
    ensures var call := Call(Add(key, flags, expire), argument);
            var r := Run(cmp, c, OpsOf(c, call));
            var stores := (forall i :: 0 <= i < |c.entries| ==> c.entries[i].key != key) && |key| + |argument| <= c.maxSize;
            && r.outcome.Done?
            && AnswerTo(c, call) == (if stores then "STORED" else "NOT_STORED")
            && (stores ==> LruLaws.StoredInFront(c.maxSize, c.entries, key, argument, r.cache.entries))
            && (!stores ==> r.cache == c)
  {
    hide LruLaws.StoredInFront; hide LruSpec.PutIfAbsent;
    LruLaws.PutIfAbsentTells(c, key, argument);
    OneOp(cmp, c, OpPutIfAbsent(key, argument));
  }

  /** An append is answered STORED exactly if the key is there.  Then, if it fits, the old value followed by the
      argument is stored in front; if not, the entry stays as it is and is moved there.  It is never undefined. */
  lemma AppendTells(cmp: Comparison, c: Cache, key: string, flags: nat, expire: int, argument: string)
    requires c.Valid()
    ensures var call := Call(Append(key, flags, expire), argument);
            var r := Run(cmp, c, OpsOf(c, call));
            && r.outcome.Done?
            && (forall i :: 0 <= i < |c.entries| && c.entries[i].key == key ==>
                  && AnswerTo(c, call) == "STORED"
                  && if |key| + |c.entries[i].value| + |argument| <= c.maxSize
                     then LruLaws.StoredInFront(c.maxSize, c.entries, key, c.entries[i].value + argument, r.cache.entries)
                     else r.cache.entries == [c.entries[i]] + c.entries[..i] + c.entries[i + 1..])
            && ((forall i :: 0 <= i < |c.entries| ==> c.entries[i].key != key) ==>
                  AnswerTo(c, call) == "NOT_STORED" && r.cache == c)
  {
    hide AnswerTo; hide OpsOf; hide LruLaws.StoredInFront; hide Run;
    forall i | 0 <= i < |c.entries| && c.entries[i].key == key
      ensures var call := Call(Append(key, flags, expire), argument);
              var r := Run(cmp, c, OpsOf(c, call));
              && r.outcome.Done? && AnswerTo(c, call) == "STORED"
              && AppendedTo(c.maxSize, c.entries, i, argument, r.cache.entries)
    {
      AppendAt(cmp, c, key, flags, expire, argument, i);
    }
    if forall i :: 0 <= i < |c.entries| ==> c.entries[i].key != key {
      AppendAbsent(cmp, c, key, flags, expire, argument);
    }
  }

  /** now is es with args behind the value at position i, stored in front; or, if that is too much, unchanged there. */
  ghost predicate AppendedTo(maxSize: nat, es: Entries, i: nat, args: string, now: Entries)
    requires i < |es|
  {
    if |es[i].key| + |es[i].value| + |args| <= maxSize
    then LruLaws.StoredInFront(maxSize, es, es[i].key, es[i].value + args, now)
    else now == [es[i]] + es[..i] + es[i + 1..]
  }

  lemma AppendAbsent(cmp: Comparison, c: Cache, key: string, flags: nat, expire: int, argument: string)
    requires forall i :: 0 <= i < |c.entries| ==> c.entries[i].key != key
    ensures var call := Call(Append(key, flags, expire), argument);
            Run(cmp, c, OpsOf(c, call)) == Reply(c, Done(false)) && AnswerTo(c, call) == "NOT_STORED"
  {
    OneOp(cmp, c, OpGet(key));
  }

  lemma AppendAt(cmp: Comparison, c: Cache, key: string, flags: nat, expire: int, argument: string, i: nat)
    requires c.Valid() && i < |c.entries| && c.entries[i].key == key
    ensures var call := Call(Append(key, flags, expire), argument);
            var r := Run(cmp, c, OpsOf(c, call));
            && r.outcome.Done? && AnswerTo(c, call) == "STORED"
            && AppendedTo(c.maxSize, c.entries, i, argument, r.cache.entries)
  {
    hide LruSpec.Put; hide LruLaws.StoredInFront; hide Run; hide LruSpec.DistinctKeys; hide Find;
    LruLaws.WithoutAt(c.entries, i);
    assert Has(c.entries, key);
    AppendPresent(cmp, c, key, argument);
    var value := c.entries[i].value + argument;
    LruLaws.PutOutcome(cmp, c, key, value);
    LruLaws.PutLeaves(cmp, c, key, value);
  }

  /** An append to a present key is a Put of the longer value. */
  lemma AppendPresent(cmp: Comparison, c: Cache, key: string, argument: string)
    requires c.Valid() && Has(c.entries, key)
    ensures var value := Find(c.entries, key).value + argument;
            && LruSpec.Put(cmp, c, key, value).outcome.Done?
            && Run(cmp, c, [OpGet(key), OpPut(key, value)]) == LruSpec.Put(cmp, c, key, value)
  {
    var value := Find(c.entries, key).value + argument;
    SimpleLru.MoveThenPut(cmp, c, key, value);
    TwoOps(cmp, c, OpGet(key), OpPut(key, value));
  }

  /** Set::Execute: the answer does not depend on what the cache reports. */
  method ExecuteSet(key: string, args: string, storage: SimpleLru.SimpleLRU) returns (out: string, outcome: Outcome)
    requires storage.Valid()
    modifies storage, storage.repr
    ensures fresh(storage.repr - old(storage.repr))
    ensures Run(storage.comparison, old(storage.Cache()), [OpPut(key, args)]).outcome == outcome
    ensures outcome.Done? ==>
              && storage.Valid() && out == "STORED"
              && Run(storage.comparison, old(storage.Cache()), [OpPut(key, args)]).cache == storage.Cache()
              && if |key| + |args| <= storage.maxSize
                 then LruLaws.StoredInFront(storage.maxSize, old(storage.entries), key, args, storage.entries)
                 else LruLaws.Fronted(old(storage.entries), key, storage.entries)
  {
    hide LruLaws.StoredInFront; hide LruLaws.Fronted; hide LruSpec.Put;
    OneOp(storage.comparison, storage.Cache(), OpPut(key, args));
    outcome := storage.Put(key, args);
    out := "STORED";
  }

  /** Add::Execute. */
  method ExecuteAdd(key: string, args: string, storage: SimpleLru.SimpleLRU) returns (out: string)
    requires storage.Valid()
    modifies storage, storage.repr
    ensures storage.Valid() && fresh(storage.repr - old(storage.repr))
    ensures Run(storage.comparison, old(storage.Cache()), [OpPutIfAbsent(key, args)]).cache == storage.Cache()
    ensures out == if !Has(old(storage.entries), key) && |key| + |args| <= storage.maxSize then "STORED" else "NOT_STORED"
    ensures out == "STORED" ==> LruLaws.StoredInFront(storage.maxSize, old(storage.entries), key, args, storage.entries)
    ensures out == "NOT_STORED" ==> storage.entries == old(storage.entries)
  {
    hide LruLaws.StoredInFront; hide LruSpec.PutIfAbsent;
    OneOp(storage.comparison, storage.Cache(), OpPutIfAbsent(key, args));
    var stored := storage.PutIfAbsent(key, args);
    out := if stored then "STORED" else "NOT_STORED";
  }

  /** Append::Execute: looks the value up and stores it again with the argument behind it. */
  method ExecuteAppend(key: string, args: string, storage: SimpleLru.SimpleLRU) returns (out: string)
    requires storage.Valid()
    modifies storage, storage.repr
    ensures storage.Valid() && fresh(storage.repr - old(storage.repr))
    ensures var call := Call(Append(key, 0, 0), args);
            && Run(storage.comparison, old(storage.Cache()), OpsOf(old(storage.Cache()), call)).cache == storage.Cache()
            && out == AnswerTo(old(storage.Cache()), call)
    ensures out == if Has(old(storage.entries), key) then "STORED" else "NOT_STORED"
    ensures out == "NOT_STORED" ==> storage.entries == old(storage.entries)
    ensures forall i :: 0 <= i < |old(storage.entries)| && old(storage.entries)[i].key == key ==>
              AppendedTo(storage.maxSize, old(storage.entries), i, args, storage.entries)
  {
    hide LruLaws.Fronted; hide LruLaws.StoredInFront;
    ghost var c := storage.Cache();
    storage.CacheValid();
    ghost var call := Call(Append(key, 0, 0), args);
    if Has(c.entries, key) {
      AppendPresent(storage.comparison, c, key, args);
      TwoOps(storage.comparison, c, OpGet(key), OpPut(key, Find(c.entries, key).value + args));
    }
    AppendExactly(storage.comparison, c, key, args);
    hide Run; hide Has; hide Find; hide LruSpec.Put; hide LruSpec.DistinctKeys; hide AppendedTo; hide LruLaws.Fronted;
    hide LruLaws.StoredInFront; hide LruSpec.MoveToFront;
    var value := "";
    var found;
    found, value := storage.Get(key, value);
    if !found {
      return "NOT_STORED";
    }
    var outcome := storage.Put(key, value + args);
    out := "STORED";
  }

  lemma AppendExactly(cmp: Comparison, c: Cache, key: string, args: string)
    requires c.Valid()
    ensures var call := Call(Append(key, 0, 0), args);
            var r := Run(cmp, c, OpsOf(c, call));
            && r.outcome.Done?
            && AnswerTo(c, call) == (if Has(c.entries, key) then "STORED" else "NOT_STORED")
            && (forall i :: 0 <= i < |c.entries| && c.entries[i].key == key ==>
                  AppendedTo(c.maxSize, c.entries, i, args, r.cache.entries))
            && (!Has(c.entries, key) ==> r.cache == c)
  {
    AppendTells(cmp, c, key, 0, 0, args);
    hide Run; hide OpsOf; hide LruLaws.StoredInFront;
  }

  /** A set and an append to its key, which fit together, and a get of the key: the append is answered STORED and the
      get with both values, one behind the other. */
  lemma SetAppendAnswered(cmp: Comparison, c: Cache, set_: Call, append: Call)
    requires c.Valid() && set_.command.Set? && append.command.Append? && append.command.key == set_.command.key
    requires After(cmp, c, [set_]).outcome.Done?
    requires |set_.command.key| + |set_.argument| + |append.argument| <= c.maxSize
    ensures After(cmp, c, [set_, append]).outcome.Done?
    ensures AnswerTo(After(cmp, c, [set_]).cache, append) == "STORED"
    ensures AnswerTo(After(cmp, c, [set_, append]).cache, Call(Get([set_.command.key]), ""))
            == PrintItem(Entry(set_.command.key, set_.argument + append.argument)) + "END"
  {
    hide Run; hide OpsOf; hide LruSpec.Put; hide PrintItem; hide LruSpec.DistinctKeys; hide Has; hide Find; hide Bytes;
    hide After;
    var key := set_.command.key;
    var d := After(cmp, c, [set_]).cache;
    SetPuts(cmp, c, set_);
    AfterLast(cmp, c, [set_], append);
    assert [set_] + [append] == [set_, append];
    AppendAt(cmp, d, key, append.command.flags, append.command.expire, append.argument, 0);
    var e := After(cmp, c, [set_, append]).cache;
    var x := Entry(key, set_.argument + append.argument);
    LruLaws.RunKeepsValid(cmp, d, OpsOf(d, append));
    FindsMember(e.entries, x);
    OneFound(e.entries, x);
  }

  lemma SetPuts(cmp: Comparison, c: Cache, set_: Call)
    requires c.Valid() && set_.command.Set? && After(cmp, c, [set_]).outcome.Done?
    requires |set_.command.key| + |set_.argument| <= c.maxSize
    ensures var d := After(cmp, c, [set_]).cache;
            d.Valid() && d.maxSize == c.maxSize && d.entries != [] && d.entries[0] == Entry(set_.command.key, set_.argument)
  {
    OneCall(cmp, c, set_);
    OneOp(cmp, c, OpPut(set_.command.key, set_.argument));
    LruLaws.PutTells(cmp, c, set_.command.key, set_.argument);
    LruLaws.ApplyKeepsValid(cmp, c, OpPut(set_.command.key, set_.argument));
  }

  /** The same from the wire, in whatever pieces the three requests arrive: the get is answered with both bodies, each
      with its line end. */
  lemma SetAppendGet(cmp: Comparison, c: Cache, s: Session, rs: seq<Request>, pieces: seq<string>)
    requires Idle(s) && s.executed == [] && c.Valid() && |rs| == 3
    requires forall i :: 0 <= i < |rs| ==> Proper(rs[i]) && Servable(rs[i])
    requires rs[0].header.Storage? && rs[0].header.name == "set"
    requires rs[1].header.Storage? && rs[1].header.name == "append" && rs[1].header.key == rs[0].header.key
    requires rs[2].header == Retrieval("get", [rs[0].header.key])
    requires Proper(rs[0]) && Servable(rs[0])
    requires After(cmp, c, [Call(CommandOf(rs[0].header), Tail(rs[0]))]).outcome.Done?
    requires |rs[0].header.key| + |rs[0].body| + |rs[1].body| + 4 <= c.maxSize
    requires Joined(pieces) == Texts(rs)
    ensures Ready(s)
    ensures var f := FeedPieces(Oracle(cmp, c, CallsOf(rs)), s, pieces);
            && !f.threw && f.count == |Texts(rs)| && |f.session.executed| == 3
            && f.session.executed[1].answer == "STORED"
            && f.session.executed[2].answer
               == PrintItem(Entry(rs[0].header.key, rs[0].body + "\r\n" + rs[1].body + "\r\n")) + "END"
  {
    hide Feed; hide FeedPieces; hide Texts; hide After; hide PrintItem; hide Joined; hide AllServed;
    hide CallsOf; hide Oracle; hide AnswerTo;
    assert Proper(rs[0]) && Servable(rs[0]) && Proper(rs[1]) && Servable(rs[1]) && Proper(rs[2]) && Servable(rs[2]);
    var a, b, get := Call(CommandOf(rs[0].header), Tail(rs[0])), Call(CommandOf(rs[1].header), Tail(rs[1])),
      Call(CommandOf(rs[2].header), Tail(rs[2]));
    RunServed(Oracle(cmp, c, CallsOf(rs)), s, rs, pieces);
    ThreeCalls(rs);
    AnsweredByCache(cmp, c, CallsOf(rs), s, rs);
    AnsweredByCache(cmp, c, CallsOf(rs), s, rs[..2]);
    SetAppendAnswered(cmp, c, a, b);
    ServedInOrder(Oracle(cmp, c, CallsOf(rs)), s, rs, 0);
    ServedBefore(Oracle(cmp, c, CallsOf(rs)), s, rs);
    assert rs[0].body + "\r\n" + (rs[1].body + "\r\n") == rs[0].body + "\r\n" + rs[1].body + "\r\n";
    assert a.argument + b.argument == rs[0].body + "\r\n" + rs[1].body + "\r\n";
    assert CallsOf(rs[..2]) == [a, b] && get == Call(Get([rs[0].header.key]), "");
    assert rs[..|rs| - 1] == rs[..2];
  }

  lemma ServedBefore(answers: Answers, s: Session, rs: seq<Request>)
    requires Idle(s) && forall i :: 0 <= i < |rs| ==> Proper(rs[i]) && Servable(rs[i])
    requires rs != []
    ensures AllServed(answers, s, rs[..|rs| - 1]).executed <= AllServed(answers, s, rs).executed
  {
    LastServed(answers, s, rs);
  }

  lemma ThreeCalls(rs: seq<Request>)
    requires |rs| == 3 && forall i :: 0 <= i < |rs| ==> Proper(rs[i]) && Servable(rs[i])
    ensures Proper(rs[0]) && Servable(rs[0]) && Proper(rs[1]) && Servable(rs[1]) && Proper(rs[2]) && Servable(rs[2])
    ensures CallsOf(rs[..1]) == [Call(CommandOf(rs[0].header), Tail(rs[0]))]
    ensures CallsOf(rs[..2]) == CallsOf(rs[..1]) + [Call(CommandOf(rs[1].header), Tail(rs[1]))]
    ensures CallsOf(rs) == CallsOf(rs[..2]) + [Call(CommandOf(rs[2].header), Tail(rs[2]))]
    ensures rs[..2][..1] == rs[..1]
  {
    assert Proper(rs[0]) && Servable(rs[0]) && Proper(rs[1]) && Servable(rs[1]) && Proper(rs[2]) && Servable(rs[2]);
    assert rs[..2][..1] == rs[..1] && rs[..1] == [rs[0]];
    OneCallOf(rs[0]);
  }
}
