/** The get command: what it prints, what it does to recency, and how a reader takes the answer apart. */
module GetCommand {
  import opened LruSpec
  import LruLaws
  import opened LruWorkingSet
  import SimpleLru
  import opened Basics
  import opened Parser
  import opened HeaderRoundTrip

  /** The entries of the present keys, in request order, repeated as often as requested. */
  function Found(es: Entries, keys: seq<string>): Entries {
    if keys == [] then []
    else
      var key := keys[|keys| - 1];
      Found(es, keys[..|keys| - 1]) + (if Has(es, key) then [Find(es, key)] else [])
  }

  /** One key more is one entry more, if there is one with the key. */
  lemma FoundNext(es: Entries, keys: seq<string>, key: string)
    requires DistinctKeys(es)
    ensures Found(es, []) == []
    ensures forall i :: 0 <= i < |es| && es[i].key == key ==> Found(es, keys + [key]) == Found(es, keys) + [es[i]]
    ensures (forall i :: 0 <= i < |es| ==> es[i].key != key) ==> Found(es, keys + [key]) == Found(es, keys)
  {
    assert (keys + [key])[..|keys|] == keys;
    forall i | 0 <= i < |es| && es[i].key == key ensures Has(es, key) && Find(es, key) == es[i] {
      LruLaws.WithoutAt(es, i);
    }
  }

  function PrintItem(e: Entry): string {
    "VALUE " + (e.key + (" 0 " + (Decimal(|e.value|) + ("\r\n" + (e.value + "\r\n")))))
  }

  function PrintItems(es: Entries): string {
    if es == [] then "" else PrintItems(es[..|es| - 1]) + PrintItem(es[|es| - 1])
  }

  /** The answer, with the line end of the network layer. */
  function Answer(es: Entries): string { PrintItems(es) + "END" + "\r\n" }

  function Gets(keys: seq<string>): seq<Op> {
    if keys == [] then [] else Gets(keys[..|keys| - 1]) + [OpGet(keys[|keys| - 1])]
  }

  /** The cache after looking up all keys. */
  function AfterGets(c: Cache, keys: seq<string>): Cache {
    if keys == [] then c else LruSpec.Get(AfterGets(c, keys[..|keys| - 1]), keys[|keys| - 1]).cache
  }

  lemma {:induction false} GetsAreARun(cmp: Comparison, c: Cache, keys: seq<string>)
    ensures Run(cmp, c, Gets(keys)).outcome.Done? && Run(cmp, c, Gets(keys)).cache == AfterGets(c, keys)
  {
    if keys != [] {
      GetsAreARun(cmp, c, keys[..|keys| - 1]);
      assert Gets(keys)[..|Gets(keys)| - 1] == Gets(keys[..|keys| - 1]);
    }
  }

  lemma {:induction false} RunAppend(cmp: Comparison, c: Cache, a: seq<Op>, b: seq<Op>)
    requires Run(cmp, c, a).outcome.Done?
    ensures Run(cmp, c, a + b) == if b == [] then Run(cmp, c, a) else Run(cmp, Run(cmp, c, a).cache, b)
  {
    if b == [] {
      assert a + b == a;
    } else {
      var n := |b| - 1;
      RunAppend(cmp, c, a, b[..n]);
      assert (a + b)[..|a + b| - 1] == a + b[..n];
      if n == 0 {
        assert b[..n] == [] && Run(cmp, Run(cmp, c, a).cache, []) == Reply(Run(cmp, c, a).cache, Done(true));
      }
    }
  }

  /** Looking keys up reorders the entries and changes nothing else. */
  lemma {:induction false} GetsKeepEntries(c: Cache, keys: seq<string>, e: Entry)
    requires c.Valid()
    ensures AfterGets(c, keys).Valid() && AfterGets(c, keys).maxSize == c.maxSize
    ensures e in AfterGets(c, keys).entries <==> e in c.entries
  {
    if keys != [] {
      var before, key := AfterGets(c, keys[..|keys| - 1]), keys[|keys| - 1];
      GetsKeepEntries(c, keys[..|keys| - 1], e);
      LruLaws.ApplyKeepsValid(Signed, before, OpGet(key));
      LruLaws.WithoutMembers(before.entries, key, e);
      if e.key == key && e in before.entries {
        FindsMember(before.entries, e);
      }
    }
  }

  lemma FindsMember(es: Entries, e: Entry)
    requires DistinctKeys(es) && e in es
    ensures Has(es, e.key) && Find(es, e.key) == e
  {
    var i :| 0 <= i < |es| && es[i] == e;
    var f := Find(es, e.key);
    var j :| 0 <= j < |es| && es[j] == f;
  }

  /** A key is answered as it was before the command, whatever the command has looked up so far. */
  lemma SameAnswer(c: Cache, keys: seq<string>, key: string)
    requires c.Valid()
    ensures var d := AfterGets(c, keys);
            && (Has(d.entries, key) <==> Has(c.entries, key))
            && (Has(c.entries, key) ==> Find(d.entries, key) == Find(c.entries, key))
  {
    var d := AfterGets(c, keys);
    if Has(c.entries, key) {
      GetsKeepEntries(c, keys, Find(c.entries, key));
      FindsMember(d.entries, Find(c.entries, key));
    }
    if Has(d.entries, key) {
      GetsKeepEntries(c, keys, Find(d.entries, key));
    }
  }

  method Execute(keys: seq<string>, storage: SimpleLru.SimpleLRU) returns (out: string)
    requires storage.Valid()
    modifies storage, storage.repr
    ensures storage.Valid() && storage.repr == old(storage.repr)
    ensures out == PrintItems(Found(old(storage.entries), keys)) + "END"
    ensures out + "\r\n" == Answer(Found(old(storage.entries), keys))
    ensures storage.Cache() == Run(storage.comparison, old(storage.Cache()), Gets(keys)).cache
  {
    ghost var start := storage.Cache();
    storage.CacheValid();
    var value := "";
    out := "";
    for i := 0 to |keys|
      invariant storage.Valid() && storage.repr == old(storage.repr)
      invariant out == PrintItems(Found(start.entries, keys[..i]))
      invariant storage.Cache() == AfterGets(start, keys[..i])
    {
      SameAnswer(start, keys[..i], keys[i]);
      NextFound(start, start.entries, keys, i);
      var found;
      found, value := storage.Get(keys[i], value);
      if found {
        NextItem(Found(start.entries, keys[..i]), Entry(keys[i], value));
        out := out + "VALUE " + keys[i] + " 0 " + Decimal(|value|) + "\r\n";
        out := out + value + "\r\n";
      }
    }
    assert keys[..|keys|] == keys;
    GetsAreARun(storage.comparison, start, keys);
    out := out + "END";
  }

  lemma {:induction false} GetsAppend(a: seq<string>, b: seq<string>)
    ensures Gets(a + b) == Gets(a) + Gets(b)
  {
    if b == [] {
      assert a + b == a;
    } else {
      var n := |b| - 1;
      assert (a + b)[..|a + b| - 1] == a + b[..n];
      GetsAppend(a, b[..n]);
    }
  }

  lemma {:induction false} GetsNames(keys: seq<string>, op: Op)
    ensures op in Gets(keys) ==> op.OpGet? && op.key in keys
  {
    if keys != [] {
      var n := |keys| - 1;
      GetsNames(keys[..n], op);
      assert keys == keys[..n] + [keys[n]];
    }
  }

  /** A key that a command has asked for and found is as good as just touched: whatever the command asks for
      after it and whatever operations follow, its entry stays as long as it fits together with what they touch. */
  lemma RequestedKept(cmp: Comparison, c: Cache, keys: seq<string>, i: nat, ops: seq<Op>, x: Entry)
    requires c.Valid() && i < |keys| && x in c.entries && x.key == keys[i]
    requires x.key !in keys[i + 1..]
    requires forall op :: op in ops && op.key == x.key ==> op.OpPutIfAbsent?
    requires Run(cmp, c, Gets(keys) + ops).outcome.Done?
    requires x.Size() + Total(History(cmp, AfterGets(c, keys[..i + 1]), Gets(keys[i + 1..]) + ops)) <= c.maxSize
    ensures x in Run(cmp, c, Gets(keys) + ops).cache.entries
  {
    var d, rest := AfterGets(c, keys[..i + 1]), Gets(keys[i + 1..]) + ops;
    SplitRun(cmp, c, keys, i, ops);
    FoundIsFirst(c, keys, i, x);
    GetsKeepEntries(c, keys[..i + 1], x);
    forall op | op in rest && op.key == x.key ensures op.OpPutIfAbsent? {
      GetsNames(keys[i + 1..], op);
    }
    WorkingSetKept(cmp, d, rest, x);
  }

  lemma SplitRun(cmp: Comparison, c: Cache, keys: seq<string>, i: nat, ops: seq<Op>)
    requires i < |keys|
    ensures var d, rest := AfterGets(c, keys[..i + 1]), Gets(keys[i + 1..]) + ops;
            && (Run(cmp, c, Gets(keys) + ops).outcome.Done? <==> Run(cmp, d, rest).outcome.Done?)
            && Run(cmp, c, Gets(keys) + ops).cache == Run(cmp, d, rest).cache
  {
    var before, after := keys[..i + 1], keys[i + 1..];
    assert keys == before + after;
    GetsAppend(before, after);
    assert Gets(keys) + ops == Gets(before) + (Gets(after) + ops);
    GetsAreARun(cmp, c, before);
    RunAppend(cmp, c, Gets(before), Gets(after) + ops);
  }

  lemma FoundIsFirst(c: Cache, keys: seq<string>, i: nat, x: Entry)
    requires c.Valid() && i < |keys| && x in c.entries && x.key == keys[i]
    ensures AfterGets(c, keys[..i + 1]).entries != [] && AfterGets(c, keys[..i + 1]).entries[0] == x
  {
    var d := AfterGets(c, keys[..i]);
    assert keys[..i + 1][..i] == keys[..i];
    GetsKeepEntries(c, keys[..i], x);
    FindsMember(d.entries, x);
  }

  lemma NextFound(c: Cache, es: Entries, keys: seq<string>, i: nat)
    requires i < |keys|
    ensures AfterGets(c, keys[..i + 1]) == LruSpec.Get(AfterGets(c, keys[..i]), keys[i]).cache
    ensures Found(es, keys[..i + 1]) == Found(es, keys[..i]) + (if Has(es, keys[i]) then [Find(es, keys[i])] else [])
    ensures !Has(es, keys[i]) ==> Found(es, keys[..i + 1]) == Found(es, keys[..i])
  {
    assert keys[..i + 1][..i] == keys[..i];
  }

  lemma NextItem(es: Entries, e: Entry)
    ensures PrintItems(es + [e]) == PrintItems(es) + "VALUE " + e.key + " 0 " + Decimal(|e.value|) + "\r\n" + e.value + "\r\n"
  {
    assert (es + [e])[..|es|] == es;
  }

  // A reader of answers that goes by the printed lengths.

  function Number(digits: string): Option<nat> {
    if digits == "" then Some(0)
    else
      var n, c := Number(digits[..|digits| - 1]), digits[|digits| - 1];
      if n.Some? && IsDigit(c) then Some(n.value * 10 + Digit(c)) else None
  }

  /** The text behind a fixed beginning. */
  function After(start: string, text: string): Option<string> {
    if start <= text then Some(text[|start|..]) else None
  }

  datatype Read = Read(items: Entries, rest: string)

  function ReadValue(key: string, text: string): Option<Read> {
    var d := Span(text, '\r');
    var size, body := Number(text[..d]), After("\r\n", text[d..]);
    if size.None? || body.None? || size.value > |body.value| then None
    else
      var rest := After("\r\n", body.value[size.value..]);
      if rest.None? then None else Some(Read([Entry(key, body.value[..size.value])], rest.value))
  }

  function ReadItem(text: string): Option<Read> {
    var line := After("VALUE ", text);
    if line.None? then None
    else
      var k := Span(line.value, ' ');
      var size := After(" 0 ", line.value[k..]);
      if size.None? then None else ReadValue(line.value[..k], size.value)
  }

  /** The items up to the end mark, and what follows it. */
  function ReadAnswer(text: string): Option<Read>
    decreases |text|
  {
    var end := After("END\r\n", text);
    if end.Some? then Some(Read([], end.value))
    else
      var item := ReadItem(text);
      if item.None? || |item.value.rest| >= |text| then None
      else
        var more := ReadAnswer(item.value.rest);
        if more.None? then None else Some(Read(item.value.items + more.value.items, more.value.rest))
  }

  lemma {:induction false} NumberOfDecimal(n: nat)
    ensures Number(Decimal(n)) == Some(n)
    ensures Free(Decimal(n), {'\r'})
  {
    if n < 10 {
      assert Decimal(n)[..0] == "";
    } else {
      NumberOfDecimal(n / 10);
      assert Decimal(n)[..|Decimal(n)| - 1] == Decimal(n / 10);
    }
  }

  lemma AfterStart(start: string, rest: string)
    ensures After(start, start + rest) == Some(rest)
  {}

  lemma ValueRead(e: Entry, rest: string)
    ensures ReadValue(e.key, Decimal(|e.value|) + ("\r\n" + (e.value + ("\r\n" + rest)))) == Some(Read([e], rest))
  {
    var behind := "\r\n" + rest;
    var body := "\r\n" + (e.value + behind);
    var digits := Decimal(|e.value|);
    NumberOfDecimal(|e.value|);
    SpanOf(digits, '\r', body);
    assert (digits + body)[..|digits|] == digits && (digits + body)[|digits|..] == body;
    AfterStart("\r\n", e.value + behind);
    assert (e.value + behind)[..|e.value|] == e.value && (e.value + behind)[|e.value|..] == behind;
    AfterStart("\r\n", rest);
  }

  lemma ItemRead(e: Entry, rest: string)
    requires Free(e.key, {' '})
    ensures ReadItem(PrintItem(e) + rest) == Some(Read([e], rest))
  {
    var sized := Decimal(|e.value|) + ("\r\n" + (e.value + ("\r\n" + rest)));
    var spaced := " 0 " + sized;
    assert PrintItem(e) + rest == "VALUE " + (e.key + spaced);
    AfterStart("VALUE ", e.key + spaced);
    SpanOf(e.key, ' ', spaced);
    assert (e.key + spaced)[..|e.key|] == e.key && (e.key + spaced)[|e.key|..] == spaced;
    AfterStart(" 0 ", sized);
    ValueRead(e, rest);
  }

  /** Reading takes back the printed items and goes on with what follows. */
  lemma {:induction false} ItemsRead(es: Entries, end: string, rest: string)
    requires forall i :: 0 <= i < |es| ==> Free(es[i].key, {' '})
    requires ReadAnswer(end) == Some(Read([], rest))
    ensures ReadAnswer(PrintItems(es) + end) == Some(Read(es, rest))
    decreases |es|
  {
    hide ReadAnswer; hide PrintItem;
    if es == [] {
      NothingBefore(PrintItems(es), end);
    } else {
      ItemsRead(es[1..], end, rest);
      ItemsStep(es[0], es[1..], PrintItems(es[1..]) + end, rest);
      FirstItem(es);
      Grouped(PrintItem(es[0]), PrintItems(es[1..]), end);
      assert [es[0]] + es[1..] == es;
    }
  }

  lemma ItemsStep(first: Entry, others: Entries, more: string, rest: string)
    requires Free(first.key, {' '})
    requires ReadAnswer(more) == Some(Read(others, rest))
    ensures ReadAnswer(PrintItem(first) + more) == Some(Read([first] + others, rest))
  {
    ItemRead(first, more);
    ItemStart(first);
    OneMoreItem(PrintItem(first), more, Read([first], more));
  }

  lemma NothingBefore(nothing: string, text: string)
    requires nothing == ""
    ensures nothing + text == text
  {}

  lemma Grouped(a: string, b: string, c: string)
    ensures (a + b) + c == a + (b + c)
  {}

  lemma ItemStart(e: Entry)
    ensures |PrintItem(e)| > 6 && PrintItem(e)[0] == 'V'
  {}

  lemma OneMoreItem(item: string, more: string, read: Read)
    requires |item| > 6 && item[0] == 'V' && ReadItem(item + more) == Some(read) && read.rest == more
    requires ReadAnswer(more).Some?
    ensures ReadAnswer(item + more) == Some(Read(read.items + ReadAnswer(more).value.items, ReadAnswer(more).value.rest))
  {
    hide ReadItem;
    assert (item + more)[0] == 'V';
    assert After("END\r\n", item + more) == None;
  }

  lemma {:induction false} FirstItem(es: Entries)
    requires es != []
    ensures PrintItems(es) == PrintItem(es[0]) + PrintItems(es[1..])
  {
    var n := |es| - 1;
    if n > 0 {
      FirstItem(es[..n]);
      assert es[..n][1..] == es[1..][..n - 1];
    }
  }

  /** The keys a header can carry are answered so that a reader finds exactly the present ones, with their
      values, in request order. */
  lemma AnswerDecodes(es: Entries, keys: seq<string>, rest: string)
    requires keys != [] && WellFormed(Retrieval("get", keys))
    ensures ReadAnswer(Answer(Found(es, keys)) + rest) == Some(Read(Found(es, keys), rest))
  {
    FoundKeys(es, keys);
    var items := Found(es, keys);
    assert Answer(items) + rest == PrintItems(items) + ("END\r\n" + rest);
    AfterStart("END\r\n", rest);
    ItemsRead(items, "END\r\n" + rest, rest);
  }

  lemma {:induction false} FoundKeys(es: Entries, keys: seq<string>)
    requires forall i :: 0 <= i < |keys| ==> Free(keys[i], {' ', '\r'})
    ensures forall i :: 0 <= i < |Found(es, keys)| ==> Free(Found(es, keys)[i].key, {' '})
  {
    if keys != [] {
      FoundKeys(es, keys[..|keys| - 1]);
      assert Free(keys[|keys| - 1], {' ', '\r'});
    }
  }
}
