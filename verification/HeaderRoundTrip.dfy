/** Printing a header line and parsing it back: exactly the headers that survive. */
module HeaderRoundTrip {
  import opened Basics
  import opened Parser

  datatype Header =
    | Storage(name: string, key: string, flags: nat, expire: int, bytes: nat)
    | Retrieval(name: string, keys: seq<string>)
    | Statistics

  function DigitChar(d: nat): (c: char)
    requires d < 10
    ensures IsDigit(c) && Digit(c) == d
  {
    '0' + d as char
  }

  function Decimal(n: nat): string {
    if n < 10 then [DigitChar(n)] else Decimal(n / 10) + [DigitChar(n % 10)]
  }

  function Signed(n: int): string {
    if n < 0 then "-" + Decimal(-n) else Decimal(n)
  }

  function DigitSum(n: nat): int {
    if n < 10 then n else DigitSum(n / 10) + n % 10
  }

  function Spaced(words: seq<string>): string
    requires words != []
  {
    if |words| == 1 then words[0] else Spaced(words[..|words| - 1]) + " " + words[|words| - 1]
  }

  function Print(h: Header): string
    requires WellFormed(h)
  {
    match h
    case Storage(name, key, flags, expire, bytes) =>
      name + " " + (key + " ") + (Decimal(flags) + " ") + (Signed(expire) + " ") + Decimal(bytes) + "\r\n"
    case Retrieval(name, keys) => name + " " + Spaced(keys) + "\r\n"
    case Statistics => "stats" + "\r\n"
  }

  predicate Free(word: string, stop: set<char>) {
    forall i :: 0 <= i < |word| ==> word[i] !in stop
  }

  predicate WellFormed(h: Header) {
    match h
    case Storage(name, key, _, _, _) => StoresData(name) && Free(key, {' '})
    case Retrieval(name, keys) =>
      Retrieves(name) && keys != [] && forall i :: 0 <= i < |keys| ==> Free(keys[i], {' ', '\r'})
    case Statistics => true
  }

  /** The numbers the parser's fields and its arithmetic keep. */
  predicate Representable(h: Header) {
    h.Storage? ==> h.flags < TWO_32 && -10 < h.expire < 10 && h.bytes < TWO_32
  }

  /** The parsed fields say what the header said. */
  predicate Carries(p: Progress, h: Header) {
    match h
    case Storage(name, key, flags, expire, bytes) =>
      p.name == name && p.keys == [key] && p.flags == flags && p.exprtime == expire && p.bytes == bytes
    case Retrieval(name, keys) => p.name == name && p.keys == keys && p.bytes == 0
    case Statistics => p.name == "stats" && p.keys == [] && p.bytes == 0
  }

  /** A parser that has been constructed or reset. */
  predicate Fresh(p: Progress) { p == START.(negative := p.negative) }

  /** p reads all of text, without throwing or completing, and is then q. */
  predicate Reads(p: Progress, text: string, q: Progress) {
    Scan(p, text) == Scanned(q, |text|, false) && !q.complete
  }

  lemma ReadsTwo(p: Progress, a: string, q: Progress, b: string, r: Progress)
    requires Reads(p, a, q) && Reads(q, b, r)
    ensures Reads(p, a + b, r)
  {
    ScanAppend(p, a, b);
  }

  lemma ReadsOne(p: Progress, c: char, q: Progress)
    requires !p.complete && Step(p, c) == Some(q) && !q.complete
    ensures Reads(p, [c], q)
  {
    assert [c][1..] == [];
    assert Scan(q, []) == Scanned(q, 0, false);
  }

  lemma {:induction false} ReadsName(p: Progress, word: string)
    requires p.state == SName && !p.complete && Free(word, {' ', '\r'})
    ensures Reads(p, word, p.(name := p.name + word))
    decreases |word|
  {
    if word != [] {
      ReadsName(p.(name := p.name + [word[0]]), word[1..]);
      assert p.name + [word[0]] + word[1..] == p.name + word;
    } else {
      assert p.name + word == p.name;
    }
  }

  lemma {:induction false} ReadsKey(p: Progress, word: string)
    requires !p.complete
    requires (p.state == SpKey && Free(word, {' '})) || (p.state == SgKey && Free(word, {' ', '\r'}))
    ensures Reads(p, word, p.(curKey := p.curKey + word))
    decreases |word|
  {
    if word != [] {
      ReadsKey(p.(curKey := p.curKey + [word[0]]), word[1..]);
      assert p.curKey + [word[0]] + word[1..] == p.curKey + word;
    } else {
      assert p.curKey + word == p.curKey;
    }
  }

  lemma {:induction false} ReadsKeys(p: Progress, words: seq<string>)
    requires p.state == SgKey && !p.complete && p.curKey == "" && words != []
    requires forall i :: 0 <= i < |words| ==> Free(words[i], {' ', '\r'})
    ensures Reads(p, Spaced(words), p.(keys := p.keys + words[..|words| - 1], curKey := words[|words| - 1]))
  {
    var n := |words| - 1;
    if n == 0 {
      ReadsKey(p, words[0]);
    } else {
      ReadsKeys(p, words[..n]);
      var q := p.(keys := p.keys + words[..n][..n - 1], curKey := words[..n][n - 1]);
      var r := q.(keys := q.keys + [q.curKey], curKey := "");
      ReadsOne(q, ' ', r);
      ReadsTwo(p, Spaced(words[..n]), q, " ", r);
      ReadsKey(r, words[n]);
      ReadsTwo(p, Spaced(words[..n]) + " ", r, words[n], r.(curKey := words[n]));
      assert words[..n][..n - 1] + [words[..n][n - 1]] == words[..n];
      assert r.keys == p.keys + words[..n];
    }
  }

  /** p throws somewhere in text, or reads all of it and is then q. */
  predicate MayRead(p: Progress, text: string, q: Progress) {
    !Scan(p, text).threw ==> Reads(p, text, q)
  }

  lemma MayReadTwo(p: Progress, a: string, q: Progress, b: string, r: Progress)
    requires MayRead(p, a, q) && MayRead(q, b, r)
    ensures MayRead(p, a + b, r)
    ensures Scan(p, a + b).threw <==> Scan(p, a).threw || Scan(q, b).threw
  {
    ScanAppend(p, a, b);
  }

  lemma NextCharRead(p: Progress, text: string, q: Progress, c: char, r: Progress)
    requires MayRead(p, text, q) && !q.complete && !r.complete
    requires Step(q, c).Some? ==> Step(q, c).value == r
    ensures MayRead(p, text + [c], r)
    ensures Scan(p, text + [c]).threw <==> Scan(p, text).threw || Step(q, c).None?
  {
    if Step(q, c).Some? {
      ReadsOne(q, c, r);
    }
    MayReadTwo(p, text, q, [c], r);
  }

  /** The numbers whose overflow the parser notices: some digit makes the wrapped value smaller than it was. */
  predicate Wraps(n: nat) {
    n >= 10 && (Wraps(n / 10) || n % TWO_32 < n / 10 % TWO_32)
  }

  lemma {:induction false} SmallNumbersFit(n: nat)
    ensures n < TWO_32 ==> !Wraps(n)
  {
    if n >= 10 {
      SmallNumbersFit(n / 10);
    }
  }

  /** A field of digits is rejected exactly if it wraps; else it becomes its value modulo 2^32. */
  lemma {:induction false} FlagsRead(p: Progress, n: nat)
    requires p.state == SpFlags && p.flags == 0 && !p.complete
    ensures Scan(p, Decimal(n)).threw <==> Wraps(n)
    ensures MayRead(p, Decimal(n), p.(flags := n % TWO_32))
  {
    if n < 10 {
      ReadsOne(p, DigitChar(n), p.(flags := n));
    } else {
      FlagsRead(p, n / 10);
      NextDigitValue(n);
      NextCharRead(p, Decimal(n / 10), p.(flags := n / 10 % TWO_32), DigitChar(n % 10), p.(flags := n % TWO_32));
    }
  }

  lemma {:induction false} BytesRead(p: Progress, n: nat)
    requires p.state == SpBytes && p.bytes == 0 && !p.complete
    ensures Scan(p, Decimal(n)).threw <==> Wraps(n)
    ensures MayRead(p, Decimal(n), p.(bytes := n % TWO_32))
  {
    if n < 10 {
      ReadsOne(p, DigitChar(n), p.(bytes := n));
    } else {
      BytesRead(p, n / 10);
      NextDigitValue(n);
      NextCharRead(p, Decimal(n / 10), p.(bytes := n / 10 % TWO_32), DigitChar(n % 10), p.(bytes := n % TWO_32));
    }
  }

  lemma NextDigitValue(n: nat)
    requires n >= 10
    ensures var next := AddDigit(n / 10 % TWO_32, DigitChar(n % 10));
            && (next.Some? ==> next.value == n % TWO_32)
            && (next.None? <==> n % TWO_32 < n / 10 % TWO_32)
  {
    NextDigit(n);
  }

  lemma NextDigit(n: nat)
    requires n >= 10
    ensures (n / 10 % TWO_32 * 10 + n % 10) % TWO_32 == n % TWO_32
  {
    var k, d := n / 10, n % 10;
    var w := k / TWO_32;
    assert k == w * TWO_32 + k % TWO_32;
    var m := k % TWO_32 * 10 + d;
    assert n == m + 10 * w * TWO_32;
    ModShift(m, 10 * w);
  }

  lemma {:induction false} ModShift(m: nat, k: nat)
    ensures (m + k * TWO_32) % TWO_32 == m % TWO_32
  {
    if k > 0 {
      ModShift(m, k - 1);
      assert m + k * TWO_32 == m + (k - 1) * TWO_32 + TWO_32;
    }
  }

  /** The parser adds up the digits of the expiration time; it throws exactly if the sum leaves 32 bits. */
  lemma {:induction false} TimeRead(p: Progress, n: nat)
    requires p.state == SpExprTimeStart && p.exprtime == 0 && !p.negative && !p.complete
    ensures Scan(p, Decimal(n)).threw <==> DigitSum(n) >= TWO_31
    ensures MayRead(p, Decimal(n), p.(state := SpExprTime, exprtime := DigitSum(n)))
  {
    if n < 10 {
      ReadsOne(p, DigitChar(n), p.(state := SpExprTime, exprtime := n));
    } else {
      TimeRead(p, n / 10);
      DigitSumBelow(n / 10);
      var q := p.(state := SpExprTime, exprtime := DigitSum(n / 10));
      if DigitSum(n / 10) >= TWO_31 {
        ScanAppend(p, Decimal(n / 10), [DigitChar(n % 10)]);
      } else {
        NextTime(q, DigitSum(n / 10), DigitChar(n % 10));
        NextCharRead(p, Decimal(n / 10), q, DigitChar(n % 10), q.(exprtime := DigitSum(n)));
      }
    }
  }

  lemma {:induction false} NegativeTimeRead(p: Progress, n: nat)
    requires p.state == SpExprTime && p.exprtime == 0 && p.negative && !p.complete
    ensures Scan(p, Decimal(n)).threw <==> DigitSum(n) > TWO_31
    ensures MayRead(p, Decimal(n), p.(exprtime := -DigitSum(n)))
  {
    if n < 10 {
      var value: int := n;
      ReadsOne(p, DigitChar(n), p.(exprtime := -value));
    } else {
      NegativeTimeRead(p, n / 10);
      DigitSumBelow(n / 10);
      var q := p.(exprtime := -DigitSum(n / 10));
      if DigitSum(n / 10) > TWO_31 {
        ScanAppend(p, Decimal(n / 10), [DigitChar(n % 10)]);
      } else {
        NextTime(q, DigitSum(n / 10), DigitChar(n % 10));
        NextCharRead(p, Decimal(n / 10), q, DigitChar(n % 10), q.(exprtime := -DigitSum(n)));
      }
    }
  }

  lemma WrapOnce(x: int)
    requires 0 <= x + TWO_31 + 10 <= TWO_32 + 20
    ensures Wrap32(x) == if x >= TWO_31 then x - TWO_32 else if x + TWO_31 < 0 then x + TWO_32 else x
  {}

  /** One digit more of a sum that has fitted so far. */
  lemma NextTime(q: Progress, sum: int, c: char)
    requires q.state == SpExprTime && sum >= 0 && IsDigit(c)
    requires if q.negative then -q.exprtime == sum <= TWO_31 else q.exprtime == sum < TWO_31
    ensures var next, more := Step(q, c), sum + Digit(c);
            && (next.None? <==> if q.negative then more > TWO_31 else more >= TWO_31)
            && (next.Some? ==> next.value == q.(exprtime := if q.negative then -more else more))
  {
    hide Wrap32;
    WrapOnce(if q.negative then q.exprtime - Digit(c) else q.exprtime + Digit(c));
  }

  lemma {:induction false} DigitSumBelow(n: nat)
    ensures 0 <= DigitSum(n) <= n && (DigitSum(n) == n <==> n < 10)
  {
    if n >= 10 {
      DigitSumBelow(n / 10);
    }
  }

  function SignedSum(e: int): int { if e < 0 then -DigitSum(-e) else DigitSum(e) }

  /** The times that are rejected. */
  predicate TimeOverflows(e: int) {
    if e < 0 then DigitSum(-e) > TWO_31 else DigitSum(e) >= TWO_31
  }

  lemma SignedTimeRead(p: Progress, e: int)
    requires p.state == SpExprTimeStart && p.exprtime == 0 && !p.negative && !p.complete
    ensures Scan(p, Signed(e)).threw <==> TimeOverflows(e)
    ensures MayRead(p, Signed(e), p.(state := SpExprTime, exprtime := SignedSum(e), negative := e < 0))
  {
    if e >= 0 {
      TimeRead(p, e);
    } else {
      var q := p.(state := SpExprTime, negative := true);
      ReadsOne(p, '-', q);
      NegativeTimeRead(q, -e);
      MayReadTwo(p, "-", q, Decimal(-e), q.(exprtime := SignedSum(e)));
    }
  }

  lemma Spacing(p: Progress, text: string, q: Progress, r: Progress)
    requires MayRead(p, text, q) && Step(q, ' ') == Some(r) && !q.complete && !r.complete
    ensures MayRead(p, text + " ", r)
    ensures Scan(p, text + " ").threw <==> Scan(p, text).threw
  {
    NextCharRead(p, text, q, ' ', r);
  }

  function AfterKey(p: Progress, h: Header): Progress
    requires h.Storage?
  {
    p.(state := SpFlags, name := h.name, keys := [h.key], curKey := h.key)
  }

  function AfterTime(p: Progress, h: Header): Progress
    requires h.Storage?
  {
    AfterKey(p, h).(state := SpBytes, flags := h.flags % TWO_32, exprtime := SignedSum(h.expire), negative := h.expire < 0)
  }

  lemma KeyRead(p: Progress, h: Header)
    requires Fresh(p) && h.Storage? && WellFormed(h)
    ensures Reads(p, h.name + " " + (h.key + " "), AfterKey(p, h))
  {
    var named := p.(name := h.name);
    var key := named.(state := SpKey);
    assert p.name + h.name == h.name && p.curKey + h.key == h.key && p.keys + [h.key] == [h.key];
    ReadsName(p, h.name);
    ReadsOne(named, ' ', key);
    ReadsTwo(p, h.name, named, " ", key);
    var keyed := key.(curKey := h.key);
    ReadsKey(key, h.key);
    ReadsOne(keyed, ' ', AfterKey(p, h));
    ReadsTwo(key, h.key, keyed, " ", AfterKey(p, h));
    ReadsTwo(p, h.name + " ", key, h.key + " ", AfterKey(p, h));
  }

  lemma NumbersRead(p: Progress, h: Header)
    requires Fresh(p) && h.Storage? && WellFormed(h)
    ensures MayRead(AfterKey(p, h), Decimal(h.flags) + " " + (Signed(h.expire) + " "), AfterTime(p, h))
    ensures Scan(AfterKey(p, h), Decimal(h.flags) + " " + (Signed(h.expire) + " ")).threw
            <==> Wraps(h.flags) || TimeOverflows(h.expire)
  {
    var a := AfterKey(p, h);
    var b := a.(flags := h.flags % TWO_32);
    var c := b.(state := SpExprTimeStart, negative := false);
    FlagsRead(a, h.flags);
    Spacing(a, Decimal(h.flags), b, c);
    var d := c.(state := SpExprTime, exprtime := SignedSum(h.expire), negative := h.expire < 0);
    SignedTimeRead(c, h.expire);
    Spacing(c, Signed(h.expire), d, AfterTime(p, h));
    MayReadTwo(a, Decimal(h.flags) + " ", c, Signed(h.expire) + " ", AfterTime(p, h));
  }

  lemma LineEnds(p: Progress, text: string, q: Progress, r: Progress)
    requires MayRead(p, text, q) && Step(q, '\r') == Some(r) && r.state == SLF && !r.complete
    ensures var s := Scan(p, text + "\r\n");
            && s.threw == Scan(p, text).threw
            && (!s.threw ==> s == Scanned(r.(complete := true), |text| + 2, false))
  {
    ScanAppend(p, text, "\r\n");
    if !Scan(p, text).threw {
      assert "\r\n"[1..] == "\n" && "\n"[1..] == [];
      var done := r.(complete := true);
      assert Scan(done, []) == Scanned(done, 0, false);
      assert Scan(r, "\n") == Scanned(done, 1, false);
      assert Scan(q, "\r\n") == Scanned(done, 2, false);
    }
  }

  /** The headers that are rejected. */
  predicate Rejected(h: Header) {
    h.Storage? && (Wraps(h.flags) || TimeOverflows(h.expire) || Wraps(h.bytes))
  }

  lemma RepresentableAccepted(h: Header)
    requires Representable(h)
    ensures !Rejected(h)
  {
    if h.Storage? {
      SmallNumbersFit(h.flags);
      SmallNumbersFit(h.bytes);
      SumSurvives(h.expire);
    }
  }

  function AfterBytes(p: Progress, h: Header): Progress
    requires h.Storage?
  {
    AfterTime(p, h).(bytes := h.bytes % TWO_32)
  }

  lemma FieldsRead(p: Progress, h: Header)
    requires Fresh(p) && h.Storage? && WellFormed(h)
    ensures var text := h.name + " " + (h.key + " ") + (Decimal(h.flags) + " " + (Signed(h.expire) + " ")) + Decimal(h.bytes);
            && MayRead(p, text, AfterBytes(p, h))
            && (Scan(p, text).threw <==> Rejected(h))
            && Print(h) == text + "\r\n"
  {
    hide Scan; hide Wraps; hide TimeOverflows; hide Decimal; hide Signed;
    KeyRead(p, h);
    NumbersRead(p, h);
    var head := h.name + " " + (h.key + " ");
    var middle := Decimal(h.flags) + " " + (Signed(h.expire) + " ");
    var t := AfterTime(p, h);
    BytesRead(t, h.bytes);
    MayReadTwo(p, head, AfterKey(p, h), middle, t);
    MayReadTwo(p, head + middle, t, Decimal(h.bytes), AfterBytes(p, h));
    Regrouped(h.name + " ", h.key + " ", Decimal(h.flags) + " ", Signed(h.expire) + " ", Decimal(h.bytes));
  }

  lemma Regrouped(a: string, b: string, c: string, d: string, e: string)
    ensures a + b + c + d + e + "\r\n" == a + b + (c + d) + e + "\r\n"
  {
    assert a + b + c + d == a + b + (c + d);
  }

  /** A storage header throws exactly if it is rejected; else it is read with its numbers damaged. */
  lemma StorageRead(p: Progress, h: Header)
    requires Fresh(p) && h.Storage? && WellFormed(h)
    ensures var r := Scan(p, Print(h));
            && (r.threw <==> Rejected(h))
            && (!r.threw ==> r == Scanned(AfterBytes(p, h).(state := SLF, complete := true), |Print(h)|, false))
  {
    hide Scan; hide Print; hide Rejected;
    FieldsRead(p, h);
    var text := h.name + " " + (h.key + " ") + (Decimal(h.flags) + " " + (Signed(h.expire) + " ")) + Decimal(h.bytes);
    LineEnds(p, text, AfterBytes(p, h), AfterBytes(p, h).(state := SLF));
  }

  function AfterKeys(p: Progress, h: Header): Progress
    requires h.Retrieval? && h.keys != []
  {
    var n := |h.keys| - 1;
    p.(state := SgKey, name := h.name, keys := h.keys[..n], curKey := h.keys[n])
  }

  lemma NameEnds(p: Progress)
    requires p.state == SName && !p.complete && Retrieves(p.name)
    ensures Reads(p, " ", p.(state := SgKey))
  {
    ReadsOne(p, ' ', p.(state := SgKey));
  }

  lemma RetrievalKeysRead(p: Progress, h: Header)
    requires Fresh(p) && h.Retrieval? && WellFormed(h)
    ensures Reads(p, h.name + " " + Spaced(h.keys), AfterKeys(p, h))
  {
    hide Scan; hide Spaced; hide StoresData;
    var named := p.(name := h.name);
    var key := named.(state := SgKey);
    assert p.name + h.name == h.name;
    ReadsName(p, h.name);
    NameEnds(named);
    ReadsTwo(p, h.name, named, " ", key);
    ReadsKeys(key, h.keys);
    ReadsTwo(p, h.name + " ", key, Spaced(h.keys), AfterKeys(p, h));
  }

  lemma RetrievalRead(p: Progress, h: Header)
    requires Fresh(p) && h.Retrieval? && WellFormed(h)
    ensures Scan(p, Print(h)) ==
              Scanned(p.(state := SLF, name := h.name, keys := h.keys, complete := true), |Print(h)|, false)
  {
    RetrievalKeysRead(p, h);
    hide Scan; hide Spaced;
    var n := |h.keys| - 1;
    assert h.keys[..n] + [h.keys[n]] == h.keys;
    LineEnds(p, h.name + " " + Spaced(h.keys), AfterKeys(p, h), p.(state := SLF, name := h.name, keys := h.keys));
  }

  lemma StatisticsRead(p: Progress)
    requires Fresh(p)
    ensures Scan(p, Print(Statistics)) == Scanned(p.(state := SLF, name := "stats", complete := true), 7, false)
  {
    ReadsName(p, "stats");
    LineEnds(p, "stats", p.(name := "stats"), p.(name := "stats", state := SLF));
  }

  lemma StorageSurvives(p: Progress, h: Header)
    requires Fresh(p) && h.Storage? && WellFormed(h)
    ensures var r := Scan(p, Print(h));
            && (r.threw ==> !Representable(h))
            && (!r.threw ==> r.progress.complete && r.count == |Print(h)| && (Carries(r.progress, h) <==> Representable(h)))
  {
    hide Scan; hide Print; hide Rejected;
    StorageRead(p, h);
    SumSurvives(h.expire);
    if Representable(h) {
      RepresentableAccepted(h);
    }
  }

  /** A printed header followed by anything, cut into any pieces, is parsed back up to its line feed and
      no further, with the same fields: exactly when the numbers are representable. */
  lemma RoundTrip(p: Progress, h: Header, rest: string, pieces: seq<string>)
    requires Fresh(p) && WellFormed(h)
    requires Joined(pieces) == Print(h) + rest
    ensures var r := ScanPieces(p, pieces);
            !r.threw && r.progress.complete && r.count == |Print(h)| && Carries(r.progress, h) <==> Representable(h)
  {
    CutsDoNotMatter(p, pieces);
    ScanAppend(p, Print(h), rest);
    match h
    case Storage(_, _, _, _, _) => StorageSurvives(p, h);
    case Retrieval(_, _) => RetrievalRead(p, h);
    case Statistics => StatisticsRead(p);
  }

  lemma SumSurvives(e: int)
    ensures SignedSum(e) == e <==> -10 < e < 10
  {
    DigitSumBelow(if e < 0 then -e else e);
  }

  /** The header as the parser reads it: flags and bytes modulo 2^32, and the sum of the digits of the time. */
  function Damaged(h: Header): Header {
    if h.Storage? then h.(flags := h.flags % TWO_32, expire := SignedSum(h.expire), bytes := h.bytes % TWO_32) else h
  }

  /** Whatever follows it, a header throws exactly if it is rejected; all others are parsed, up to their line
      feed, with the names and keys they have and the numbers damaged. */
  lemma WhatHeadersBecome(p: Progress, h: Header, rest: string)
    requires Fresh(p) && WellFormed(h)
    ensures var r := Scan(p, Print(h) + rest);
            && (r.threw <==> Rejected(h))
            && (!Rejected(h) ==> r.progress.complete && r.count == |Print(h)| && Carries(r.progress, Damaged(h)))
  {
    ScanAppend(p, Print(h), rest);
    hide Scan; hide Print; hide Rejected;
    match h
    case Storage(_, _, _, _, _) => StorageRead(p, h);
    case Retrieval(_, _) =>
      RetrievalRead(p, h);
      OnlyStorageRejected(h);
    case Statistics =>
      StatisticsRead(p);
      OnlyStorageRejected(h);
  }

  lemma OnlyStorageRejected(h: Header)
    ensures Rejected(h) ==> h.Storage?
  {}

  /** An overflow that goes unnoticed: ten thousand million is read as 1410065408. */
  lemma MissedOverflow(n: nat)
    requires n == 10_000_000_000
    ensures n >= TWO_32 && !Wraps(n) && n % TWO_32 == 1_410_065_408
  {
    SmallNumbersFit(n / 10);
  }
}
