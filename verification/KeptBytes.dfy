/** What comes of a refused header: the connection keeps its bytes and the parser its progress, so the next
    read feeds those bytes to a parser that stands in the middle of the header. */
module KeptBytes {
  import opened Basics
  import opened Parser
  import opened HeaderRoundTrip
  import opened RefusedHeaders
  import opened ClientSession
  import opened Requests

  /** What a field of bytes becomes over a text whose other characters are skipped. */
  function Gather(field: nat, text: string): Option<nat>
    decreases |text|
  {
    if text == "" then Some(field)
    else if !IsDigit(text[0]) then Gather(field, text[1..])
    else
      var next := AddDigit(field, text[0]);
      if next.None? then None else Gather(next.value, text[1..])
  }

  function Or<T>(o: Option<T>, other: T): T { if o.Some? then o.value else other }

  lemma {:induction false} GatherRead(p: Progress, text: string)
    requires p.state == SpBytes && !p.complete && '\r' !in text
    ensures Scan(p, text).threw <==> Gather(p.bytes, text).None?
    ensures MayRead(p, text, p.(bytes := Or(Gather(p.bytes, text), 0)))
    decreases |text|
  {
    if text != "" && Step(p, text[0]).Some? {
      GatherRead(Step(p, text[0]).value, text[1..]);
    }
  }

  /** No character that the fields of numbers take notice of. */
  predicate Plain(word: string) {
    forall i :: 0 <= i < |word| ==> word[i] != ' ' && word[i] != '-' && !IsDigit(word[i])
  }

  lemma {:induction false} SkipPlain(p: Progress, word: string)
    requires p.state == SpFlags || p.state == SpExprTimeStart || p.state == SpExprTime
    requires !p.complete && Plain(word)
    ensures Reads(p, word, p)
    decreases |word|
  {
    if word != "" {
      SkipPlain(p, word[1..]);
    }
  }

  // After refused flags: the parser waits for the end of the flags.

  /** The numbers behind the flags, which the second pass takes for one byte count. */
  function CountText(h: Header): string
    requires h.Storage?
  {
    Signed(h.expire) + " " + Decimal(h.bytes)
  }

  lemma {:induction false} DecimalHasNoReturn(n: nat)
    ensures '\r' !in Decimal(n)
  {
    if n >= 10 {
      DecimalHasNoReturn(n / 10);
    }
  }

  lemma CountTextHasNoReturn(h: Header)
    requires h.Storage?
    ensures '\r' !in CountText(h)
  {
    DecimalHasNoReturn(if h.expire < 0 then -h.expire else h.expire);
    DecimalHasNoReturn(h.bytes);
  }

  /** Where the second pass then stands in front of the byte count. */
  function SecondTime(q: Progress, h: Header): Progress
    requires h.Storage?
  {
    q.(state := SpBytes, negative := false, exprtime := DigitSum(h.flags))
  }

  lemma SecondName(q: Progress, h: Header)
    requires q.state == SpFlags && !q.complete && h.Storage? && WellFormed(h)
    ensures Reads(q, h.name + " ", q.(negative := false, state := SpExprTimeStart))
  {
    var t := q.(negative := false, state := SpExprTimeStart);
    SkipPlain(q, h.name);
    ReadsOne(q, ' ', t);
    ReadsTwo(q, h.name, q, " ", t);
  }

  lemma SecondTimeRead(q: Progress, h: Header)
    requires q.state == SpFlags && !q.complete && q.exprtime == 0
    requires h.Storage? && WellFormed(h) && Plain(h.key)
    ensures MayRead(q, Head(h) + (Decimal(h.flags) + " "), SecondTime(q, h))
    ensures Scan(q, Head(h) + (Decimal(h.flags) + " ")).threw <==> DigitSum(h.flags) >= TWO_31
  {
    var t := q.(negative := false, state := SpExprTimeStart);
    SecondName(q, h);
    SkipPlain(t, h.key);
    ReadsOne(t, ' ', t);
    ReadsTwo(t, h.key, t, " ", t);
    ReadsTwo(q, h.name + " ", t, h.key + " ", t);
    TimeRead(t, h.flags);
    Spacing(t, Decimal(h.flags), t.(state := SpExprTime, exprtime := DigitSum(h.flags)), SecondTime(q, h));
    hide Scan; hide Decimal; hide DigitSum;
    MayReadTwo(q, Head(h), t, Decimal(h.flags) + " ", SecondTime(q, h));
  }

  lemma CountRead(q: Progress, h: Header)
    requires q.state == SpFlags && !q.complete && q.exprtime == 0 && q.bytes == 0
    requires h.Storage? && WellFormed(h) && Plain(h.key)
    ensures var text := Head(h) + (Decimal(h.flags) + " ") + CountText(h);
            && MayRead(q, text, SecondTime(q, h).(bytes := Or(Gather(0, CountText(h)), 0)))
            && (Scan(q, text).threw <==> DigitSum(h.flags) >= TWO_31 || Gather(0, CountText(h)).None?)
            && Print(h) == text + "\r\n"
  {
    SecondTimeRead(q, h);
    CountTextHasNoReturn(h);
    GatherRead(SecondTime(q, h), CountText(h));
    assert Print(h) == Head(h) + (Decimal(h.flags) + " ") + (Signed(h.expire) + " ") + Decimal(h.bytes) + "\r\n";
    Grouped(Head(h) + (Decimal(h.flags) + " "), Signed(h.expire) + " ", Decimal(h.bytes));
    hide Scan; hide Decimal; hide DigitSum; hide Gather; hide Signed; hide Head;
    MayReadTwo(q, Head(h) + (Decimal(h.flags) + " "), SecondTime(q, h), CountText(h),
               SecondTime(q, h).(bytes := Or(Gather(0, CountText(h)), 0)));
  }

  lemma Grouped(a: string, b: string, c: string)
    ensures (a + b) + c == a + (b + c)
  {}

  /** In the time: every digit counts, a space ends it. */
  lemma {:induction false} TimeText(p: Progress, word: string)
    requires p.state == SpExprTime && !p.complete && ' ' !in word
    ensures Scan(p, word).threw
            || (Scan(p, word).progress.state == SpExprTime && Scan(p, word).progress.bytes == p.bytes
                && Reads(p, word, Scan(p, word).progress))
    decreases |word|
  {
    if word != "" && Step(p, word[0]).Some? {
      TimeText(Step(p, word[0]).value, word[1..]);
    }
  }

  lemma PlainWhole(word: string)
    requires word != "" && Plain(word[..1]) && Plain(word[1..])
    ensures Plain(word)
  {
    forall i | 0 <= i < |word| ensures word[i] != ' ' && word[i] != '-' && !IsDigit(word[i]) {
      assert word[i] == if i == 0 then word[..1][0] else word[1..][i - 1];
    }
  }

  lemma NotPlainTail(word: string)
    requires word != "" && Plain(word[..1]) && !Plain(word)
    ensures !Plain(word[1..])
  {
    if Plain(word[1..]) {
      PlainWhole(word);
    }
  }

  /** A key with a digit or a dash is taken for the time. */
  lemma {:induction false} KeyIsTime(p: Progress, key: string)
    requires p.state == SpExprTimeStart && !p.complete && ' ' !in key && !Plain(key)
    ensures Scan(p, key).threw
            || (Scan(p, key).progress.state == SpExprTime && Scan(p, key).progress.bytes == p.bytes
                && Reads(p, key, Scan(p, key).progress))
    decreases |key|
  {
    var next := Step(p, key[0]).value;
    if next.state == SpExprTime {
      TimeText(next, key[1..]);
    } else {
      assert next == p;
      NotPlainTail(key);
      KeyIsTime(p, key[1..]);
    }
  }

  /** And the flags, which have wrapped before, are then taken for the byte count, and wrap again. */
  lemma OddKeyThrows(q: Progress, h: Header)
    requires q.state == SpFlags && !q.complete && q.bytes == 0
    requires h.Storage? && WellFormed(h) && !Plain(h.key) && Wraps(h.flags)
    ensures Scan(q, Print(h)).threw
  {
    var t := q.(negative := false, state := SpExprTimeStart);
    SecondName(q, h);
    KeyIsTime(t, h.key);
    Parts(h, "");
    assert Print(h) + "" == Print(h);
    var tail := " " + (Signed(h.expire) + " ") + Decimal(h.bytes) + "\r\n" + "";
    Grouped(h.name + " ", h.key, " ");
    assert Head(h) == h.name + " " + h.key + " ";
    ScanAppend(q, h.name + " ", h.key);
    if !Scan(t, h.key).threw {
      var u := Scan(t, h.key).progress;
      var v := u.(state := SpBytes);
      ReadsTwo(q, h.name + " ", t, h.key, u);
      ReadsOne(u, ' ', v);
      ReadsTwo(q, h.name + " " + h.key, u, " ", v);
      BytesRead(v, h.flags);
      StopsThere(q, Head(h), v, Decimal(h.flags), tail);
    } else {
      ScanAppend(q, h.name + " " + h.key, " ");
      ScanAppend(q, Head(h), Decimal(h.flags));
      ScanAppend(q, Head(h) + Decimal(h.flags), tail);
    }
  }

  // After a refused time or byte count: everything up to the first line end is one byte count.

  /** The header up to the first return, which a key may hold. */
  function Line(h: Header): string
    requires h.Storage? && WellFormed(h)
  {
    Print(h)[..Span(Print(h), '\r')]
  }

  lemma LineOf(h: Header)
    requires h.Storage? && WellFormed(h)
    ensures |Line(h)| + 2 <= |Print(h)| && '\r' !in Line(h)
    ensures Print(h) == Line(h) + ['\r', Print(h)[|Line(h)| + 1]] + Print(h)[|Line(h)| + 2..]
  {
    var text := Print(h);
    assert text[|text| - 2] == '\r';
    hide Print;
    UpToReturn(text);
  }

  lemma UpToReturn(text: string)
    requires |text| >= 2 && text[|text| - 2] == '\r'
    ensures var i := Span(text, '\r');
            && i + 2 <= |text| && '\r' !in text[..i]
            && text == text[..i] + ['\r', text[i + 1]] + text[i + 2..]
  {
    SpanStops(text, '\r');
    SpanBefore(text, |text| - 2, '\r');
    hide Span;
    CutTwo(text, Span(text, '\r'));
  }

  lemma CutTwo(text: string, i: nat)
    requires i + 2 <= |text|
    ensures text == text[..i] + [text[i], text[i + 1]] + text[i + 2..]
  {
    assert text == text[..i] + text[i..i + 2] + text[i + 2..];
  }

  lemma GatherLine(p: Progress, line: string, c: char, rest: string)
    requires p.state == SpBytes && !p.complete && '\r' !in line
    ensures var r, count := Scan(p, line + ['\r', c] + rest), Gather(p.bytes, line);
            && (r.threw <==> count.None? || c != '\n')
            && (!r.threw ==>
                  r == Scanned(p.(state := SLF, bytes := Or(count, 0), complete := true), |line| + 2, false))
  {
    GatherRead(p, line);
    var q := p.(bytes := Or(Gather(p.bytes, line), 0));
    var u := q.(state := SLF);
    ScanAppend(p, line, ['\r', c]);
    ScanAppend(p, line + ['\r', c], rest);
    if !Scan(p, line).threw {
      assert ['\r', c][1..] == [c] && [c][1..] == [];
      assert Scan(q, ['\r', c]).threw == Scan(u, [c]).threw;
      if c == '\n' {
        var done := u.(complete := true);
        assert Scan(done, []) == Scanned(done, 0, false);
        assert Scan(u, [c]) == Scanned(done, 1, false);
      }
    }
  }

  lemma {:induction false} GatherSkips(field: nat, word: string, rest: string)
    requires forall i :: 0 <= i < |word| ==> !IsDigit(word[i])
    ensures Gather(field, word + rest) == Gather(field, rest)
    decreases |word|
  {
    if word == "" {
      assert word + rest == rest;
    } else {
      assert (word + rest)[1..] == word[1..] + rest;
      GatherSkips(field, word[1..], rest);
    }
  }

  /** In front of the byte count, or in the time, where the name's end brings the parser to it. */
  lemma LineIsCount(q: Progress, h: Header)
    requires (q.state == SpBytes || (q.state == SpExprTime && q.bytes == 0)) && !q.complete
    requires h.Storage? && WellFormed(h)
    ensures |Line(h)| + 2 <= |Print(h)|
    ensures var r, count := Scan(q, Print(h)), Gather(q.bytes, Line(h));
            && (r.threw <==> count.None? || Print(h)[|Line(h)| + 1] != '\n')
            && (!r.threw ==>
                  r == Scanned(q.(state := SLF, bytes := Or(count, 0), complete := true), |Line(h)| + 2, false))
  {
    LineOf(h);
    NameFirst(h);
    hide Print; hide Scan; hide Gather; hide Line;
    var line, c, rest := Line(h), Print(h)[|Line(h)| + 1], Print(h)[|Line(h)| + 2..];
    if q.state == SpBytes {
      GatherLine(q, line, c, rest);
    } else {
      NameThenLine(q, h.name, line[|h.name| + 1..], c, rest);
      assert h.name + " " + line[|h.name| + 1..] == line;
    }
  }

  lemma NameThenLine(q: Progress, name: string, tail: string, c: char, rest: string)
    requires q.state == SpExprTime && q.bytes == 0 && !q.complete && StoresData(name) && '\r' !in tail
    ensures var line := name + " " + tail;
            var r, count := Scan(q, line + ['\r', c] + rest), Gather(0, line);
            && (r.threw <==> count.None? || c != '\n')
            && (!r.threw ==>
                  r == Scanned(q.(state := SLF, bytes := Or(count, 0), complete := true), |line| + 2, false))
  {
    var v := q.(state := SpBytes);
    SkipPlain(q, name);
    ReadsOne(q, ' ', v);
    ReadsTwo(q, name, q, " ", v);
    GatherSkips(0, name + " ", tail);
    GatherLine(v, tail, c, rest);
    hide Scan; hide Gather;
    Grouped4(name + " ", tail, ['\r', c], rest);
    ScanAppend(q, name + " ", tail + ['\r', c] + rest);
  }

  lemma Grouped4(a: string, b: string, c: string, d: string)
    ensures a + b + c + d == a + (b + c + d)
  {}

  lemma NameFirst(h: Header)
    requires h.Storage? && WellFormed(h)
    ensures h.name + " " <= Line(h)
  {
    var name, text := h.name + " ", Print(h);
    assert name <= text && '\r' !in name;
    hide Print;
    StartsBefore(name, text, '\r');
  }

  lemma {:induction false} StartsBefore(start: string, text: string, stop: char)
    requires start <= text && stop !in start
    ensures start <= text[..Span(text, stop)]
  {
    if start != "" {
      StartsBefore(start[1..], text[1..], stop);
      assert text[..Span(text, stop)] == [text[0]] + text[1..][..Span(text[1..], stop)];
      assert start == [start[0]] + start[1..];
    }
  }

  // The second pass as a whole.

  /** The second pass gets through exactly if: after refused flags, the key is plain, the digits of the flags
      fit the time, and the rest fits the byte count; after a refused time or byte count, the line fits the byte
      count, and its end is a line end. */
  predicate BuiltAgain(h: Header)
    requires WellFormed(h) && Rejected(h)
  {
    if Wraps(h.flags) then Plain(h.key) && DigitSum(h.flags) < TWO_31 && Gather(0, CountText(h)).Some?
    else
      LineOf(h);
      Gather(BytesBefore(h), Line(h)).Some? && Print(h)[|Line(h)| + 1] == '\n'
  }

  /** The byte count when the header was refused. */
  function BytesBefore(h: Header): nat
    requires Rejected(h)
  {
    if Wraps(h.flags) || TimeOverflows(h.expire) then 0 else KeptNumber(h.bytes)
  }

  /** How much of the header the second pass takes: all of it, unless the key holds a line end. */
  function Length(h: Header): nat
    requires WellFormed(h) && Rejected(h)
  {
    if Wraps(h.flags) then |Print(h)| else |Line(h)| + 2
  }

  /** The header as it is read in the end. */
  function Mangled(h: Header): Header
    requires WellFormed(h) && Rejected(h)
  {
    if Wraps(h.flags) then
      h.(flags := KeptNumber(h.flags), expire := DigitSum(h.flags), bytes := Or(Gather(0, CountText(h)), 0))
    else
      h.(flags := h.flags % TWO_32,
         expire := if TimeOverflows(h.expire) then KeptTime(h.expire) else SignedSum(h.expire),
         bytes := Or(Gather(BytesBefore(h), Line(h)), 0))
  }

  /** The parser when the refused header is complete. */
  function CompletedAgain(p: Progress, h: Header): Progress
    requires WellFormed(h) && Rejected(h)
  {
    Stopped(p, h).(state := SLF, exprtime := Mangled(h).expire, bytes := Mangled(h).bytes,
                   negative := !Wraps(h.flags) && h.expire < 0, complete := true)
  }

  /** A refused header, fed once more to the parser that has refused it. */
  lemma SecondPass(p: Progress, h: Header)
    requires Fresh(p) && WellFormed(h) && Rejected(h)
    ensures Length(h) <= |Print(h)|
    ensures var r := Scan(Stopped(p, h), Print(h));
            && (r.threw <==> !BuiltAgain(h))
            && (!r.threw ==> r == Scanned(CompletedAgain(p, h), Length(h), false))
  {
    var q := Stopped(p, h);
    hide Scan; hide Gather; hide Print; hide DigitSum; hide Line;
    if !Wraps(h.flags) {
      LineIsCount(q, h);
    } else if Plain(h.key) {
      CountRead(q, h);
      hide CountText; hide Head;
      var u := SecondTime(q, h).(bytes := Or(Gather(0, CountText(h)), 0));
      LineEnds(q, Head(h) + (Decimal(h.flags) + " ") + CountText(h), u, u.(state := SLF));
    } else {
      OddKeyThrows(q, h);
    }
  }

  /** A command that was refused, and whose bytes are fed again, is built after all, with numbers of its own,
      exactly if there is such a command and the second pass gets through. */
  lemma RefusedIsBuilt(answers: Answers, s: Session, h: Header, rest: string)
    requires Idle(s) && WellFormed(h) && Rejected(h)
    ensures Ready(s) && Length(h) <= |Print(h)|
    ensures var first := Feed(answers, s, Print(h) + rest);
            && first.threw && first.session == s.(parser := Stopped(s.parser, h))
            && var again := first.session;
               if BuiltAgain(h) && Supported(h) then
                 var t := again.(parser := CompletedAgain(s.parser, h), command := Some(CommandOf(Mangled(h))),
                                 argRemains := BodySize(Mangled(h).bytes));
                 Feed(answers, again, Print(h)[..Length(h)]) == Fed(ExecuteIfDue(answers, t), Length(h), false)
               else
                 var second := Feed(answers, again, Print(h));
                 second.threw && second.session.executed == s.executed
  {
    HeaderStops(s.parser, h, rest);
    FeedHeader(answers, s, Print(h) + rest);
    var first := Feed(answers, s, Print(h) + rest).session;
    SecondPass(s.parser, h);
    FeedHeader(answers, first, Print(h));
    hide Scan; hide Feed; hide Print; hide Gather; hide Rejected; hide Length;
    BuildsAgain(s.parser, h);
  }

  lemma BuildsAgain(p: Progress, h: Header)
    requires Fresh(p) && WellFormed(h) && Rejected(h)
    ensures Sound(CompletedAgain(p, h))
    ensures Build(CompletedAgain(p, h)) == if Supported(h) then Built.Command(CommandOf(Mangled(h))) else Unsupported
    ensures CompletedAgain(p, h).bytes == Mangled(h).bytes
  {}

  /** The last digit wraps. */
  lemma WrapsNow(n: nat)
    requires n >= 10 && !Wraps(n / 10)
    ensures n % TWO_32 < n / 10 % TWO_32 ==> Wraps(n) && KeptNumber(n) == n / 10 % TWO_32
    ensures n % TWO_32 >= n / 10 % TWO_32 ==> !Wraps(n)
  {}

  lemma KeptOfNines(n: nat)
    requires n == 99_999_999_999
    ensures Wraps(n) && KeptNumber(n) == 1_410_065_407
  {
    hide Wraps; hide KeptNumber;
    SmallNumbersFit(n / 100);
    WrapsNow(n / 10);
    WrapsNow(n);
  }

  lemma ElevenNines(n: nat)
    requires n == 99_999_999_999
    ensures DigitSum(n) == 99
  {
    assert DigitSum(n / 1_000_000_000) == 18;
    assert DigitSum(n / 10_000_000) == 36;
    assert DigitSum(n / 100_000) == 54;
    assert DigitSum(n / 1_000) == 72;
    assert DigitSum(n / 10) == 90;
  }

  lemma TwoNumbers(h: Header)
    requires h.Storage? && h.expire == 0 && h.bytes == 5
    ensures CountText(h) == "0 5" && Gather(0, "0 5") == Some(5)
  {
    assert "0 5"[1..] == " 5" && " 5"[1..] == "5" && "5"[1..] == "";
  }

  /** The refused `set k 99999999999 0 5` comes back as one with flags 1410065407, time 99 and five bytes. */
  lemma RefusedFlags(h: Header)
    requires h == Storage("set", "k", 99_999_999_999, 0, 5)
    ensures WellFormed(h) && Rejected(h) && Supported(h) && BuiltAgain(h)
    ensures Mangled(h) == Storage("set", "k", 1_410_065_407, 99, 5)
  {
    KeptOfNines(h.flags);
    TwoNumbers(h);
    ElevenNines(h.flags);
    hide DigitSum; hide Wraps; hide KeptNumber; hide Gather; hide CountText;
  }

  /** One digit more of a number behind a field of bytes. */
  lemma GatherDigit(field: nat, n: nat, before: nat, after: nat)
    requires n >= 10 && Gather(field, Decimal(n / 10)) == Some(before)
    requires AddDigit(before, DigitChar(n % 10)) == Some(after)
    ensures Gather(field, Decimal(n)) == Some(after)
  {
    assert Gather(before, [DigitChar(n % 10)]) == Some(after);
    GatherAppend(field, Decimal(n / 10), [DigitChar(n % 10)]);
  }

  lemma {:induction false} GatherAppend(field: nat, a: string, b: string)
    ensures Gather(field, a + b) == if Gather(field, a).None? then None else Gather(Gather(field, a).value, b)
    decreases |a|
  {
    if a == "" {
      assert a + b == b;
    } else {
      assert (a + b)[1..] == a[1..] + b;
      if !IsDigit(a[0]) {
        GatherAppend(field, a[1..], b);
      } else if AddDigit(field, a[0]).Some? {
        GatherAppend(AddDigit(field, a[0]).value, a[1..], b);
      }
    }
  }

  lemma CountWraps(n: nat)
    requires n == 4_772_185_880
    ensures Wraps(n) && KeptNumber(n) == 477_218_588
  {
    hide Wraps; hide KeptNumber;
    SmallNumbersFit(n / 10);
    WrapsNow(n);
  }

  lemma CountAgain(field: nat, n: nat)
    requires field == 477_218_588 && n == 4_772_185_880
    ensures Gather(field, Decimal(n)) == Some(804_960_024)
  {
    assert Gather(field, Decimal(n / 1_000_000_000)) == Some(field);
    hide Decimal; hide Gather;
    GatherDigit(field, n / 100_000_000, field, 477_218_591);
    GatherDigit(field, n / 10_000_000, 477_218_591, 477_218_621);
    GatherDigit(field, n / 1_000_000, 477_218_621, 477_218_916);
    GatherDigit(field, n / 100_000, 477_218_916, 477_221_865);
    GatherDigit(field, n / 10_000, 477_221_865, 477_251_362);
    GatherDigit(field, n / 1_000, 477_251_362, 477_546_329);
    GatherDigit(field, n / 100, 477_546_329, 480_496_002);
    GatherDigit(field, n / 10, 480_496_002, 509_992_732);
    GatherDigit(field, n, 509_992_732, 804_960_024);
  }

  lemma NamesAgain(field: nat)
    requires field == 477_218_588
    ensures Gather(field, "set k 4 4 ") == Some(field)
  {
    GatherSkips(field, "set k ", "4 4 ");
    assert "set k " + "4 4 " == "set k 4 4 ";
    assert "4 4 "[1..] == " 4 " && " 4 "[1..] == "4 " && "4 "[1..] == " " && " "[1..] == "";
    assert AddDigit(field, '4') == Some(field);
  }

  lemma FourIsFine()
    ensures SignedSum(4) == 4 && !TimeOverflows(4)
  {}

  lemma LineOfCount(h: Header)
    requires h.Storage? && h == Storage("set", "k", 4, 4, h.bytes)
    ensures WellFormed(h) && Line(h) == "set k 4 4 " + Decimal(h.bytes) && Print(h) == Line(h) + "\r\n"
  {
    var line := "set k 4 4 " + Decimal(h.bytes);
    DecimalHasNoReturn(h.bytes);
    assert Decimal(4) == "4";
    assert Print(h) == line + "\r\n";
    hide Decimal; hide Print;
    SpanOf(line, '\r', "\r\n");
    assert (line + "\r\n")[..|line|] == line;
  }

  /** The refused `set k 4 4 4772185880` comes back as one that waits for 804960024 bytes. */
  lemma RefusedCount(h: Header)
    requires h == Storage("set", "k", 4, 4, 4_772_185_880)
    ensures WellFormed(h) && Rejected(h) && Supported(h) && BuiltAgain(h)
    ensures Mangled(h) == Storage("set", "k", 4, 4, 804_960_024)
  {
    hide Decimal; hide Gather; hide Wraps; hide KeptNumber; hide Print; hide Line; hide DigitSum; hide KeptTime;
    hide TimeOverflows; hide SignedSum; hide Signed;
    LineOfCount(h);
    CountWraps(h.bytes);
    SmallNumbersFit(4);
    FourIsFine();
    CountAgain(477_218_588, h.bytes);
    NamesAgain(477_218_588);
    GatherAppend(477_218_588, "set k 4 4 ", Decimal(h.bytes));
  }
}
