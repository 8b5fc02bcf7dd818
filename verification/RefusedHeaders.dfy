/** Where a refused header leaves the parser: in the field whose number overflows, with its digits so far. */
module RefusedHeaders {
  import opened Basics
  import opened Parser
  import opened HeaderRoundTrip

  /** What is kept of a field of flags or bytes: the digits before the first one that wraps. */
  function KeptNumber(n: nat): nat {
    if !Wraps(n) then n % TWO_32
    else if Wraps(n / 10) then KeptNumber(n / 10)
    else n / 10 % TWO_32
  }

  /** What is kept of a sum of digits that must not pass top. */
  function KeptSum(n: nat, top: nat): int {
    if n < 10 || DigitSum(n) <= top then DigitSum(n) else KeptSum(n / 10, top)
  }

  function KeptTime(e: int): int { if e < 0 then -KeptSum(-e, TWO_31) else KeptSum(e, TWO_31 - 1) }

  lemma OneCharThrows(p: Progress, c: char)
    requires !p.complete && Step(p, c).None?
    ensures Scan(p, [c]) == Scanned(p, 0, true)
  {}

  lemma {:induction false} FlagsStop(p: Progress, n: nat)
    requires p.state == SpFlags && p.flags == 0 && !p.complete && Wraps(n)
    ensures Scan(p, Decimal(n)).threw && Scan(p, Decimal(n)).progress == p.(flags := KeptNumber(n))
  {
    FlagsRead(p, n / 10);
    ScanAppend(p, Decimal(n / 10), [DigitChar(n % 10)]);
    if Wraps(n / 10) {
      FlagsStop(p, n / 10);
    } else {
      NextDigitValue(n);
      OneCharThrows(p.(flags := n / 10 % TWO_32), DigitChar(n % 10));
    }
  }

  lemma {:induction false} BytesStop(p: Progress, n: nat)
    requires p.state == SpBytes && p.bytes == 0 && !p.complete && Wraps(n)
    ensures Scan(p, Decimal(n)).threw && Scan(p, Decimal(n)).progress == p.(bytes := KeptNumber(n))
  {
    BytesRead(p, n / 10);
    ScanAppend(p, Decimal(n / 10), [DigitChar(n % 10)]);
    if Wraps(n / 10) {
      BytesStop(p, n / 10);
    } else {
      NextDigitValue(n);
      OneCharThrows(p.(bytes := n / 10 % TWO_32), DigitChar(n % 10));
    }
  }

  lemma {:induction false} TimeStop(p: Progress, n: nat)
    requires p.state == SpExprTimeStart && p.exprtime == 0 && !p.negative && !p.complete && DigitSum(n) >= TWO_31
    ensures Scan(p, Decimal(n)).threw
    ensures Scan(p, Decimal(n)).progress == p.(state := SpExprTime, exprtime := KeptSum(n, TWO_31 - 1))
  {
    TimeRead(p, n / 10);
    DigitSumBelow(n / 10);
    ScanAppend(p, Decimal(n / 10), [DigitChar(n % 10)]);
    if DigitSum(n / 10) >= TWO_31 {
      TimeStop(p, n / 10);
    } else {
      var q := p.(state := SpExprTime, exprtime := DigitSum(n / 10));
      NextTime(q, DigitSum(n / 10), DigitChar(n % 10));
      OneCharThrows(q, DigitChar(n % 10));
    }
  }

  lemma {:induction false} NegativeTimeStop(p: Progress, n: nat)
    requires p.state == SpExprTime && p.exprtime == 0 && p.negative && !p.complete && DigitSum(n) > TWO_31
    ensures Scan(p, Decimal(n)).threw
    ensures Scan(p, Decimal(n)).progress == p.(exprtime := -KeptSum(n, TWO_31))
  {
    NegativeTimeRead(p, n / 10);
    DigitSumBelow(n / 10);
    ScanAppend(p, Decimal(n / 10), [DigitChar(n % 10)]);
    if DigitSum(n / 10) > TWO_31 {
      NegativeTimeStop(p, n / 10);
    } else {
      var q := p.(exprtime := -DigitSum(n / 10));
      NextTime(q, DigitSum(n / 10), DigitChar(n % 10));
      OneCharThrows(q, DigitChar(n % 10));
    }
  }

  lemma SignedTimeStop(p: Progress, e: int)
    requires p.state == SpExprTimeStart && p.exprtime == 0 && !p.negative && !p.complete && TimeOverflows(e)
    ensures Scan(p, Signed(e)).threw
    ensures Scan(p, Signed(e)).progress == p.(state := SpExprTime, exprtime := KeptTime(e), negative := e < 0)
  {
    if e >= 0 {
      TimeStop(p, e);
    } else {
      var q := p.(state := SpExprTime, negative := true);
      ReadsOne(p, '-', q);
      NegativeTimeStop(q, -e);
      ScanAppend(p, "-", Decimal(-e));
    }
  }

  /** The parser when a header has been refused. */
  function Stopped(p: Progress, h: Header): Progress
    requires Rejected(h)
  {
    if Wraps(h.flags) then AfterKey(p, h).(flags := KeptNumber(h.flags))
    else if TimeOverflows(h.expire) then
      AfterTime(p, h).(state := SpExprTime, exprtime := KeptTime(h.expire))
    else AfterTime(p, h).(bytes := KeptNumber(h.bytes))
  }

  function Head(h: Header): string
    requires h.Storage?
  {
    h.name + " " + (h.key + " ")
  }

  function Middle(h: Header): string
    requires h.Storage?
  {
    Decimal(h.flags) + " " + (Signed(h.expire) + " ")
  }

  /** A printed header around each of its numbers. */
  lemma Parts(h: Header, rest: string)
    requires h.Storage? && WellFormed(h)
    ensures Print(h) + rest == Head(h) + Decimal(h.flags) + (" " + (Signed(h.expire) + " ") + Decimal(h.bytes) + "\r\n" + rest)
    ensures Print(h) + rest
            == Head(h) + (Decimal(h.flags) + " ") + Signed(h.expire) + (" " + Decimal(h.bytes) + "\r\n" + rest)
    ensures Print(h) + rest == Head(h) + Middle(h) + Decimal(h.bytes) + ("\r\n" + rest)
  {
    Regroup(h.name + " ", h.key + " ", Decimal(h.flags), Signed(h.expire), Decimal(h.bytes), rest);
  }

  lemma Regroup(a: string, b: string, c: string, d: string, e: string, rest: string)
    ensures var all := a + b + (c + " ") + (d + " ") + e + "\r\n" + rest;
            && all == a + b + c + (" " + (d + " ") + e + "\r\n" + rest)
            && all == a + b + (c + " ") + d + (" " + e + "\r\n" + rest)
            && all == a + b + (c + " " + (d + " ")) + e + ("\r\n" + rest)
            && all == a + b + (c + " ") + (d + " ") + e + "\r\n" + rest
  {
    assert a + b + (c + " ") == a + b + c + " ";
    assert a + b + (c + " ") + (d + " ") == a + b + (c + " " + (d + " "));
    assert a + b + (c + " ") + (d + " ") == a + b + (c + " ") + d + " ";
  }

  lemma StopsThere(p: Progress, a: string, q: Progress, b: string, rest: string)
    requires Reads(p, a, q) && Scan(q, b).threw
    ensures Scan(p, a + b + rest).threw && Scan(p, a + b + rest).progress == Scan(q, b).progress
  {
    ScanAppend(p, a, b);
    ScanAppend(p, a + b, rest);
  }

  /** A refused header stops the parser where its first bad number is, whatever follows. */
  lemma HeaderStops(p: Progress, h: Header, rest: string)
    requires Fresh(p) && WellFormed(h) && Rejected(h)
    ensures var r := Scan(p, Print(h) + rest);
            r.threw && r.progress == Stopped(p, h)
  {
    KeyRead(p, h);
    Parts(h, rest);
    var a := AfterKey(p, h);
    var b := a.(flags := h.flags % TWO_32);
    var c := b.(state := SpExprTimeStart, negative := false);
    if Wraps(h.flags) {
      FlagsStop(a, h.flags);
      StopsThere(p, Head(h), a, Decimal(h.flags), " " + (Signed(h.expire) + " ") + Decimal(h.bytes) + "\r\n" + rest);
    } else if TimeOverflows(h.expire) {
      FlagsRead(a, h.flags);
      Spacing(a, Decimal(h.flags), b, c);
      SignedTimeStop(c, h.expire);
      ReadsTwo(p, Head(h), a, Decimal(h.flags) + " ", c);
      StopsThere(p, Head(h) + (Decimal(h.flags) + " "), c, Signed(h.expire), " " + Decimal(h.bytes) + "\r\n" + rest);
    } else {
      NumbersRead(p, h);
      BytesStop(AfterTime(p, h), h.bytes);
      ReadsTwo(p, Head(h), a, Middle(h), AfterTime(p, h));
      StopsThere(p, Head(h) + Middle(h), AfterTime(p, h), Decimal(h.bytes), "\r\n" + rest);
    }
  }
}
