/** The incremental parser of the text protocol's header line: one byte at a time, any chunking. */
module Parser {
  const TWO_32: nat := 0x1_0000_0000
  const TWO_31: nat := 0x8000_0000

  import opened Basics

  datatype State = SName | SpKey | SpFlags | SpExprTimeStart | SpExprTime | SpBytes | SgKey | SLF

  /** The fields of the parser. */
  datatype Progress = Progress(
    state: State, name: string, keys: seq<string>, curKey: string,
    flags: nat, exprtime: int, bytes: nat, negative: bool, complete: bool)

  /** What Reset leaves; negative is set before it is read. */
  const START := Progress(SName, "", [], "", 0, 0, 0, false, false)

  predicate StoresData(name: string) {
    name == "set" || name == "add" || name == "append" || name == "prepend"
  }

  predicate Retrieves(name: string) { name == "get" || name == "gets" }

  predicate IsDigit(c: char) { '0' <= c <= '9' }

  function Digit(c: char): nat
    requires IsDigit(c)
  {
    (c - '0') as nat
  }

  /** A signed 32-bit value, wrapping around. */
  function Wrap32(x: int): int { (x + TWO_31) % TWO_32 - TWO_31 }

  /** One more decimal digit of an unsigned 32-bit field; None is the overflow the parser notices. */
  function AddDigit(field: nat, c: char): Option<nat>
    requires IsDigit(c)
  {
    var f := (field * 10 + Digit(c)) % TWO_32;
    if f < field then None else Some(f)
  }

  /** One more digit of the expiration time, which is added to the digits before. */
  function AddTime(p: Progress, c: char): Option<int>
    requires IsDigit(c)
  {
    if p.negative then
      var et := Wrap32(p.exprtime - Digit(c));
      if et > p.exprtime then None else Some(et)
    else
      var et := Wrap32(p.exprtime + Digit(c));
      if et < p.exprtime then None else Some(et)
  }

  /** What one byte does; None where the parser throws. */
  function Step(p: Progress, c: char): Option<Progress> {
    match p.state
    case SName =>
      if c == ' ' || c == '\r' then
        if StoresData(p.name) then Some(p.(state := SpKey))
        else if Retrieves(p.name) then Some(p.(state := SgKey))
        else if p.name == "stats" then Some(p.(state := SLF))
        else None
      else Some(p.(name := p.name + [c]))
    case SpKey =>
      if c == ' ' then Some(p.(state := SpFlags, keys := p.keys + [p.curKey]))
      else Some(p.(curKey := p.curKey + [c]))
    case SgKey =>
      if c == '\r' then Some(p.(keys := p.keys + [p.curKey], curKey := "", state := SLF))
      else if c == ' ' then Some(p.(keys := p.keys + [p.curKey], curKey := ""))
      else Some(p.(curKey := p.curKey + [c]))
    case SpFlags =>
      if c == ' ' then Some(p.(negative := false, state := SpExprTimeStart))
      else if IsDigit(c) then
        var f := AddDigit(p.flags, c);
        if f.None? then None else Some(p.(flags := f.value))
      else Some(p)
    case SpExprTimeStart =>
      if c == '-' then Some(p.(negative := true, state := SpExprTime))
      else if IsDigit(c) then Some(p.(exprtime := Digit(c), state := SpExprTime))
      else Some(p)
    case SpExprTime =>
      if c == ' ' then Some(p.(state := SpBytes))
      else if IsDigit(c) then
        var et := AddTime(p, c);
        if et.None? then None else Some(p.(exprtime := et.value))
      else Some(p)
    case SpBytes =>
      if c == '\r' then Some(p.(state := SLF))
      else if IsDigit(c) then
        var b := AddDigit(p.bytes, c);
        if b.None? then None else Some(p.(bytes := b.value))
      else Some(p)
    case SLF => if c == '\n' then Some(p.(complete := true)) else None
  }

  /** The parser throws at an unknown name, at a digit that makes flags or byte count smaller modulo 2^32 or takes the
      time out of 32 bits, and at anything but a line feed behind the carriage return; nowhere else. */
  lemma ThrowsExactly(p: Progress, c: char)
    requires -0x8000_0000 <= p.exprtime < 0x8000_0000
    ensures Step(p, c).None? <==>
              || (p.state == SName && (c == ' ' || c == '\r') &&
                    p.name !in {"set", "add", "append", "prepend", "get", "gets", "stats"})
              || (p.state == SpFlags && '0' <= c <= '9' && (p.flags * 10 + (c - '0') as nat) % 0x1_0000_0000 < p.flags)
              || (p.state == SpBytes && '0' <= c <= '9' && (p.bytes * 10 + (c - '0') as nat) % 0x1_0000_0000 < p.bytes)
              || (p.state == SpExprTime && '0' <= c <= '9' && !p.negative && p.exprtime + (c - '0') as int >= 0x8000_0000)
              || (p.state == SpExprTime && '0' <= c <= '9' && p.negative && p.exprtime - (c - '0') as int < -0x8000_0000)
              || (p.state == SLF && c != '\n')
  {
    if p.state == SpExprTime && IsDigit(c) {
      WrapNear(if p.negative then p.exprtime - Digit(c) else p.exprtime + Digit(c));
    }
  }

  lemma WrapNear(x: int)
    requires -0x8000_0000 - 9 <= x < 0x8000_0000 + 9
    ensures Wrap32(x) == if x >= 0x8000_0000 then x - 0x1_0000_0000 else if x < -0x8000_0000 then x + 0x1_0000_0000 else x
  {}

  /** Only a line feed behind the carriage return completes a header, and no step before reads past it. */
  lemma CompletesExactly(p: Progress, c: char)
    requires !p.complete
    ensures Step(p, c).Some? && Step(p, c).value.complete <==> p.state == SLF && c == '\n'
  {}

  /** A known name says what follows; the fields of numbers skip what is neither a digit nor their end. */
  lemma NamesAndFillers(p: Progress, c: char)
    ensures p.state == SName && (c == ' ' || c == '\r') ==>
              && (p.name in {"set", "add", "append", "prepend"} ==> Step(p, c) == Some(p.(state := SpKey)))
              && (p.name in {"get", "gets"} ==> Step(p, c) == Some(p.(state := SgKey)))
              && (p.name == "stats" ==> Step(p, c) == Some(p.(state := SLF)))
    ensures !('0' <= c <= '9') && (p.state == SpFlags || p.state == SpExprTime) && c != ' ' ==> Step(p, c) == Some(p)
    ensures !('0' <= c <= '9') && p.state == SpExprTimeStart && c != '-' ==> Step(p, c) == Some(p)
    ensures !('0' <= c <= '9') && p.state == SpBytes && c != '\r' ==> Step(p, c) == Some(p)
  {}

  datatype Scanned = Scanned(progress: Progress, count: nat, threw: bool)

  /** Feeds bytes until the header is complete, the parser throws or the input ends. */
  function Scan(p: Progress, input: string): (r: Scanned)
    ensures r.count <= |input|
    decreases |input|
  {
    if input == [] || p.complete then Scanned(p, 0, false)
    else
      var q := Step(p, input[0]);
      if q.None? then Scanned(p, 0, true)
      else
        var r := Scan(q.value, input[1..]);
        r.(count := r.count + 1)
  }

  lemma {:induction false} ScanAppend(p: Progress, a: string, b: string)
    ensures var r := Scan(p, a);
            Scan(p, a + b) ==
              if r.threw || r.progress.complete then r
              else var s := Scan(r.progress, b); s.(count := s.count + |a|)
    decreases |a|
  {
    if a == [] {
      assert a + b == b;
    } else if !p.complete && Step(p, a[0]).Some? {
      assert (a + b)[1..] == a[1..] + b;
      ScanAppend(Step(p, a[0]).value, a[1..], b);
    }
  }

  function Joined(pieces: seq<string>): string {
    if pieces == [] then [] else Joined(pieces[..|pieces| - 1]) + pieces[|pieces| - 1]
  }

  /** The header text arriving in pieces, one call of the parser each, until it completes or throws. */
  function ScanPieces(p: Progress, pieces: seq<string>): Scanned {
    if pieces == [] then Scanned(p, 0, false)
    else
      var r := ScanPieces(p, pieces[..|pieces| - 1]);
      if r.threw || r.progress.complete then r
      else var s := Scan(r.progress, pieces[|pieces| - 1]); s.(count := s.count + r.count)
  }

  /** The way the input is cut into pieces makes no difference. */
  lemma {:induction false} CutsDoNotMatter(p: Progress, pieces: seq<string>)
    ensures ScanPieces(p, pieces) == Scan(p, Joined(pieces))
  {
    if pieces != [] {
      var front := pieces[..|pieces| - 1];
      CutsDoNotMatter(p, front);
      ScanAppend(p, Joined(front), pieces[|pieces| - 1]);
      AllConsumed(p, Joined(front));
    }
  }

  lemma {:induction false} AllConsumed(p: Progress, input: string)
    ensures var r := Scan(p, input); !r.threw && !r.progress.complete ==> r.count == |input|
    decreases |input|
  {
    if input != [] && !p.complete && Step(p, input[0]).Some? {
      AllConsumed(Step(p, input[0]).value, input[1..]);
    }
  }

  /** Up to the byte that completes the header, the parser neither throws nor completes. */
  lemma BeforeCompletion(p: Progress, input: string, k: nat)
    requires k < Scan(p, input).count
    ensures !Scan(p, input[..k]).threw && !Scan(p, input[..k]).progress.complete
  {
    ScanAppend(p, input[..k], input[k..]);
    assert input[..k] + input[k..] == input;
  }

  /** The parser keeps a first key as soon as it has passed the key of a storage command. */
  predicate Sound(p: Progress) {
    && (p.state == SpKey ==> StoresData(p.name))
    && (p.state in {SpFlags, SpExprTimeStart, SpExprTime, SpBytes} ==> StoresData(p.name) && p.keys != [])
    && (p.state == SLF && StoresData(p.name) ==> p.keys != [])
    && (p.state == SgKey ==> Retrieves(p.name))
    && (p.complete ==> p.state == SLF)
  }

  lemma StepSound(p: Progress, c: char)
    requires Sound(p)
    ensures Step(p, c).Some? ==> Sound(Step(p, c).value)
  {}

  lemma {:induction false} ScanSound(p: Progress, input: string)
    requires Sound(p)
    ensures Sound(Scan(p, input).progress)
    decreases |input|
  {
    if input != [] && !p.complete {
      StepSound(p, input[0]);
      if Step(p, input[0]).Some? {
        ScanSound(Step(p, input[0]).value, input[1..]);
      }
    }
  }

  datatype Command =
    | Set(key: string, flags: nat, expire: int)
    | Add(key: string, flags: nat, expire: int)
    | Append(key: string, flags: nat, expire: int)
    | Get(keys: seq<string>)
    | Stats

  datatype Built = NoCommand | Command(command: Command) | Unsupported

  function Build(p: Progress): Built
    requires Sound(p)
  {
    if p.state != SLF then NoCommand
    else if p.name == "set" then Command(Set(p.keys[0], p.flags, p.exprtime))
    else if p.name == "add" then Command(Add(p.keys[0], p.flags, p.exprtime))
    else if p.name == "append" then Command(Append(p.keys[0], p.flags, p.exprtime))
    else if p.name == "get" then Command(Get(p.keys))
    else if p.name == "stats" then Command(Stats)
    else Unsupported
  }

  datatype ParseResult = Complete | Incomplete | Threw

  /** What one call of Parse reports: the parser keeps its progress, also when it throws. */
  predicate Reports(r: Scanned, p: Progress, result: ParseResult, parsed: nat) {
    && p == r.progress
    && result == (if r.threw then Threw else if p.complete then Complete else Incomplete)
    && parsed == (if r.threw then 0 else r.count)
  }

  class HeaderParser {
    var state: State
    var name: string
    var keys: seq<string>
    var curKey: string
    var flags: nat
    var exprtime: int
    var bytes: nat
    var negative: bool
    var parseComplete: bool

    function Fields(): Progress
      reads this
    {
      Progress(state, name, keys, curKey, flags, exprtime, bytes, negative, parseComplete)
    }

    constructor ()
      ensures Fields() == START
    {
      state, name, keys, curKey, flags, exprtime, bytes, negative, parseComplete := SName, "", [], "", 0, 0, 0, false, false;
    }

    method Reset()
      modifies this
      ensures Fields() == START.(negative := old(negative))
    {
      state, name, keys, curKey, parseComplete := SName, "", [], "", false;
      flags, bytes, exprtime := 0, 0, 0;
    }

    /** One turn of the loop; false where the source throws. */
    method Consume(c: char) returns (ok: bool)
      modifies this
      ensures ok == Step(old(Fields()), c).Some?
      ensures Fields() == if ok then Step(old(Fields()), c).value else old(Fields())
    {
      ok := true;
      match state
      case SName =>
        if c == ' ' || c == '\r' {
          if name == "set" || name == "add" || name == "append" || name == "prepend" {
            state := SpKey;
          } else if name == "get" || name == "gets" {
            state := SgKey;
          } else if name == "stats" {
            state := SLF;
          } else {
            ok := false;
          }
        } else {
          name := name + [c];
        }
      case SpKey =>
        if c == ' ' {
          state := SpFlags;
          keys := keys + [curKey];
        } else {
          curKey := curKey + [c];
        }
      case SgKey =>
        if c == '\r' {
          keys := keys + [curKey];
          curKey := "";
          state := SLF;
        } else if c == ' ' {
          keys := keys + [curKey];
          curKey := "";
        } else {
          curKey := curKey + [c];
        }
      case SpFlags =>
        if c == ' ' {
          negative := false;
          state := SpExprTimeStart;
        } else if '0' <= c <= '9' {
          var f := (flags * 10 + (c - '0') as nat) % TWO_32;
          if f < flags {
            ok := false;
          } else {
            flags := f;
          }
        }
      case SpExprTimeStart =>
        if c == '-' {
          negative := true;
          state := SpExprTime;
        } else if '0' <= c <= '9' {
          exprtime := (c - '0') as int;
          state := SpExprTime;
        }
      case SpExprTime =>
        if c == ' ' {
          state := SpBytes;
        } else if '0' <= c <= '9' {
          var digit := (c - '0') as int;
          var et := Wrap32(if negative then exprtime - digit else exprtime + digit);
          if (negative && et > exprtime) || (!negative && et < exprtime) {
            ok := false;
          } else {
            exprtime := et;
          }
        }
      case SpBytes =>
        if c == '\r' {
          state := SLF;
        } else if '0' <= c <= '9' {
          var b := (bytes * 10 + (c - '0') as nat) % TWO_32;
          if b < bytes {
            ok := false;
          } else {
            bytes := b;
          }
        }
      case SLF =>
        if c == '\n' {
          parseComplete := true;
        } else {
          ok := false;
        }
    }

    method Parse(input: array<char>, size: nat) returns (result: ParseResult, parsed: nat)
      requires size <= input.Length
      modifies this
      ensures Reports(Scan(old(Fields()), input[..size]), Fields(), result, parsed)
    {
      ghost var whole := Scan(Fields(), input[..size]);
      var pos := 0;
      parsed := 0;
      while pos < size && !parseComplete
        invariant pos <= size
        invariant var rest := Scan(Fields(), input[pos..size]); whole == rest.(count := rest.count + pos)
        decreases size - pos
      {
        assert input[pos..size][1..] == input[pos + 1..size];
        var ok := Consume(input[pos]);
        if !ok {
          return Threw, 0;
        }
        pos := pos + 1;
      }
      parsed := parsed + pos;
      result := if parseComplete then Complete else Incomplete;
    }
  }
}
