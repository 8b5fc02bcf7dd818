/** The connection of the single-threaded non-blocking server: chunked reads, partial writes and the
    event mask. */
module Connection {
  import opened Basics
  import opened Parser
  import opened ClientSession

  const BUFFER_SIZE: nat := 4096
  const WINDOW: nat := 64

  datatype Mask = Read | Write | ReadWrite

  datatype ReadOutcome = Drained | Stopped | Failed

  /** All response texts in execution order, each with the line end that the network layer adds. */
  function Output(executed: seq<Executed>): string {
    if executed == [] then []
    else Output(executed[..|executed| - 1]) + executed[|executed| - 1].answer + "\r\n"
  }

  /** Every answer goes out behind those before it, with a line end. */
  lemma OutputNext(executed: seq<Executed>, e: Executed)
    ensures Output([]) == ""
    ensures Output(executed + [e]) == Output(executed) + e.answer + "\r\n"
  {
    assert (executed + [e])[..|executed|] == executed;
  }

  lemma {:induction false} JoinedSplit(pieces: seq<string>, i: nat)
    requires i <= |pieces|
    ensures Joined(pieces) == Joined(pieces[..i]) + Joined(pieces[i..])
  {
    if i == |pieces| {
      assert pieces[..i] == pieces;
    } else {
      var n := |pieces| - 1;
      JoinedSplit(pieces[..n], i);
      assert pieces[..n][..i] == pieces[..i];
      assert pieces[..n][i..] == pieces[i..][..n - i];
    }
  }

  lemma JoinedNone()
    ensures Joined([]) == ""
  {}

  lemma JoinedNext(pieces: seq<string>, i: nat)
    requires i < |pieces|
    ensures Joined(pieces[..i + 1]) == Joined(pieces[..i]) + pieces[i]
  {
    assert pieces[..i + 1][..i] == pieces[..i];
  }

  /** Where reading stands: base has been fed everything but the bytes still buffered. */
  predicate Fits(answers: Answers, base: Session, input: string, s: Session, buffered: string)
    requires Ready(base)
  {
    && |buffered| <= |input|
    && var fed := |input| - |buffered|;
       buffered == input[fed..] && Feed(answers, base, input[..fed]) == Fed(s, fed, false)
  }

  /** What a read call has done with its input. */
  predicate Handled(answers: Answers, base: Session, input: string, outcome: ReadOutcome, s: Session, buffered: string)
    requires Ready(base)
  {
    match outcome
    case Drained => buffered == "" && Feed(answers, base, input) == Fed(s, |input|, false)
    case Stopped => Fits(answers, base, input, s, buffered)
    case Failed =>
      && |buffered| <= |input| && buffered == input[|input| - |buffered|..]
      && var f := Feed(answers, base, input); f.threw && f.session == s && |input| - |buffered| <= f.count
  }

  /** The session and the bytes left once the buffer has been searched for a header; not for a failure. */
  predicate HeaderTaken(base: Session, input: string, middle: Session, rest: string)
    requires Ready(base)
  {
    if base.command.Some? then middle == base && rest == input
    else
      ScanSound(base.parser, input);
      var r := Scan(base.parser, input);
      && !base.parser.complete && !r.threw
      && rest == input[r.count..]
      && middle == (if r.progress.complete then Completed(base, r.progress) else base.(parser := r.progress))
      && (r.progress.complete ==> middle.command.Some?)
  }

  function Taken(middle: Session, rest: string): nat {
    if middle.command.None? then 0
    else if middle.argRemains < |rest| then middle.argRemains else |rest|
  }

  /** The end of one turn: n bytes of the argument are taken, and a command that is due is run. */
  function TurnEnd(answers: Answers, middle: Session, rest: string): Session {
    var n := Taken(middle, rest);
    ExecuteIfDue(answers, middle.(argument := middle.argument + rest[..n], argRemains := middle.argRemains - n))
  }

  lemma HeaderFits(answers: Answers, base: Session, input: string, middle: Session, rest: string)
    requires Ready(base) && input != [] && HeaderTaken(base, input, middle, rest)
    ensures |rest| < |input| || (base == middle && base.command.Some? && rest == input)
    ensures middle.command.None? ==> rest == ""
    ensures middle.executed == base.executed
    ensures var k := |input| - |rest|;
            rest == input[k..] && Feed(answers, base, input[..k]) == Fed(ExecuteIfDue(answers, middle), k, false)
  {
    hide Feed; hide Sound; hide Step; hide Build;
    assert input[..0] == "";
    FeedNothing(answers, base);
    if base.command.None? {
      FeedHeader(answers, base, input);
      assert input[..|input|] == input;
    }
  }

  lemma FeedNothing(answers: Answers, s: Session)
    requires Ready(s)
    ensures Feed(answers, s, "") == Fed(s, 0, false)
  {}

  lemma ArgumentFits(answers: Answers, middle: Session, rest: string)
    requires Ready(middle) && middle.command.Some?
    ensures Fits(answers, middle, rest, TurnEnd(answers, middle, rest), rest[Taken(middle, rest)..])
  {
    var n := Taken(middle, rest);
    FeedArgument(answers, middle, rest[..n]);
    hide Feed;
    assert |rest| - |rest[n..]| == n;
  }

  lemma WaitingFits(answers: Answers, base: Session, input: string, middle: Session, rest: string)
    requires Ready(base) && HeaderTaken(base, input, middle, rest)
    requires middle.command.None? || middle.argRemains == 0
    requires |rest| <= |input|
    requires var k := |input| - |rest|;
             rest == input[k..] && Feed(answers, base, input[..k]) == Fed(ExecuteIfDue(answers, middle), k, false)
    ensures Fits(answers, base, input, TurnEnd(answers, middle, rest), rest[Taken(middle, rest)..])
  {
    hide Feed; hide Ready; hide HeaderTaken;
    assert middle.argument + rest[..0] == middle.argument;
    assert rest[0..] == rest;
  }

  lemma TurnStops(answers: Answers, middle: Session, rest: string)
    requires middle.command.None? ==> rest == ""
    ensures rest[Taken(middle, rest)..] == "" || |TurnEnd(answers, middle, rest).executed| > |middle.executed|
  {}

  /** Byte number k is the last of a command that runs. */
  predicate Runs(answers: Answers, base: Session, input: string, k: int)
    requires Ready(base)
  {
    0 < k <= |input| && |Feed(answers, base, input[..k - 1]).session.executed| < |Feed(answers, base, input[..k]).session.executed|
  }

  /** A header that is not followed by an argument runs its command at its last byte. */
  lemma HeaderRunsLast(answers: Answers, base: Session, input: string, middle: Session, rest: string)
    requires Ready(base) && input != [] && base.command.None? && HeaderTaken(base, input, middle, rest)
    requires middle.command.Some?
    ensures var k := |input| - |rest|; k > 0 && Feed(answers, base, input[..k - 1]).session.executed == base.executed
  {
    var k := |input| - |rest|;
    FeedHeader(answers, base, input);
    BeforeCompletion(base.parser, input, k - 1);
    hide Scan; hide Feed;
    FeedHeader(answers, base, input[..k - 1]);
  }

  /** An argument runs its command at its last byte. */
  lemma ArgumentRunsLast(answers: Answers, base: Session, input: string, middle: Session, rest: string)
    requires Ready(base) && Ready(middle) && middle.command.Some? && middle.argRemains <= |rest| <= |input|
    requires var k := |input| - |rest|; rest == input[k..] && Feed(answers, base, input[..k]) == Fed(middle, k, false)
    ensures var k := |input| - |rest| + middle.argRemains;
            k > 0 && Feed(answers, base, input[..k - 1]).session.executed == middle.executed
  {
    hide Feed; hide Sound;
    var k, n := |input| - |rest|, middle.argRemains;
    BeforeLast(answers, middle, rest[..n - 1]);
    FeedAppend(answers, base, input[..k], rest[..n - 1]);
    TakeMore(input, k, n - 1);
  }

  lemma BeforeLast(answers: Answers, middle: Session, more: string)
    requires Ready(middle) && middle.command.Some? && |more| == middle.argRemains - 1
    ensures Feed(answers, middle, more).session.executed == middle.executed
  {
    hide Feed;
    FeedArgument(answers, middle, more);
  }

  lemma TakeMore(input: string, k: nat, n: nat)
    requires k + n <= |input|
    ensures input[..k] + input[k..][..n] == input[..k + n]
  {}

  lemma NothingRunBefore(answers: Answers, base: Session, input: string, middle: Session, rest: string)
    requires Ready(base) && input != [] && HeaderTaken(base, input, middle, rest)
    requires middle.command.Some? && Taken(middle, rest) == middle.argRemains
    ensures var k := |input| - |rest[Taken(middle, rest)..]|;
            k > 0 && Feed(answers, base, input[..k - 1]).session.executed == base.executed
  {
    hide Feed; hide Sound; hide Step; hide Scan;
    HeaderFits(answers, base, input, middle, rest);
    if middle.argRemains == 0 {
      HeaderRunsLast(answers, base, input, middle, rest);
    } else {
      hide HeaderTaken;
      ArgumentRunsLast(answers, base, input, middle, rest);
    }
  }

  lemma TurnRuns(answers: Answers, base: Session, input: string, middle: Session, rest: string)
    requires Ready(base) && input != [] && HeaderTaken(base, input, middle, rest)
    ensures |TurnEnd(answers, middle, rest).executed| > |base.executed| ==>
              Runs(answers, base, input, |input| - |rest[Taken(middle, rest)..]|)
  {
    if |TurnEnd(answers, middle, rest).executed| > |base.executed| {
      hide Feed; hide HeaderTaken;
      TurnFits(answers, base, input, middle, rest);
      HeaderFits(answers, base, input, middle, rest);
      NothingRunBefore(answers, base, input, middle, rest);
    }
  }

  /** What a turn that does not fail has done. */
  lemma TurnDone(answers: Answers, base: Session, input: string, middle: Session, rest: string, t: Session, left: string)
    requires Ready(base) && input != [] && HeaderTaken(base, input, middle, rest)
    requires t == TurnEnd(answers, middle, rest) && left == rest[Taken(middle, rest)..]
    ensures Ready(t) && Fits(answers, base, input, t, left) && |left| < |input|
    ensures left == "" || |t.executed| > |base.executed|
    ensures |t.executed| > |base.executed| ==> Runs(answers, base, input, |input| - |left|)
  {
    TurnFits(answers, base, input, middle, rest);
    TurnRuns(answers, base, input, middle, rest);
  }

  lemma RunsLater(answers: Answers, base: Session, input: string, s: Session, buffered: string, k: int)
    requires Ready(base) && Fits(answers, base, input, s, buffered) && Runs(answers, s, buffered, k)
    ensures Runs(answers, base, input, |input| - |buffered| + k)
  {
    hide Feed; hide Ready;
    var fed := |input| - |buffered|;
    FeedAppend(answers, base, input[..fed], buffered[..k - 1]);
    FeedAppend(answers, base, input[..fed], buffered[..k]);
    assert input[..fed] + buffered[..k - 1] == input[..fed + k - 1];
    assert input[..fed] + buffered[..k] == input[..fed + k];
  }

  /** Where the kept bytes begin: behind the last command that has run, or where the last piece that was read
      begins if none has run in it. */
  predicate KeptFrom(answers: Answers, base: Session, input: string, piece: int, k: int)
    requires Ready(base)
  {
    && 0 <= piece <= k <= |input|
    && !Feed(answers, base, input[..k]).threw
    && Feed(answers, base, input[..k]).session.executed == Feed(answers, base, input).session.executed
    && (k == piece || Runs(answers, base, input, k))
  }

  lemma FailsFrom(answers: Answers, base: Session, input: string, s: Session, buffered: string, t: Session, piece: int)
    requires Ready(base) && Fits(answers, base, input, s, buffered) && Handled(answers, s, buffered, Failed, t, buffered)
    requires t.executed == s.executed && 0 <= piece <= |input| - |buffered|
    requires |input| - |buffered| == piece || Runs(answers, base, input, |input| - |buffered|)
    ensures KeptFrom(answers, base, input, piece, |input| - |buffered|)
  {
    hide Feed; hide Ready; hide Runs;
    FitsThenFails(answers, base, input, s, buffered, t, buffered);
  }

  lemma TurnFits(answers: Answers, base: Session, input: string, middle: Session, rest: string)
    requires Ready(base) && input != [] && HeaderTaken(base, input, middle, rest)
    ensures Fits(answers, base, input, TurnEnd(answers, middle, rest), rest[Taken(middle, rest)..])
    ensures |rest[Taken(middle, rest)..]| < |input|
    ensures rest[Taken(middle, rest)..] == "" || |TurnEnd(answers, middle, rest).executed| > |base.executed|
    ensures Ready(TurnEnd(answers, middle, rest))
  {
    hide Feed; hide HeaderTaken; hide TurnEnd; hide Ready; hide Fits; hide Taken;
    HeaderFits(answers, base, input, middle, rest);
    TurnStops(answers, middle, rest);
    TurnShrinks(base, input, middle, rest);
    if middle.command.Some? && middle.argRemains > 0 {
      HeaderAlone(answers, base, input, middle, rest);
      ArgumentFits(answers, middle, rest);
      FitsThen(answers, base, input, middle, rest, TurnEnd(answers, middle, rest), rest[Taken(middle, rest)..]);
    } else {
      WaitingFits(answers, base, input, middle, rest);
    }
    FitsReady(answers, base, input, TurnEnd(answers, middle, rest), rest[Taken(middle, rest)..]);
  }

  lemma TurnShrinks(base: Session, input: string, middle: Session, rest: string)
    requires Ready(base) && input != []
    requires |rest| < |input| || (base == middle && base.command.Some? && rest == input)
    ensures Taken(middle, rest) <= |rest| && |rest| - Taken(middle, rest) < |input|
  {}

  /** A header that leaves a command waiting has been fed alone. */
  lemma HeaderAlone(answers: Answers, base: Session, input: string, middle: Session, rest: string)
    requires Ready(base) && |rest| <= |input| && middle.command.Some? && middle.argRemains > 0
    requires var k := |input| - |rest|;
             rest == input[k..] && Feed(answers, base, input[..k]) == Fed(ExecuteIfDue(answers, middle), k, false)
    ensures Ready(middle) && Fits(answers, base, input, middle, rest)
  {
    hide Feed; hide Ready;
  }

  lemma FitsReady(answers: Answers, base: Session, input: string, s: Session, buffered: string)
    requires Ready(base) && Fits(answers, base, input, s, buffered)
    ensures Ready(s)
  {
    hide Feed; hide Ready;
  }

  lemma FitsThen(answers: Answers, base: Session, input: string, s: Session, buffered: string, t: Session, left: string)
    requires Ready(base) && Fits(answers, base, input, s, buffered) && Fits(answers, s, buffered, t, left)
    ensures Fits(answers, base, input, t, left)
  {
    hide Feed; hide Ready;
    var k := |input| - |buffered|;
    var n := |buffered| - |left|;
    FeedAppend(answers, base, input[..k], buffered[..n]);
    assert input[..k] + buffered[..n] == input[..k + n];
  }

  lemma FitsThenFails(answers: Answers, base: Session, input: string, s: Session, buffered: string, t: Session, left: string)
    requires Ready(base) && Fits(answers, base, input, s, buffered) && Handled(answers, s, buffered, Failed, t, left)
    ensures Handled(answers, base, input, Failed, t, left)
  {
    hide Feed; hide Ready;
    var k := |input| - |buffered|;
    FeedAppend(answers, base, input[..k], buffered);
    assert input[..k] + buffered == input;
  }

  lemma NothingFed(answers: Answers, base: Session, input: string)
    requires Ready(base)
    ensures Fits(answers, base, input, base, input)
  {}

  lemma AllFits(answers: Answers, base: Session, input: string, s: Session)
    requires Ready(base)
    ensures Handled(answers, base, input, Drained, s, "") <==> Fits(answers, base, input, s, "")
  {
    hide Feed; hide Ready;
    assert input[..|input|] == input;
  }

  lemma TookHeader(base: Session, input: string, middle: Session, rest: string)
    requires Ready(base) && base.command.None?
    requires var r := Scan(base.parser, input);
             && Sound(r.progress) && !r.threw && (r.progress.complete ==> Build(r.progress).Command?)
             && middle == (if !r.progress.complete then base.(parser := r.progress) else Completed(base, r.progress))
             && rest == input[r.count..]
    ensures HeaderTaken(base, input, middle, rest)
  {}

  lemma TookNoHeader(base: Session, input: string)
    requires Ready(base) && base.command.Some?
    ensures HeaderTaken(base, input, base, input)
  {}

  lemma HandledReady(answers: Answers, base: Session, input: string, s: Session, buffered: string)
    requires Ready(base) && Handled(answers, base, input, Failed, s, buffered)
    ensures Ready(s)
  {}

  lemma HeaderFails(answers: Answers, base: Session, input: string)
    requires Ready(base) && base.command.None?
    ensures var r := Scan(base.parser, input);
            && Sound(r.progress)
            && (r.threw || (r.progress.complete && !Build(r.progress).Command?) ==>
                  Handled(answers, base, input, Failed,
                          if r.threw || !r.progress.complete then base.(parser := r.progress) else Completed(base, r.progress),
                          input)
                  || input == [])
            && (r.progress.complete && Build(r.progress).Command? ==> Completed(base, r.progress).command.Some?)
            && (base.parser.complete ==> !r.threw && r.progress.complete && !Build(r.progress).Command?)
  {
    if base.parser.complete {
    } else {
      FeedHeader(answers, base, input);
    }
  }

  lemma FitsWithin(answers: Answers, base: Session, input: string, s: Session, buffered: string)
    requires Ready(base) && Fits(answers, base, input, s, buffered)
    ensures |buffered| <= |input|
  {}

  lemma StoppedFits(answers: Answers, base: Session, input: string, s: Session, buffered: string)
    requires Ready(base)
    ensures Handled(answers, base, input, Stopped, s, buffered) <==> Fits(answers, base, input, s, buffered)
  {}

  lemma DrainedBuffer(answers: Answers, base: Session, input: string, s: Session, buffered: string)
    requires Ready(base) && Handled(answers, base, input, Drained, s, buffered)
    ensures buffered == ""
  {}

  lemma MoreInput(answers: Answers, base: Session, input: string, s: Session, buffered: string, more: string)
    requires Ready(base) && Fits(answers, base, input, s, buffered)
    ensures Fits(answers, base, input + more, s, buffered + more)
  {
    hide Feed; hide Ready;
    var fed := |input| - |buffered|;
    assert (input + more)[..fed] == input[..fed];
    assert (input + more)[fed..] == buffered + more;
  }

  lemma BeginReady()
    ensures Ready(BEGIN)
  {}

  lemma StartFits(answers: Answers, start: Session, before: string, base: Session, input: string)
    requires Ready(start) && Feed(answers, start, before) == Fed(base, |before|, false)
    ensures Fits(answers, start, before + input, base, input)
  {
    hide Feed; hide Ready;
    assert (before + input)[..|before|] == before && (before + input)[|before|..] == input;
  }

  lemma FromTheStart(answers: Answers, start: Session, before: string, base: Session, input: string, outcome: ReadOutcome,
                     s: Session, buffered: string)
    requires Ready(start) && Ready(base) && Feed(answers, start, before) == Fed(base, |before|, false)
    requires Handled(answers, base, input, outcome, s, buffered)
    ensures Handled(answers, start, before + input, outcome, s, buffered)
  {
    hide Feed; hide Ready; hide Fits;
    StartFits(answers, start, before, base, input);
    match outcome
    case Drained =>
      AllFits(answers, base, input, s);
      FitsThen(answers, start, before + input, base, input, s, buffered);
      AllFits(answers, start, before + input, s);
    case Stopped => FitsThen(answers, start, before + input, base, input, s, buffered);
    case Failed => FitsThenFails(answers, start, before + input, base, input, s, buffered);
  }

  lemma StreamCut(first: string, stream: string, taken: nat, n: nat)
    requires taken + n <= |stream|
    ensures first + stream[..taken] + stream[taken..taken + n] == first + stream[..taken + n]
    ensures stream[..taken] + stream[taken..taken + n] == stream[..taken + n]
  {}

  /** The stop flag was seen set after each command run, except after the last one of a stopped read. */
  predicate RunSeen(run: nat -> bool, from: nat, to: nat, stopped: bool) {
    && from <= to
    && (forall k :: from < k < to ==> run(k))
    && (if stopped then from < to && !run(to) else from < to ==> run(to))
  }

  lemma NothingSeen(run: nat -> bool, n: nat)
    ensures RunSeen(run, n, n, false)
  {}

  lemma SeenGrows(run: nat -> bool, from: nat, to: nat, stopped: bool)
    requires RunSeen(run, from, to, stopped)
    ensures from <= to
  {}

  lemma SeenThen(run: nat -> bool, from: nat, mid: nat, to: nat, stopped: bool)
    requires RunSeen(run, from, mid, false) && RunSeen(run, mid, to, stopped)
    ensures RunSeen(run, from, to, stopped)
  {}

  function Min(a: nat, b: nat): nat { if a < b then a else b }

  function ReadSize(size: nat, room: nat, left: nat): nat { Min(size, Min(room, left)) }

  lemma ReadSizeFits(size: nat, room: nat, left: nat)
    ensures ReadSize(size, room, left) <= room && ReadSize(size, room, left) <= left
  {}

  /** The bytes taken when every read finds the whole buffer free. */
  function Accepted(sizes: seq<nat>, left: nat): nat {
    if sizes == [] then 0
    else
      var n := ReadSize(sizes[0], BUFFER_SIZE, left);
      if n == 0 then 0 else n + Accepted(sizes[1..], left - n)
  }

  lemma OfferedStart(responses: seq<string>, start: nat, ready: nat)
    requires ready <= |responses| && (if responses == [] then start == 0 else ready > 0 && start < |responses[0]|)
    ensures start <= |Joined(responses[..ready])|
    ensures responses != [] ==> start < |Joined(responses[..ready])|
  {
    if responses != [] {
      JoinedSplit(responses[..ready], 1);
      assert responses[..ready][..1] == [responses[0]];
      assert Joined([responses[0]]) == Joined([responses[0]][..0]) + responses[0];
    }
  }

  /** What is left after whole responses and the first rest bytes of the next one. */
  lemma DropFirst(responses: seq<string>, it: nat, rest: nat)
    requires it <= |responses| && (it < |responses| ==> rest < |responses[it]|)
    requires |Joined(responses[..it])| + rest <= |Joined(responses)|
    ensures it == |responses| ==> rest == 0
    ensures rest <= |Joined(responses[it..])|
    ensures Joined(responses)[|Joined(responses[..it])| + rest..] == Joined(responses[it..])[rest..]
  {
    JoinedSplit(responses, it);
  }

  /** The bytes of one write are the first of all pending ones. */
  lemma OfferedFirst(responses: seq<string>, start: nat, ready: nat)
    requires ready <= |responses| && start <= |Joined(responses[..ready])|
    ensures start <= |Joined(responses)|
    ensures Joined(responses[..ready])[start..] <= Joined(responses)[start..]
  {
    JoinedSplit(responses, ready);
  }

  lemma JoinedLast(pieces: seq<string>, last: string)
    ensures Joined(pieces + [last]) == Joined(pieces) + last
  {
    assert (pieces + [last])[..|pieces|] == pieces;
  }

  lemma Behind(sent: string, queued: string, start: nat, text: string)
    requires start <= |queued|
    ensures sent + (queued + text)[start..] == sent + queued[start..] + text
  {
    assert (queued + text)[start..] == queued[start..] + text;
  }

  lemma Grouped(a: string, b: string, c: string)
    ensures a + b + c == a + (b + c)
  {}

  /** What was sent and what is pending are the answers in order; a partly sent response is the first. */
  ghost predicate Queued(responses: seq<string>, dataStart: nat, sent: string, executed: seq<Executed>) {
    && (forall i :: 0 <= i < |responses| ==> |responses[i]| > 0)
    && (if responses == [] then dataStart == 0 else dataStart < |responses[0]|)
    && dataStart <= |Joined(responses)|
    && sent + Joined(responses)[dataStart..] == Output(executed)
  }

  lemma QueueStart()
    ensures Queued([], 0, "", [])
  {}

  lemma QueueGrows(responses: seq<string>, dataStart: nat, sent: string, executed: seq<Executed>, e: Executed)
    requires Queued(responses, dataStart, sent, executed)
    ensures Queued(responses + [e.answer + "\r\n"], dataStart, sent, executed + [e])
  {
    var text := e.answer + "\r\n";
    JoinedLast(responses, text);
    OutputNext(executed, e);
    hide Joined; hide Output;
    Behind(sent, Joined(responses), dataStart, text);
    Grouped(Output(executed), e.answer, "\r\n");
  }

  /** The bytes taken up to the end of the reads, when some are kept already. */
  function Reach(sizes: seq<nat>, kept: nat, left: nat): nat
    requires kept <= BUFFER_SIZE
  {
    if sizes == [] then 0
    else
      var n := ReadSize(sizes[0], BUFFER_SIZE - kept, left);
      if n == 0 then 0 else n + Accepted(sizes[1..], left - n)
  }

  lemma ReachStart(sizes: seq<nat>, kept: nat, left: nat)
    requires kept <= BUFFER_SIZE
    ensures sizes == [] ==> Reach(sizes, kept, left) == 0
    ensures sizes != [] ==>
              var n := ReadSize(sizes[0], BUFFER_SIZE - kept, left);
              Reach(sizes, kept, left) == if n == 0 then 0 else n + Accepted(sizes[1..], left - n)
  {}

  lemma ReachFits(sizes: seq<nat>, kept: nat, left: nat)
    requires kept <= BUFFER_SIZE
    ensures Reach(sizes, kept, left) <= left
    ensures kept == 0 ==> Reach(sizes, kept, left) == Accepted(sizes, left)
  {
    if sizes != [] {
      AcceptedFits(sizes[1..], left - ReadSize(sizes[0], BUFFER_SIZE - kept, left));
    }
  }

  lemma {:induction false} AcceptedFits(sizes: seq<nat>, left: nat)
    ensures Accepted(sizes, left) <= left
  {
    if sizes != [] {
      AcceptedFits(sizes[1..], left - ReadSize(sizes[0], BUFFER_SIZE, left));
    }
  }

  /** The stop flag stays down through that many commands. */
  predicate RunsOn(run: nat -> bool, from: nat, to: nat) {
    forall k :: from < k <= to ==> run(k)
  }

  lemma AcceptedNone(sizes: seq<nat>, i: nat, left: nat)
    requires i == |sizes|
    ensures Accepted(sizes[i..], left) == 0
  {}

  lemma AcceptedStep(sizes: seq<nat>, i: nat, left: nat)
    requires i < |sizes|
    ensures var n := ReadSize(sizes[i], BUFFER_SIZE, left);
            Accepted(sizes[i..], left) == if n == 0 then 0 else n + Accepted(sizes[i + 1..], left - n)
  {
    assert sizes[i..][1..] == sizes[i + 1..];
  }

  /** What a call has done that began with first in its buffer and took as much of stream, from being where its
      last read began: what it took is handled, a failure keeps the bytes behind the last command run, and
      unless it fails or is stopped it takes all that its reads reach. */
  predicate Took(answers: Answers, run: nat -> bool, sizes: seq<nat>, base: Session, first: string, stream: string,
                 outcome: ReadOutcome, taken: nat, from: nat, s: Session, left: string)
    requires Ready(base) && |first| <= BUFFER_SIZE
  {
    && taken <= |stream|
    && (if taken == 0 then outcome.Drained? && s == base && left == first
        else Handled(answers, base, first + stream[..taken], outcome, s, left))
    && (outcome.Failed? && |sizes| == 1 && |s.executed| == |base.executed| ==> left == first + stream[..taken])
    && (outcome.Failed? ==>
          && from < taken
          && KeptFrom(answers, base, first + stream[..taken],
                      if from == 0 then 0 else |first| + from, |first| + taken - |left|))
    && (|sizes| == 1 ==> from == 0)
    && (taken > 0 ==> sizes != [] && ReadSize(sizes[0], BUFFER_SIZE - |first|, |stream|) <= taken)
    && taken <= Reach(sizes, |first|, |stream|)
    && (outcome.Drained? ==> taken == Reach(sizes, |first|, |stream|))
    && RunSeen(run, |base.executed|, |s.executed|, outcome.Stopped?)
  }

  function Sum(sizes: seq<nat>): nat {
    if sizes == [] then 0 else Sum(sizes[..|sizes| - 1]) + sizes[|sizes| - 1]
  }

  lemma {:induction false} SumFirst(sizes: seq<nat>)
    requires sizes != []
    ensures Sum(sizes) == sizes[0] + Sum(sizes[1..])
  {
    var n := |sizes| - 1;
    if n > 0 {
      SumFirst(sizes[..n]);
      assert sizes[..n][1..] == sizes[1..][..n - 1];
    } else {
      assert Sum(sizes[..0]) == 0;
    }
  }

  /** Reads that deliver something each time take all that is delivered, or all there is. */
  lemma {:induction false} AcceptedIsSum(sizes: seq<nat>, left: nat)
    requires forall i :: 0 <= i < |sizes| ==> 0 < sizes[i] <= 4096
    ensures Accepted(sizes, left) == if Sum(sizes) <= left then Sum(sizes) else left
  {
    if sizes != [] {
      SumFirst(sizes);
      AcceptedIsSum(sizes[1..], left - ReadSize(sizes[0], BUFFER_SIZE, left));
    }
  }

  lemma ReachPlainly(sizes: seq<nat>, kept: nat, left: nat)
    requires kept <= BUFFER_SIZE
    ensures sizes != [] && sizes[0] > 0 && kept < 4096 && left > 0 ==> Reach(sizes, kept, left) > 0
    ensures |sizes| == 1 ==> Reach(sizes, kept, left) == ReadSize(sizes[0], BUFFER_SIZE - kept, left)
    ensures (sizes != [] ==> sizes[0] <= 4096 - kept) && (forall i :: 0 <= i < |sizes| ==> 0 < sizes[i] <= 4096) ==>
              Reach(sizes, kept, left) == if Sum(sizes) <= left then Sum(sizes) else left
  {
    hide Accepted; hide Sum;
    ReachStart(sizes, kept, left);
    if sizes == [] {
      NothingSummed();
    } else {
      SumFirst(sizes);
      var n := ReadSize(sizes[0], BUFFER_SIZE - kept, left);
      if |sizes| == 1 {
        AcceptedNone(sizes, 1, left - n);
      }
      if forall i :: 0 <= i < |sizes| ==> 0 < sizes[i] <= 4096 {
        AcceptedIsSum(sizes[1..], left - n);
      }
    }
  }

  lemma NothingSummed()
    ensures Sum([]) == 0
  {}

  /** How many bytes a call takes, by plain sizes: some if the first read delivers any and there is room; a single read
      the least of what it delivers, what there is room for and what there is left; and a call that ends because
      there is nothing more to read has taken all that its reads deliver. */
  lemma TakesPlainly(answers: Answers, run: nat -> bool, sizes: seq<nat>, base: Session, first: string, stream: string,
                     outcome: ReadOutcome, taken: nat, from: nat, s: Session, left: string)
    requires Ready(base) && |first| <= 4096
    requires Took(answers, run, sizes, base, first, stream, outcome, taken, from, s, left)
    ensures taken <= |stream|
    ensures sizes != [] && sizes[0] > 0 && |first| < 4096 && stream != "" ==> taken > 0
    ensures |sizes| == 1 ==>
              && taken <= sizes[0] && taken <= 4096 - |first|
              && (taken == sizes[0] || taken == 4096 - |first| || taken == |stream|)
    ensures outcome.Drained? && (sizes != [] ==> sizes[0] <= 4096 - |first|)
            && (forall i :: 0 <= i < |sizes| ==> 0 < sizes[i] <= 4096) ==>
              taken == if Sum(sizes) <= |stream| then Sum(sizes) else |stream|
  {
    hide Feed; hide Ready; hide KeptFrom; hide RunSeen; hide Handled; hide Reach; hide Sum;
    ReachPlainly(sizes, |first|, |stream|);
  }

  /** One pass over all that a call will be able to read, which can be made before the call. */
  function Outlook(answers: Answers, sizes: seq<nat>, base: Session, first: string, stream: string): Fed
    requires Ready(base) && |first| <= BUFFER_SIZE
  {
    ReachFits(sizes, |first|, |stream|);
    var reach := Reach(sizes, |first|, |stream|);
    if reach == 0 then Fed(base, 0, false) else Feed(answers, base, first + stream[..reach])
  }

  /** While the server runs, the call ends as foreseen. */
  lemma Foretold(answers: Answers, run: nat -> bool, sizes: seq<nat>, base: Session, first: string, stream: string,
                 outcome: ReadOutcome, taken: nat, from: nat, s: Session, left: string)
    requires Ready(base) && |first| <= BUFFER_SIZE
    requires Took(answers, run, sizes, base, first, stream, outcome, taken, from, s, left)
    ensures var f := Outlook(answers, sizes, base, first, stream);
            RunsOn(run, |base.executed|, |f.session.executed|) ==>
              !outcome.Stopped? && (outcome.Failed? <==> f.threw) && s == f.session
  {
    hide Feed; hide Ready; hide Reach; hide KeptFrom; hide RunsOn; hide Handled; hide RunSeen;
    ReachFits(sizes, |first|, |stream|);
    var reach := Reach(sizes, |first|, |stream|);
    if taken > 0 {
      ReadForetold(answers, run, base, first, stream, taken, reach, outcome, s, left);
    }
  }

  lemma TookMore(answers: Answers, run: nat -> bool, sizes: seq<nat>, base: Session, first: string, stream: string,
                 outcome: ReadOutcome, taken: nat, from: nat, s: Session, left: string)
    requires Ready(base) && |first| <= BUFFER_SIZE
    requires Took(answers, run, sizes, base, first, stream, outcome, taken, from, s, left)
    ensures taken <= |stream| && |base.executed| <= |s.executed|
    ensures RunSeen(run, |base.executed|, |s.executed|, outcome.Stopped?)
    ensures forall k :: |base.executed| < k < |s.executed| ==> run(k)
    ensures outcome.Stopped? <==> |s.executed| > |base.executed| && !run(|s.executed|)
  {
    hide Feed; hide Ready; hide KeptFrom; hide Handled; hide Reach;
  }

  /** A call on a connection that has been clean so far, seen from its very start. */
  lemma CleanRead(answers: Answers, run: nat -> bool, before: string, sizes: seq<nat>, base: Session, first: string, stream: string,
                  outcome: ReadOutcome, taken: nat, from: nat, s: Session, left: string)
    requires Ready(base) && first == "" && Feed(answers, BEGIN, before) == Fed(base, |before|, false)
    requires Took(answers, run, sizes, base, first, stream, outcome, taken, from, s, left)
    ensures Ready(BEGIN) && Handled(answers, BEGIN, before + stream[..taken], outcome, s, left)
    ensures outcome.Drained? ==> taken == Accepted(sizes, |stream|)
    ensures outcome.Drained? ==>
              left == "" && Feed(answers, BEGIN, before + stream[..taken]) == Fed(s, |before + stream[..taken]|, false)
  {
    hide Feed; hide Ready; hide Reach; hide KeptFrom; hide RunSeen;
    BeginReady();
    ReachFits(sizes, 0, |stream|);
    assert first + stream[..taken] == stream[..taken];
    if taken > 0 {
      FromTheStart(answers, BEGIN, before, base, stream[..taken], outcome, s, left);
    } else {
      assert before + stream[..taken] == before;
    }
  }

  lemma ReadForetold(answers: Answers, run: nat -> bool, base: Session, first: string, stream: string, taken: nat, reach: nat,
                     outcome: ReadOutcome, s: Session, buffered: string)
    requires Ready(base) && taken <= reach <= |stream| && (outcome.Drained? ==> taken == reach)
    requires Handled(answers, base, first + stream[..taken], outcome, s, buffered)
    requires RunSeen(run, |base.executed|, |s.executed|, outcome.Stopped?)
    ensures var f := Feed(answers, base, first + stream[..reach]);
            RunsOn(run, |base.executed|, |f.session.executed|) ==>
              !outcome.Stopped? && (outcome.Failed? <==> f.threw) && s == f.session
  {
    hide Feed; hide Ready;
    var input, more := first + stream[..taken], stream[taken..reach];
    assert input + more == first + stream[..reach];
    FeedAppend(answers, base, input, more);
    if outcome.Stopped? {
      var k := |input| - |buffered|;
      FeedAppend(answers, base, input[..k], buffered + more);
      FeedOnlyAppends(answers, s, buffered + more);
      assert input[..k] + (buffered + more) == input + more;
      assert !run(|s.executed|);
    }
  }

  class Connection {
    const answers: Answers
    const parser: HeaderParser
    const clientBuffer: array<char>
    var readBytes: nat
    var command: Option<Command>
    var argRemains: nat
    var argument: string
    var responses: seq<string>
    var dataStart: nat
    var mask: Mask
    var alive: bool

    /** Every command executed so far; the answers depend on it through its length. */
    var executed: seq<Executed>

    ghost var received: string
    ghost var sent: string
    /** No exception and no stop so far. */
    ghost var clean: bool

    function State(): Session
      reads this`command, this`argRemains, this`argument, this`executed, parser
    {
      Session(parser.Fields(), command, argRemains, argument, executed)
    }

    function Buffered(): string
      requires readBytes <= clientBuffer.Length
      reads this`readBytes, clientBuffer
    {
      clientBuffer[..readBytes]
    }

    ghost function Pending(): string
      requires dataStart <= |Joined(responses)|
      reads this`responses, this`dataStart
    {
      Joined(responses)[dataStart..]
    }

    ghost predicate Roomy()
      reads this`readBytes
    {
      clientBuffer.Length == BUFFER_SIZE && readBytes <= BUFFER_SIZE
    }

    ghost predicate Reading()
      reads this`readBytes, this`command, this`argRemains, this`argument, this`executed, parser
    {
      Roomy() && Ready(State())
    }

    ghost predicate Queue()
      reads this`responses, this`dataStart, this`sent, this`executed
    {
      Queued(responses, dataStart, sent, executed)
    }

    /** A live connection that asks for output has some. */
    ghost predicate MaskFits()
      reads this`alive, this`mask, this`responses
    {
      alive && mask != Read ==> responses != []
    }

    /** An answer waits, and the connection does not ask to write it. */
    ghost predicate Silent()
      reads this`alive, this`mask, this`responses
    {
      alive && responses != [] && mask == Read
    }

    /** So far one pass over all that was received. */
    ghost predicate Tracked()
      requires Reading()
      reads this`readBytes, this`command, this`argRemains, this`argument, this`executed, this`received, this`clean,
        parser, clientBuffer
    {
      clean ==> Buffered() == "" && Feed(answers, BEGIN, received) == Fed(State(), |received|, false)
    }

    ghost predicate Valid()
      reads this, parser, clientBuffer
    {
      && Reading()
      && Queue()
      && MaskFits()
      && (clean ==> !Silent())
      && Tracked()
    }

    constructor (answers: Answers)
      ensures Valid() && alive && clean && mask == Read
      ensures fresh(parser) && fresh(clientBuffer)
      ensures this.answers == answers && executed == [] && received == "" && sent == ""
    {
      hide Feed; hide Queued; hide Ready; hide Joined; hide Output;
      this.answers := answers;
      parser := new HeaderParser();
      clientBuffer := new char[BUFFER_SIZE];
      readBytes, command, argRemains, argument := 0, None, 0, "";
      responses, dataStart, mask, alive := [], 0, Read, true;
      executed, received, sent, clean := [], "", "", true;
      new;
      QueueStart();
      BeginReady();
      FeedNothing(answers, BEGIN);
    }

    /** Removes the first n bytes of the buffer. */
    method Shift(n: nat)
      requires clientBuffer.Length == BUFFER_SIZE && n <= readBytes <= BUFFER_SIZE
      modifies this`readBytes, clientBuffer
      ensures readBytes == old(readBytes) - n
      ensures Buffered() == old(Buffered())[n..]
    {
      forall i | 0 <= i < readBytes - n {
        clientBuffer[i] := clientBuffer[i + n];
      }
      readBytes := readBytes - n;
    }

    /** One read of the socket: size bytes of stream, starting at from. */
    method Receive(stream: string, from: nat, size: nat)
      requires clientBuffer.Length == BUFFER_SIZE && readBytes + size <= BUFFER_SIZE && from + size <= |stream|
      modifies this`readBytes, clientBuffer
      ensures readBytes == old(readBytes) + size
      ensures Buffered() == old(Buffered()) + stream[from..from + size]
    {
      forall i | 0 <= i < size {
        clientBuffer[readBytes + i] := stream[from + i];
      }
      readBytes := readBytes + size;
    }

    /** Runs the command and queues its answer. */
    method Execute()
      requires command.Some? && argRemains == 0 && Queue()
      modifies this`command, this`argument, this`responses, this`executed, parser
      ensures State() == ClientSession.Execute(answers, old(State()))
      ensures Queue() && responses == old(responses) + [answers(|old(executed)|, old(command).value, old(argument)) + "\r\n"]
      ensures command == None && argument == "" && parser.Fields() == START.(negative := old(parser.negative))
    {
      hide Queued;
      var result := answers(|executed|, command.value, argument);
      QueueGrows(responses, dataStart, sent, executed, Executed(command.value, argument, result));
      executed := executed + [Executed(command.value, argument, result)];
      responses := responses + [result + "\r\n"];
      command := None;
      argument := "";
      parser.Reset();
    }

    /** Looks for the header of the next command; false where the parser or the builder throws. */
    method ParseHeader() returns (ok: bool)
      requires Reading() && command.None?
      modifies this`readBytes, this`command, this`argRemains, parser, clientBuffer
      ensures readBytes <= BUFFER_SIZE
      ensures var r := Scan(old(State()).parser, old(Buffered()));
              && Sound(r.progress)
              && ok == !(r.threw || (r.progress.complete && !Build(r.progress).Command?))
              && State() == (if r.threw || !r.progress.complete then old(State()).(parser := r.progress)
                             else Completed(old(State()), r.progress))
              && Buffered() == if ok then old(Buffered())[r.count..] else old(Buffered())
    {
      ScanSound(parser.Fields(), Buffered());
      var result, parsed := parser.Parse(clientBuffer, readBytes);
      if result.Threw? {
        return false;
      }
      if result.Complete? {
        argRemains := parser.bytes;
        var built := Build(parser.Fields());
        if !built.Command? {
          return false;
        }
        command := Some(built.command);
        if argRemains > 0 {
          argRemains := argRemains + 2;
        }
      }
      Shift(parsed);
      ok := true;
    }

    /** Collects bytes of the argument. */
    method FillArgument()
      requires Roomy()
      modifies this`readBytes, this`argument, this`argRemains, clientBuffer
      ensures readBytes <= BUFFER_SIZE
      ensures var n := if old(argRemains) < old(readBytes) then old(argRemains) else old(readBytes);
              && Buffered() == old(Buffered())[n..]
              && argument == old(argument) + old(Buffered())[..n]
              && argRemains == old(argRemains) - n
    {
      var toRead := if argRemains < readBytes then argRemains else readBytes;
      argument := argument + clientBuffer[..toRead];
      assert clientBuffer[..toRead] == Buffered()[..toRead];
      Shift(toRead);
      argRemains := argRemains - toRead;
    }

    /** Takes what the buffer has of the argument and runs the command if that was all. */
    method FinishTurn(run: nat -> bool) returns (stopped: bool)
      requires Roomy() && Queue()
      modifies this`readBytes, this`command, this`argRemains, this`argument, this`responses, this`executed, parser, clientBuffer
      ensures readBytes <= BUFFER_SIZE && Queue() && |responses| - |old(responses)| == |executed| - |old(executed)|
      ensures State() == TurnEnd(answers, old(State()), old(Buffered()))
      ensures Buffered() == old(Buffered())[Taken(old(State()), old(Buffered()))..]
      ensures |executed| == |old(executed)| || |executed| == |old(executed)| + 1
      ensures stopped <==> |executed| > |old(executed)| && !run(|executed|)
      ensures stopped ==> responses != []
    {
      hide Joined; hide Output; hide Queued;
      assert argument + Buffered()[..0] == argument;
      if command.Some? && argRemains > 0 {
        FillArgument();
      }
      if command.Some? && argRemains == 0 {
        Execute();
        if !run(|executed|) {
          return true;
        }
      }
      stopped := false;
    }

    /** The first half of a turn: looks for a header unless a command waits for its argument. */
    method TakeHeader() returns (ok: bool)
      requires Reading() && readBytes > 0
      modifies this`readBytes, this`command, this`argRemains, parser, clientBuffer
      ensures Roomy()
      ensures ok ==> HeaderTaken(old(State()), old(Buffered()), State(), Buffered())
      ensures !ok ==> Handled(answers, old(State()), old(Buffered()), Failed, State(), Buffered())
      ensures !ok ==> Ready(State()) && Buffered() == old(Buffered())
    {
      hide Feed; hide Scan; hide Step; hide Completed; hide Build; hide Sound; hide Ready; hide Handled; hide HeaderTaken;
      ghost var base, input := State(), Buffered();
      if command.Some? {
        TookNoHeader(base, input);
        return true;
      }
      HeaderFails(answers, base, input);
      ok := ParseHeader();
      if ok {
        TookHeader(base, input, State(), Buffered());
      } else {
        HandledReady(answers, base, input, State(), Buffered());
      }
    }

    /** One turn of the loop over the buffer. */
    method ProcessOnce(run: nat -> bool) returns (outcome: ReadOutcome)
      requires Reading() && Queue() && readBytes > 0
      modifies this`readBytes, this`command, this`argRemains, this`argument, this`responses, this`executed, parser, clientBuffer
      ensures Reading() && Queue() && |responses| - |old(responses)| == |executed| - |old(executed)|
      ensures outcome.Failed? ==> Handled(answers, old(State()), old(Buffered()), Failed, State(), Buffered())
      ensures outcome.Failed? ==> Buffered() == old(Buffered()) && executed == old(executed)
      ensures !outcome.Failed? ==>
                Fits(answers, old(State()), old(Buffered()), State(), Buffered()) && readBytes < old(readBytes)
      ensures !outcome.Failed? ==> readBytes == 0 || |executed| > |old(executed)|
      ensures !outcome.Failed? && |executed| > |old(executed)| ==>
                Runs(answers, old(State()), old(Buffered()), |old(Buffered())| - |Buffered()|)
      ensures |executed| == |old(executed)| || |executed| == |old(executed)| + 1
      ensures RunSeen(run, |old(executed)|, |executed|, outcome.Stopped?)
      ensures outcome.Stopped? ==> responses != []
    {
      hide Feed; hide Completed; hide Ready; hide Fits; hide Handled; hide Taken; hide TurnEnd; hide Runs; hide HeaderTaken;
      hide Queued;
      ghost var base, input := State(), Buffered();
      var ok := TakeHeader();
      if !ok {
        return Failed;
      }
      ghost var middle, rest := State(), Buffered();
      var stopped := FinishTurn(run);
      TurnDone(answers, base, input, middle, rest, State(), Buffered());
      outcome := if stopped then Stopped else Drained;
    }

    /** The loop over the buffer. */
    method ProcessBuffer(run: nat -> bool, ghost base: Session, ghost input: string) returns (outcome: ReadOutcome)
      requires Reading() && Queue()
      requires Ready(base) && Fits(answers, base, input, State(), Buffered())
      modifies this`readBytes, this`command, this`argRemains, this`argument, this`responses, this`executed, parser, clientBuffer
      ensures Reading() && Queue() && |responses| - |old(responses)| == |executed| - |old(executed)|
      ensures Handled(answers, base, input, outcome, State(), Buffered())
      ensures outcome.Failed? && |executed| == |old(executed)| ==> Buffered() == old(Buffered())
      ensures outcome.Failed? ==>
                KeptFrom(answers, base, input, |input| - |old(Buffered())|, |input| - |Buffered()|)
      ensures RunSeen(run, |old(executed)|, |executed|, outcome.Stopped?)
      ensures outcome.Stopped? ==> responses != []
    {
      hide Feed; hide Joined; hide Output; hide Ready; hide Queued; hide Fits; hide Handled; hide RunSeen; hide Runs;
      hide KeptFrom;
      NothingSeen(run, |executed|);
      ghost var piece: int := |input| - |Buffered()|;
      FitsWithin(answers, base, input, State(), Buffered());
      while readBytes > 0
        invariant Reading() && Queue() && |responses| - |old(responses)| == |executed| - |old(executed)|
        invariant Fits(answers, base, input, State(), Buffered())
        invariant |executed| >= |old(executed)|
        invariant readBytes == 0 || |executed| > |old(executed)| || Buffered() == old(Buffered())
        invariant |Buffered()| <= |old(Buffered())|
        invariant readBytes == 0 || |input| - |Buffered()| == piece || Runs(answers, base, input, |input| - |Buffered()|)
        invariant RunSeen(run, |old(executed)|, |executed|, false)
        decreases readBytes
      {
        ghost var s, buffered, seen := State(), Buffered(), |executed|;
        outcome := ProcessOnce(run);
        SeenThen(run, |old(executed)|, seen, |executed|, outcome.Stopped?);
        if outcome.Failed? {
          FitsThenFails(answers, base, input, s, buffered, State(), Buffered());
          FailsFrom(answers, base, input, s, buffered, State(), piece);
          return;
        }
        if |executed| > seen {
          RunsLater(answers, base, input, s, buffered, |buffered| - |Buffered()|);
        }
        FitsThen(answers, base, input, s, buffered, State(), Buffered());
        if outcome.Stopped? {
          StoppedFits(answers, base, input, State(), Buffered());
          return;
        }
      }
      AllFits(answers, base, input, State());
      outcome := Drained;
    }

    /** One read of the socket and the processing of the buffer after it. */
    method ReadOnce(stream: string, from: nat, size: nat, run: nat -> bool, ghost base: Session, ghost input: string)
        returns (outcome: ReadOutcome)
      requires Reading() && Queue() && readBytes + size <= BUFFER_SIZE && from + size <= |stream|
      requires Ready(base) && Fits(answers, base, input, State(), Buffered())
      modifies this`readBytes, this`command, this`argRemains, this`argument, this`responses, this`executed, parser, clientBuffer
      ensures Reading() && Queue() && |responses| - |old(responses)| == |executed| - |old(executed)|
      ensures Handled(answers, base, input + stream[from..from + size], outcome, State(), Buffered())
      ensures outcome.Failed? && |executed| == |old(executed)| ==> Buffered() == old(Buffered()) + stream[from..from + size]
      ensures outcome.Failed? ==>
                KeptFrom(answers, base, input + stream[from..from + size], |input| - |old(Buffered())|,
                         |input| + size - |Buffered()|)
      ensures RunSeen(run, |old(executed)|, |executed|, outcome.Stopped?)
      ensures outcome.Stopped? ==> responses != []
    {
      hide Feed; hide Ready; hide Joined; hide Output; hide Queued; hide Fits; hide Handled; hide RunSeen; hide KeptFrom;
      ghost var more := stream[from..from + size];
      MoreInput(answers, base, input, State(), Buffered(), more);
      Receive(stream, from, size);
      outcome := ProcessBuffer(run, base, input + more);
    }

    /** Reads pieces of stream of the given sizes, as far as there is room, until there is nothing to read. */
    method ReadAll(stream: string, sizes: seq<nat>, run: nat -> bool)
        returns (outcome: ReadOutcome, taken: nat, ghost from: nat)
      requires Reading() && Queue()
      modifies this`readBytes, this`command, this`argRemains, this`argument, this`responses, this`executed, parser, clientBuffer
      ensures Reading() && Queue() && |responses| - |old(responses)| == |executed| - |old(executed)|
      ensures Took(answers, run, sizes, old(State()), old(Buffered()), stream, outcome, taken, from, State(), Buffered())
      ensures outcome.Stopped? ==> responses != []
    {
      hide Feed; hide Ready; hide Joined; hide Output; hide Queue; hide Queued; hide Fits; hide Handled; hide RunSeen; hide Accepted;
      hide KeptFrom; hide ReadSize;
      NothingSeen(run, |executed|);
      var i := 0;
      taken, from := 0, 0;
      outcome := Drained;
      ghost var base, first := State(), Buffered();
      assert first + stream[..0] == first;
      ReachStart(sizes, |first|, |stream|);
      hide Reach;
      NothingFed(answers, base, first);
      while i < |sizes|
        invariant Reading() && Queue() && |responses| - |old(responses)| == |executed| - |old(executed)|
        invariant taken <= |stream|
        invariant Fits(answers, base, first + stream[..taken], State(), Buffered())
        invariant if taken == 0 then State() == base && Buffered() == first else readBytes == 0
        invariant RunSeen(run, |old(executed)|, |executed|, false)
        invariant i <= |sizes| && (if i == 0 then taken == 0 && executed == old(executed) else taken > 0)
        invariant i > 0 ==> taken + Accepted(sizes[i..], |stream| - taken) == Reach(sizes, |first|, |stream|)
        invariant i <= 1 ==> from == 0
        invariant i > 0 ==> ReadSize(sizes[0], BUFFER_SIZE - |first|, |stream|) <= taken
        invariant outcome.Drained?
      {
        if i > 0 {
          AcceptedStep(sizes, i, |stream| - taken);
        }
        ReadSizeFits(sizes[i], BUFFER_SIZE - readBytes, |stream| - taken);
        var n := ReadSize(sizes[i], BUFFER_SIZE - readBytes, |stream| - taken);
        if n == 0 {
          break;
        }
        from := taken;
        StreamCut(first, stream, taken, n);
        ghost var seen := |executed|;
        outcome := ReadOnce(stream, taken, n, run, base, first + stream[..taken]);
        SeenThen(run, |old(executed)|, seen, |executed|, outcome.Stopped?);
        taken := taken + n;
        if !outcome.Drained? {
          return;
        }
        DrainedBuffer(answers, base, first + stream[..taken], State(), Buffered());
        AllFits(answers, base, first + stream[..taken], State());
        i := i + 1;
      }
      if i == |sizes| {
        AcceptedNone(sizes, i, |stream| - taken);
      }
      AllFits(answers, base, first + stream[..taken], State());
    }

    /** The reads of a call, and the record of what has been received. */
    method ReadOn(stream: string, sizes: seq<nat>, run: nat -> bool)
        returns (outcome: ReadOutcome, taken: nat, ghost from: nat)
      requires Reading() && Queue() && Tracked()
      modifies this`readBytes, this`command, this`argRemains, this`argument, this`responses, this`executed, this`received,
        this`clean, parser, clientBuffer
      ensures Reading() && Queue() && Tracked() && |responses| - |old(responses)| == |executed| - |old(executed)|
      ensures Took(answers, run, sizes, old(State()), old(Buffered()), stream, outcome, taken, from, State(), Buffered())
      ensures received == old(received) + stream[..taken]
      ensures clean == (old(clean) && outcome.Drained?)
      ensures old(clean) ==> Handled(answers, BEGIN, received, outcome, State(), Buffered())
      ensures old(clean) && outcome.Drained? ==> taken == Accepted(sizes, |stream|)
      ensures outcome.Stopped? ==> responses != []
    {
      hide Feed; hide Ready; hide Queue; hide Accepted; hide Handled; hide RunSeen; hide Reach; hide KeptFrom;
      ghost var base, first, before := State(), Buffered(), received;
      outcome, taken, from := ReadAll(stream, sizes, run);
      TookMore(answers, run, sizes, base, first, stream, outcome, taken, from, State(), Buffered());
      if clean {
        CleanRead(answers, run, before, sizes, base, first, stream, outcome, taken, from, State(), Buffered());
      }
      hide Took;
      received := received + stream[..taken];
      clean := clean && outcome.Drained?;
    }

    /** What the connection asks for after it has read; an exception leaves that as it was. */
    method AskAfterRead(outcome: ReadOutcome)
      requires MaskFits() && (outcome.Stopped? ==> responses != [])
      modifies this`mask
      ensures MaskFits()
      ensures Silent() <==> outcome.Failed? && alive && old(mask) == Read && responses != []
      ensures mask == match outcome
                      case Drained => if responses == [] then Read else ReadWrite
                      case Stopped => Write
                      case Failed => old(mask)
    {
      if outcome.Drained? {
        mask := if responses == [] then Read else ReadWrite;
      } else if outcome.Stopped? {
        mask := Write;
      }
    }

    /** The reading half of an event; from is where the last read of the stream began. */
    method DoRead(stream: string, sizes: seq<nat>, run: nat -> bool)
        returns (outcome: ReadOutcome, taken: nat, ghost from: nat)
      requires Valid()
      modifies this`readBytes, this`command, this`argRemains, this`argument, this`responses, this`executed, this`mask,
        this`received, this`clean, parser, clientBuffer
      ensures Valid()
      ensures |responses| - |old(responses)| == |executed| - |old(executed)|
      ensures Took(answers, run, sizes, old(State()), old(Buffered()), stream, outcome, taken, from, State(), Buffered())
      ensures received == old(received) + stream[..taken]
      ensures forall k :: |old(executed)| < k < |executed| ==> run(k)
      ensures outcome.Stopped? <==> |executed| > |old(executed)| && !run(|executed|)
      ensures var f := Outlook(answers, sizes, old(State()), old(Buffered()), stream);
              RunsOn(run, |old(executed)|, |f.session.executed|) ==>
                && !outcome.Stopped? && (outcome.Failed? <==> f.threw) && State() == f.session
                && (Silent() <==>
                    f.threw && alive && old(mask) == Read && (old(responses) != [] || |f.session.executed| > |old(executed)|))
      ensures Silent() <==> outcome.Failed? && alive && old(mask) == Read && responses != []
      ensures old(clean) ==>
                (Silent() <==> outcome.Failed? && alive && old(responses) == [] && |executed| > |old(executed)|)
      ensures old(clean) ==> Handled(answers, BEGIN, received, outcome, State(), Buffered())
      ensures old(clean) && outcome.Drained? ==> taken == Accepted(sizes, |stream|)
      ensures clean == (old(clean) && outcome.Drained?)
      ensures sizes != [] && sizes[0] > 0 && old(readBytes) < 4096 && stream != "" ==> taken > 0
      ensures |sizes| == 1 ==>
                && taken <= sizes[0] && taken <= 4096 - old(readBytes) && taken <= |stream|
                && (taken == sizes[0] || taken == 4096 - old(readBytes) || taken == |stream|)
      ensures outcome.Drained? && (sizes != [] ==> sizes[0] <= 4096 - old(readBytes))
              && (forall i :: 0 <= i < |sizes| ==> 0 < sizes[i] <= 4096) ==>
                taken == if Sum(sizes) <= |stream| then Sum(sizes) else |stream|
      ensures mask == match outcome
                      case Drained => if responses == [] then Read else ReadWrite
                      case Stopped => Write
                      case Failed => old(mask)
    {
      hide Feed; hide Ready; hide Queue; hide Accepted; hide Handled; hide RunSeen; hide Reach; hide RunsOn; hide KeptFrom;
      hide Tracked;
      ghost var base, first := State(), Buffered();
      outcome, taken, from := ReadOn(stream, sizes, run);
      Foretold(answers, run, sizes, base, first, stream, outcome, taken, from, State(), Buffered());
      TookMore(answers, run, sizes, base, first, stream, outcome, taken, from, State(), Buffered());
      TakesPlainly(answers, run, sizes, base, first, stream, outcome, taken, from, State(), Buffered());
      hide Took; hide Outlook; hide Silent; hide Sum;
      AskAfterRead(outcome);
    }

    method OnError()
      modifies this`alive
      ensures !alive
    {
      if alive {
        alive := false;
      }
    }

    method OnClose()
      modifies this`alive
      ensures !alive
    {
      if alive {
        alive := false;
      }
    }

    /** The bytes handed to one write: the pending part of at most WINDOW responses. */
    ghost function Offered(): string
      requires Queue()
      reads this`responses, this`dataStart, this`sent, this`executed
    {
      JoinedSplit(responses, Min(WINDOW, |responses|));
      OfferedStart(responses, dataStart, Min(WINDOW, |responses|));
      Joined(responses[..Min(WINDOW, |responses|)])[dataStart..]
    }

    /** Drops the responses that written more bytes complete. */
    method Advance(written: nat)
      requires Queue() && written <= |Pending()|
      modifies this`dataStart, this`responses, this`sent
      ensures Queue()
      ensures sent == old(sent) + old(Pending())[..written] && Pending() == old(Pending())[written..]
      ensures |responses| <= |old(responses)| && responses == old(responses)[|old(responses)| - |responses|..]
    {
      hide Output; hide Joined;
      ghost var at := dataStart + written;
      sent := sent + Pending()[..written];
      dataStart := dataStart + written;
      var it := 0;
      assert Joined(responses[..0]) == "" by { JoinedNone(); }
      while it < |responses| && dataStart >= |responses[it]|
        invariant it <= |responses| && responses == old(responses)
        invariant |Joined(responses[..it])| + dataStart == at
        invariant sent == old(sent) + old(Pending())[..written]
      {
        JoinedNext(responses, it);
        dataStart := dataStart - |responses[it]|;
        it := it + 1;
      }
      DropFirst(responses, it, dataStart);
      responses := responses[it..];
    }

    /** The bytes of one write are the first of all pending ones, and there are some. */
    lemma OfferedIsFirst()
      requires Queue() && responses != []
      ensures 0 < |Offered()| && Offered() <= Pending()
    {
      OfferedStart(responses, dataStart, Min(WINDOW, |responses|));
      OfferedFirst(responses, dataStart, Min(WINDOW, |responses|));
    }

    /** One write offers everything that is pending from 64 responses at most. */
    lemma OfferedPlainly()
      requires Queue() && responses != []
      ensures |responses| <= 64 ==> Offered() == Pending()
      ensures |responses| > 64 ==> |Offered()| == |Joined(responses[..64])| - dataStart
    {
      hide Queued; hide Joined;
      OfferedStart(responses, dataStart, Min(WINDOW, |responses|)) by { PartlySent(); }
      assert responses[..|responses|] == responses;
    }

    lemma PartlySent()
      requires Queue()
      ensures if responses == [] then dataStart == 0 else dataStart < |responses[0]|
    {}

    /** Fills the window of the write; its size in bytes. */
    method Offer() returns (size: nat)
      requires Queue() && responses != []
      ensures size == |Offered()|
    {
      var ready := if WINDOW < |responses| then WINDOW else |responses|;
      var total := 0;
      for i := 0 to ready
        invariant total == |Joined(responses[..i])|
      {
        JoinedNext(responses, i);
        total := total + |responses[i]|;
      }
      OfferedStart(responses, dataStart, ready);
      size := total - dataStart;
    }

    /** After a write: what the connection waits for next, if anything. */
    method AskFor(running: bool)
      modifies this`mask, this`alive
      ensures alive == (old(alive) && (responses != [] || running))
      ensures alive ==> mask == if responses == [] then Read else if running then ReadWrite else Write
      ensures MaskFits() && !Silent()
    {
      if responses == [] {
        if running {
          mask := Read;
        } else {
          OnClose();
        }
      } else {
        mask := if running then ReadWrite else Write;
      }
    }

    /** The gathered write itself: the socket accepts some of the offered bytes, or none. */
    method WriteV(accepts: int) returns (written: int)
      requires Queue() && responses != []
      ensures written == if accepts < |Offered()| then accepts else |Offered()|
      ensures written <= |Pending()| && (written > 0 ==> Offered()[..written] == Pending()[..written])
      ensures written > 0 <==> accepts > 0
      ensures |responses| <= 64 ==> written == if accepts < |Pending()| then accepts else |Pending()|
      ensures |responses| > 64 ==>
                written == if accepts < |Joined(responses[..64])| - dataStart then accepts else |Joined(responses[..64])| - dataStart
    {
      hide Queued; hide Joined;
      OfferedIsFirst();
      OfferedPlainly();
      var offered := Offer();
      written := if accepts < offered then accepts else offered;
    }

    /** What the event of a writable socket does; again tells a refusal from an error. */
    method DoWrite(accepts: int, again: bool, running: bool) returns (written: int)
      requires Valid() && responses != []
      modifies this`dataStart, this`responses, this`sent, this`mask, this`alive
      ensures Valid()
      ensures written == if accepts < |old(Offered())| then accepts else |old(Offered())|
      ensures written <= |old(Pending())| && (written > 0 <==> accepts > 0)
      ensures |old(responses)| <= 64 ==> written == if accepts < |old(Pending())| then accepts else |old(Pending())|
      ensures if written > 0
              then sent == old(sent) + old(Pending())[..written] && Pending() == old(Pending())[written..]
              else sent == old(sent) && responses == old(responses) && dataStart == old(dataStart)
      ensures State() == old(State()) && Buffered() == old(Buffered()) && received == old(received)
      ensures alive == (old(alive) && !(accepts < 0 && !again) && (responses != [] || running))
      ensures alive ==> mask == if responses == [] then Read else if running then ReadWrite else Write
      ensures !Silent()
    {
      assert responses != [];
      hide Feed; hide Ready; hide Joined; hide Output; hide Queued; hide Offered; hide Reading;
      written := WriteV(accepts);
      if written <= 0 {
        if !again && written < 0 {
          OnError();
          return;
        }
        mask := if running then ReadWrite else Write;
        return;
      }
      Advance(written);
      AskFor(running);
    }

    /** One event of the loop: only what the mask asks for is reported, besides errors and hang-ups. */
    method HandleEvent(error: bool, hangup: bool, input: bool, output: bool,
                       stream: string, sizes: seq<nat>, run: nat -> bool, accepts: int, again: bool, running: bool)
        returns (outcome: ReadOutcome, taken: nat)
      requires Valid() && alive
      requires input ==> mask != Write
      requires output ==> mask != Read
      modifies this, parser, clientBuffer
      ensures Valid()
      ensures error || hangup ==> !alive && taken == 0 && sent == old(sent) && responses == old(responses)
      ensures !error && !hangup && !output ==>
                && alive
                && mask == if !input || outcome.Failed? then old(mask)
                           else if outcome.Stopped? then Write
                           else if responses == [] then Read else ReadWrite
      ensures !error && !hangup && output ==> (alive <==> !(accepts < 0 && !again) && (responses != [] || running))
      ensures !error && !hangup && output && alive ==>
                mask == if responses == [] then Read else if running then ReadWrite else Write
      ensures input && !error && !hangup && sizes != [] && sizes[0] > 0 && old(readBytes) < 4096 && stream != "" ==> taken > 0
      ensures taken <= |stream| && received == old(received) + stream[..taken]
      ensures if taken == 0
              then State() == old(State()) && Buffered() == old(Buffered())
              else Handled(answers, old(State()), old(Buffered()) + stream[..taken], outcome, State(), Buffered())
      ensures old(clean) && outcome.Drained? && input && !error && !hangup ==> taken == Accepted(sizes, |stream|)
      ensures output && !error && !hangup && accepts > 0 ==> |sent| > |old(sent)|
      ensures !output || accepts <= 0 ==> sent == old(sent)
      ensures old(sent) <= sent
    {
      hide Handled; hide Accepted; hide Feed; hide Joined; hide Output; hide Ready;
      outcome, taken := Drained, 0;
      if error {
        OnError();
      } else if hangup {
        OnClose();
      } else {
        if input {
          ghost var from;
          outcome, taken, from := DoRead(stream, sizes, run);
        }
        if output {
          var written := DoWrite(accepts, again, running);
        }
      }
    }
  }
}
