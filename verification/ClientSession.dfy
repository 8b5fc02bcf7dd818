/** One client's input stream, byte by byte: headers, length-framed bodies and the commands executed. */
module ClientSession {
  import opened Basics
  import opened Parser

  /** A command that was run, the argument it was given and what it answered. */
  datatype Executed = Executed(command: Command, argument: string, answer: string)

  datatype Session = Session(
    parser: Progress, command: Option<Command>, argRemains: nat, argument: string, executed: seq<Executed>)

  /** The answer of the n-th command executed, given the command and its argument; it hides the storage. */
  type Answers = (nat, Command, string) -> string

  const BEGIN := Session(START, None, 0, "", [])

  /** Between two bytes a known command still misses part of its argument; a completed header without a
      command is one that was refused. */
  predicate Ready(s: Session) {
    && Sound(s.parser)
    && (s.command.Some? ==> s.argRemains > 0)
    && (s.command.None? ==> s.argument == "")
    && (s.command.None? && s.parser.complete ==> Build(s.parser).Unsupported? && s.argRemains == s.parser.bytes)
  }

  function Execute(answers: Answers, s: Session): Session
    requires s.command.Some?
  {
    var answer := answers(|s.executed|, s.command.value, s.argument);
    s.(parser := START.(negative := s.parser.negative), command := None, argument := "",
       executed := s.executed + [Executed(s.command.value, s.argument, answer)])
  }

  /** A body is followed by two more bytes, an empty one is not. */
  function BodySize(bytes: nat): nat { if bytes > 0 then bytes + 2 else 0 }

  /** The session whose header has just completed. */
  function Completed(s: Session, q: Progress): (t: Session)
    requires Sound(q)
  {
    var b := Build(q);
    if b.Command? then s.(parser := q, command := Some(b.command), argRemains := BodySize(q.bytes))
    else s.(parser := q, argRemains := q.bytes)
  }

  function ExecuteIfDue(answers: Answers, s: Session): Session {
    if s.command.Some? && s.argRemains == 0 then Execute(answers, s) else s
  }

  datatype Fed = Fed(session: Session, count: nat, threw: bool)

  /** One byte: count is 0 when it makes the parser or the builder throw. */
  function FeedByte(answers: Answers, s: Session, c: char): (f: Fed)
    requires Ready(s)
    ensures Ready(f.session)
  {
    if s.command.Some? then
      var t := s.(argument := s.argument + [c], argRemains := s.argRemains - 1);
      Fed(ExecuteIfDue(answers, t), 1, false)
    else if s.parser.complete then Fed(s, 0, true)
    else
      var next := Step(s.parser, c);
      if next.None? then Fed(s, 0, true)
      else
        StepSound(s.parser, c);
        if !next.value.complete then Fed(s.(parser := next.value), 1, false)
        else
          var t := Completed(s, next.value);
          if t.command.Some? then Fed(ExecuteIfDue(answers, t), 1, false) else Fed(t, 0, true)
  }

  /** One pass over the input; count is the number of bytes before the one that throws. */
  function Feed(answers: Answers, s: Session, input: string): (f: Fed)
    requires Ready(s)
    ensures Ready(f.session)
    decreases |input|
  {
    if input == [] then Fed(s, 0, false)
    else
      var f := FeedByte(answers, s, input[0]);
      if f.threw then f
      else var r := Feed(answers, f.session, input[1..]); r.(count := r.count + 1)
  }

  lemma {:induction false} FeedAppend(answers: Answers, s: Session, a: string, b: string)
    requires Ready(s)
    ensures var f := Feed(answers, s, a);
            && (!f.threw ==> f.count == |a|)
            && Feed(answers, s, a + b) ==
                 if f.threw then f
                 else var r := Feed(answers, f.session, b); r.(count := r.count + |a|)
    decreases |a|
  {
    if a == [] {
      assert a + b == b;
    } else {
      var f := FeedByte(answers, s, a[0]);
      assert (a + b)[1..] == a[1..] + b;
      if !f.threw {
        FeedAppend(answers, f.session, a[1..], b);
      }
    }
  }

  /** The input arriving in pieces, up to the first failure. */
  function FeedPieces(answers: Answers, s: Session, pieces: seq<string>): (f: Fed)
    requires Ready(s)
    ensures Ready(f.session)
  {
    if pieces == [] then Fed(s, 0, false)
    else
      var f := FeedPieces(answers, s, pieces[..|pieces| - 1]);
      if f.threw then f
      else var r := Feed(answers, f.session, pieces[|pieces| - 1]); r.(count := r.count + f.count)
  }

  /** Any two ways to cut an input execute the same commands, end alike and fail at the same byte. */
  lemma {:induction false} CutsAgree(answers: Answers, s: Session, pieces: seq<string>)
    requires Ready(s)
    ensures FeedPieces(answers, s, pieces) == Feed(answers, s, Joined(pieces))
  {
    if pieces != [] {
      var front := pieces[..|pieces| - 1];
      CutsAgree(answers, s, front);
      FeedAppend(answers, s, Joined(front), pieces[|pieces| - 1]);
    }
  }

  /** Feeding a header is scanning it, up to the byte that completes it. */
  lemma {:induction false} FeedHeader(answers: Answers, s: Session, input: string)
    requires Ready(s) && s.command.None? && !s.parser.complete
    ensures var r := Scan(s.parser, input);
            && Sound(r.progress)
            && (r.threw ==> Feed(answers, s, input) == Fed(s.(parser := r.progress), r.count, true))
            && (!r.threw && !r.progress.complete ==>
                  r.count == |input| && Feed(answers, s, input) == Fed(s.(parser := r.progress), |input|, false))
            && (!r.threw && r.progress.complete ==>
                  && r.count > 0
                  && var t := Completed(s, r.progress);
                     if t.command.Some?
                     then Feed(answers, s, input[..r.count]) == Fed(ExecuteIfDue(answers, t), r.count, false)
                     else Feed(answers, s, input) == Fed(t, r.count - 1, true))
    decreases |input|
  {
    if input != [] && Step(s.parser, input[0]).Some? {
      var q := Step(s.parser, input[0]).value;
      StepSound(s.parser, input[0]);
      var rest := Scan(q, input[1..]);
      assert Scan(s.parser, input).count == rest.count + 1;
      if q.complete {
        assert input[..1][1..] == [];
      } else {
        FeedHeader(answers, s.(parser := q), input[1..]);
        assert input[..rest.count + 1][1..] == input[1..][..rest.count];
      }
    }
  }

  /** Bytes of an argument are collected; the last one runs the command. */
  lemma {:induction false} FeedArgument(answers: Answers, s: Session, input: string)
    requires Ready(s) && s.command.Some? && |input| <= s.argRemains
    ensures var t := s.(argument := s.argument + input, argRemains := s.argRemains - |input|);
            Feed(answers, s, input) == Fed(ExecuteIfDue(answers, t), |input|, false)
    decreases |input|
  {
    if input == [] {
      assert s.argument + input == s.argument;
    } else {
      var t := s.(argument := s.argument + [input[0]], argRemains := s.argRemains - 1);
      assert s.argument + input == t.argument + input[1..];
      if t.argRemains > 0 {
        FeedArgument(answers, t, input[1..]);
      } else {
        assert input == [input[0]] && input[1..] == [];
        assert Feed(answers, Execute(answers, t), []) == Fed(Execute(answers, t), 0, false);
      }
    }
  }

  lemma {:induction false} FeedOnlyAppends(answers: Answers, s: Session, input: string)
    requires Ready(s)
    ensures s.executed <= Feed(answers, s, input).session.executed
    decreases |input|
  {
    if input != [] {
      var f := FeedByte(answers, s, input[0]);
      if !f.threw {
        FeedOnlyAppends(answers, f.session, input[1..]);
      }
    }
  }
}
