/** Whole requests, header and body, as a client prints them: exactly the ones that are served. */
module Requests {
  import opened Basics
  import opened Parser
  import opened HeaderRoundTrip
  import opened ClientSession
  import Connection

  /** body is what follows the header of a storage request, without its line end. */
  datatype Request = Request(header: Header, body: string)

  predicate Proper(r: Request) {
    && WellFormed(r.header)
    && (if r.header.Storage? then r.header.bytes == |r.body| else r.body == "")
  }

  function Tail(r: Request): string { if r.header.Storage? then r.body + "\r\n" else "" }

  function Text(r: Request): string
    requires Proper(r)
  {
    Print(r.header) + Tail(r)
  }

  /** The parser knows prepend and gets, but there is no command to build for them. */
  predicate Supported(h: Header) {
    match h
    case Storage(name, _, _, _, _) => name != "prepend"
    case Retrieval(name, _) => name == "get"
    case Statistics => true
  }

  function CommandOf(h: Header): Command
    requires WellFormed(h) && Supported(h)
  {
    match h
    case Storage(name, key, flags, expire, _) =>
      if name == "set" then Set(key, flags, expire)
      else if name == "add" then Add(key, flags, expire)
      else Append(key, flags, expire)
    case Retrieval(_, keys) => Get(keys)
    case Statistics => Stats
  }

  /** An empty body is not framed: its line end is taken for the next header. */
  predicate Servable(r: Request) {
    Representable(r.header) && Supported(r.header) && (r.header.Storage? ==> r.body != "")
  }

  /** Waiting for the first byte of a request. */
  predicate Idle(s: Session) { s.command.None? && s.argument == "" && Fresh(s.parser) }

  /** The session after the request: its command was run once, with the body and the line end as argument. */
  function Served(answers: Answers, s: Session, r: Request): Session
    requires Proper(r) && Supported(r.header)
  {
    var command := CommandOf(r.header);
    var negative := if r.header.Storage? then r.header.expire < 0 else s.parser.negative;
    s.(parser := START.(negative := negative), argRemains := 0,
       executed := s.executed + [Executed(command, Tail(r), answers(|s.executed|, command, Tail(r)))])
  }

  /** The request is taken to its last byte, and its command is run once with its body. */
  predicate IsServed(answers: Answers, s: Session, r: Request)
    requires Ready(s) && Proper(r)
  {
    Supported(r.header) && Feed(answers, s, Text(r)) == Fed(Served(answers, s, r), |Text(r)|, false)
  }

  function Parsed(p: Progress, h: Header): Progress {
    match h
    case Storage(_, _, _, _, bytes) => AfterTime(p, h).(state := SLF, bytes := bytes % TWO_32, complete := true)
    case Retrieval(name, keys) => p.(state := SLF, name := name, keys := keys, complete := true)
    case Statistics => p.(state := SLF, name := "stats", complete := true)
  }

  lemma HeaderRead(p: Progress, h: Header)
    requires Fresh(p) && WellFormed(h)
    ensures var r := Scan(p, Print(h));
            && (r.threw <==> Rejected(h))
            && (!r.threw ==> r == Scanned(Parsed(p, h), |Print(h)|, false))
    ensures Sound(Parsed(p, h))
    ensures Build(Parsed(p, h)) == if Supported(h) then Built.Command(CommandOf(Damaged(h))) else Unsupported
  {
    match h
    case Storage(_, _, _, _, _) => StorageRead(p, h);
    case Retrieval(_, _) => RetrievalRead(p, h);
    case Statistics => StatisticsRead(p);
  }

  lemma HeaderFed(answers: Answers, s: Session, h: Header)
    requires Idle(s) && WellFormed(h)
    ensures Ready(s) && Sound(Parsed(s.parser, h))
    ensures var f := Feed(answers, s, Print(h));
            && (f.threw <==> Rejected(h) || !Supported(h))
            && (!f.threw ==> f == Fed(ExecuteIfDue(answers, Completed(s, Parsed(s.parser, h))), |Print(h)|, false))
  {
    HeaderRead(s.parser, h);
    FeedHeader(answers, s, Print(h));
    assert Print(h)[..|Print(h)|] == Print(h);
  }

  /** A header without a body to wait for. */
  lemma BodilessFed(answers: Answers, s: Session, r: Request)
    requires Idle(s) && Proper(r) && !r.header.Storage?
    ensures Ready(s)
    ensures IsServed(answers, s, r) <==> Servable(r)
  {
    HeaderFed(answers, s, r.header);
    assert Text(r) == Print(r.header);
    HeaderRead(s.parser, r.header);
    OnlyStorageRejected(r.header);
  }

  /** A header that was read is followed by as much of the body as its byte count says. */
  lemma BodyFed(answers: Answers, s: Session, r: Request)
    requires Idle(s) && Proper(r) && r.header.Storage? && Supported(r.header)
    requires Ready(s) && !Feed(answers, s, Print(r.header)).threw
    ensures var size := BodySize(r.header.bytes % TWO_32);
            && size <= |Tail(r)|
            && var h := Damaged(r.header);
               var argument := Tail(r)[..size];
               var command := CommandOf(h);
               var t := s.(parser := START.(negative := r.header.expire < 0), argRemains := 0,
                           executed := s.executed + [Executed(command, argument, answers(|s.executed|, command, argument))]);
               && Ready(t)
               && Feed(answers, s, Print(r.header) + Tail(r)[..size]) == Fed(t, |Print(r.header)| + size, false)
  {
    HeaderFed(answers, s, r.header);
    HeaderRead(s.parser, r.header);
    var size := BodySize(r.header.bytes % TWO_32);
    assert r.header.bytes % TWO_32 <= r.header.bytes;
    var t := Completed(s, Parsed(s.parser, r.header));
    FeedAppend(answers, s, Print(r.header), Tail(r)[..size]);
    if size > 0 {
      FeedArgument(answers, t, Tail(r)[..size]);
      assert "" + Tail(r)[..size] == Tail(r)[..size];
    } else {
      assert Tail(r)[..size] == "";
    }
  }

  /** The numbers of a storage request are kept and its whole body awaited exactly when it is servable. */
  lemma SameCommand(r: Request)
    requires Proper(r) && r.header.Storage? && Supported(r.header)
    ensures CommandOf(Damaged(r.header)) == CommandOf(r.header) && BodySize(r.header.bytes % TWO_32) == |Tail(r)|
            <==> Servable(r)
  {
    SumSurvives(r.header.expire);
  }

  lemma AcceptedIfServable(r: Request)
    ensures Representable(r.header) ==> !Rejected(r.header)
  {
    if Representable(r.header) {
      RepresentableAccepted(r.header);
    }
  }

  lemma StorageFed(answers: Answers, s: Session, r: Request)
    requires Idle(s) && Proper(r) && r.header.Storage?
    ensures Ready(s)
    ensures IsServed(answers, s, r) <==> Servable(r)
  {
    hide Feed; hide FeedByte; hide Scan; hide Step; hide Print; hide Decimal; hide Rejected;
    HeaderFed(answers, s, r.header);
    AcceptedIfServable(r);
    if Feed(answers, s, Print(r.header)).threw {
      FeedAppend(answers, s, Print(r.header), Tail(r));
    } else {
      var size := BodySize(r.header.bytes % TWO_32);
      BodyFed(answers, s, r);
      SameCommand(r);
      var start := Print(r.header) + Tail(r)[..size];
      var t := Feed(answers, s, start).session;
      assert Text(r) == start + Tail(r)[size..];
      FeedAppend(answers, s, start, Tail(r)[size..]);
      FeedOnlyAppends(answers, t, Tail(r)[size..]);
      assert t.executed[|s.executed|] == Feed(answers, s, Text(r)).session.executed[|s.executed|];
      if Servable(r) {
        assert Tail(r)[size..] == "" && Tail(r)[..size] == Tail(r);
      }
    }
  }

  /** A request is served exactly when its numbers are representable, there is such a command, and a body
      that it announces is not empty. */
  lemma ServedExactly(answers: Answers, s: Session, r: Request)
    requires Idle(s) && Proper(r)
    ensures Ready(s)
    ensures IsServed(answers, s, r) <==> Servable(r)
  {
    if r.header.Storage? {
      StorageFed(answers, s, r);
    } else {
      BodilessFed(answers, s, r);
    }
  }

  /** A storage request with an empty body runs its command at once, and its line end then throws. */
  lemma EmptyBodyThrows(answers: Answers, s: Session, r: Request)
    requires Idle(s) && Proper(r) && r.header.Storage? && r.body == "" && Representable(r.header) && Supported(r.header)
    ensures Ready(s)
    ensures var f := Feed(answers, s, Text(r));
            && f.threw && f.count == |Print(r.header)|
            && f.session.executed == s.executed
                 + [Executed(CommandOf(r.header), "", answers(|s.executed|, CommandOf(r.header), ""))]
  {
    hide Feed; hide FeedByte; hide Scan; hide Step; hide Print;
    HeaderFed(answers, s, r.header);
    RepresentableAccepted(r.header);
    BodyFed(answers, s, r);
    SumSurvives(r.header.expire);
    assert Print(r.header) + Tail(r)[..0] == Print(r.header);
    LineEndThrows(answers, Feed(answers, s, Print(r.header)).session);
    FeedAppend(answers, s, Print(r.header), "\r\n");
    assert Tail(r) == "\r\n";
  }

  lemma LineEndThrows(answers: Answers, s: Session)
    requires Idle(s)
    ensures Ready(s) && Feed(answers, s, "\r\n") == Fed(s, 0, true)
  {
    assert FeedByte(answers, s, '\r') == Fed(s, 0, true);
    hide FeedByte; hide Step;
  }

  /** A request and a line end too many: the command has run and its answer is queued when the parser throws. */
  lemma StrayLineThrows(answers: Answers, s: Session, r: Request)
    requires Idle(s) && Proper(r) && Servable(r)
    ensures Ready(s)
    ensures Feed(answers, s, Text(r) + "\r\n") == Fed(Served(answers, s, r), |Text(r)|, true)
  {
    ServedExactly(answers, s, r);
    LineEndThrows(answers, Served(answers, s, r));
    hide Feed; hide Text;
    FeedAppend(answers, s, Text(r), "\r\n");
  }

  function Texts(rs: seq<Request>): string
    requires forall i :: 0 <= i < |rs| ==> Proper(rs[i])
  {
    if rs == [] then "" else Texts(rs[..|rs| - 1]) + Text(rs[|rs| - 1])
  }

  function AllServed(answers: Answers, s: Session, rs: seq<Request>): (t: Session)
    requires Idle(s) && forall i :: 0 <= i < |rs| ==> Proper(rs[i]) && Servable(rs[i])
    ensures Idle(t)
  {
    if rs == [] then s
    else
      assert Servable(rs[|rs| - 1]);
      Served(answers, AllServed(answers, s, rs[..|rs| - 1]), rs[|rs| - 1])
  }

  /** A run of servable requests, whatever pieces it arrives in: each is executed once, in order, with its
      own body, and nothing is left over. */
  lemma {:induction false} RunServed(answers: Answers, s: Session, rs: seq<Request>, pieces: seq<string>)
    requires Idle(s) && forall i :: 0 <= i < |rs| ==> Proper(rs[i]) && Servable(rs[i])
    requires Joined(pieces) == Texts(rs)
    ensures Ready(s)
    ensures FeedPieces(answers, s, pieces) == Fed(AllServed(answers, s, rs), |Texts(rs)|, false)
  {
    TextsServed(answers, s, rs);
    CutsAgree(answers, s, pieces);
  }

  lemma {:induction false} TextsServed(answers: Answers, s: Session, rs: seq<Request>)
    requires Idle(s) && forall i :: 0 <= i < |rs| ==> Proper(rs[i]) && Servable(rs[i])
    ensures Ready(s)
    ensures Feed(answers, s, Texts(rs)) == Fed(AllServed(answers, s, rs), |Texts(rs)|, false)
  {
    if rs != [] {
      var front := rs[..|rs| - 1];
      TextsServed(answers, s, front);
      ServedExactly(answers, AllServed(answers, s, front), rs[|rs| - 1]);
      FeedAppend(answers, s, Texts(front), Text(rs[|rs| - 1]));
    }
  }

  /** What is carried out for a request, by the name in its header. */
  predicate CarriedOut(r: Request, x: Executed) {
    match r.header
    case Storage(name, key, flags, expire, _) =>
      && x.argument == r.body + "\r\n"
      && (name == "set" ==> x.command == Set(key, flags, expire))
      && (name == "add" ==> x.command == Add(key, flags, expire))
      && (name == "append" ==> x.command == Append(key, flags, expire))
    case Retrieval(_, keys) => x.command == Get(keys) && x.argument == ""
    case Statistics => x.command == Stats && x.argument == ""
  }

  /** Served requests are carried out one after the other, each with the command that its name says, its own key and
      numbers, and its body with the line end. */
  lemma {:induction false} ServedInOrder(answers: Answers, s: Session, rs: seq<Request>, k: nat)
    requires Idle(s) && forall i :: 0 <= i < |rs| ==> Proper(rs[i]) && Servable(rs[i])
    ensures var t := AllServed(answers, s, rs);
            && |t.executed| == |s.executed| + |rs| && s.executed <= t.executed
            && (k < |rs| ==>
                  var x := t.executed[|s.executed| + k];
                  CarriedOut(rs[k], x) && x.answer == answers(|s.executed| + k, x.command, x.argument))
  {
    if rs != [] {
      var n := |rs| - 1;
      ServedInOrder(answers, s, rs[..n], k);
      assert Proper(rs[n]) && Servable(rs[n]);
      assert AllServed(answers, s, rs) == Served(answers, AllServed(answers, s, rs[..n]), rs[n]);
    }
  }

  /** One call of the connection: when its reads deliver a run of servable requests and the server runs on, every one
      of them is carried out and nothing is left in the buffer. */
  lemma CallServes(answers: Answers, run: nat -> bool, sizes: seq<nat>, base: Session, rs: seq<Request>,
                   outcome: Connection.ReadOutcome, taken: nat, from: nat, s: Session, left: string)
    requires Idle(base) && Ready(base) && forall i :: 0 <= i < |rs| ==> Proper(rs[i]) && Servable(rs[i])
    requires forall i :: 0 <= i < |sizes| ==> 0 < sizes[i] <= 4096
    requires Connection.Sum(sizes) == |Texts(rs)|
    requires forall k :: |base.executed| < k <= |base.executed| + |rs| ==> run(k)
    requires Connection.Took(answers, run, sizes, base, "", Texts(rs), outcome, taken, from, s, left)
    ensures outcome.Drained? && taken == |Texts(rs)| && left == "" && s == AllServed(answers, base, rs)
  {
    hide Connection.Took; hide AllServed; hide Feed; hide Connection.Accepted; hide Texts; hide Idle; hide Ready;
    var text := Texts(rs);
    TextsServed(answers, base, rs);
    ServedInOrder(answers, base, rs, 0);
    Connection.ReachPlainly(sizes, 0, |text|);
    assert "" + text[..|text|] == text;
    if text == "" {
      Connection.FeedNothing(answers, base);
    }
    Connection.Foretold(answers, run, sizes, base, "", text, outcome, taken, from, s, left);
    Connection.TookMore(answers, run, sizes, base, "", text, outcome, taken, from, s, left);
    CallEnds(answers, run, sizes, base, text, outcome, taken, from, s, left);
  }

  lemma CallEnds(answers: Answers, run: nat -> bool, sizes: seq<nat>, base: Session, text: string,
                 outcome: Connection.ReadOutcome, taken: nat, from: nat, s: Session, left: string)
    requires Ready(base) && Connection.Took(answers, run, sizes, base, "", text, outcome, taken, from, s, left)
    ensures outcome.Drained? ==> left == "" && taken == Connection.Reach(sizes, 0, |text|)
  {
    hide Feed; hide Ready; hide Connection.KeptFrom; hide Connection.Reach; hide Connection.RunSeen;
  }
}
