/** The two-gate reader/writer lock: one 32-bit word, two condition variables, and the threads using
    them.  Each region under the inner mutex is one step; parking, waking and the notification that
    unlock gives after it has released the mutex are steps of their own. */
module SharedMutex {
  import opened Basics

  const WRITE_ENTERED: nat := 0x8000_0000
  const N_READERS: nat := 0x7fff_ffff
  const WORD: nat := 0x1_0000_0000

  function WriterBit(word: nat): bool
    requires word < WORD
  {
    word >= WRITE_ENTERED
  }

  function Readers(word: nat): nat
    requires word < WORD
  {
    if WriterBit(word) then word - WRITE_ENTERED else word
  }

  /** word with the write bit set. */
  function EnterWriter(word: nat): (r: nat)
    requires word < WORD
    ensures r < WORD
  {
    WRITE_ENTERED + Readers(word)
  }

  /** The reader bits cleared, then or-ed with num; a num beyond the reader bits reaches the write bit. */
  function WithReaders(word: nat, num: nat): (r: nat)
    requires word < WORD && num < WORD
    ensures r < WORD
  {
    (if WriterBit(word) || WriterBit(num) then WRITE_ENTERED else 0) + Readers(num)
  }

  type Tid = int

  /** Where the threads are; a thread in none of the sets is outside the lock. */
  datatype Lock = Lock(
    word: nat,
    wantWrite: set<Tid>, wantRead: set<Tid>,
    gate1Writers: set<Tid>, gate1Readers: set<Tid>,
    gate2: set<Tid>, pastGate1: set<Tid>,
    writing: set<Tid>, reading: set<Tid>,
    owes: set<Tid>)
  {
    ghost predicate Outside(t: Tid) {
      && t !in wantWrite && t !in wantRead && t !in gate1Writers && t !in gate1Readers
      && t !in gate2 && t !in pastGate1 && t !in writing && t !in reading && t !in owes
    }

    ghost function Inside(): set<Tid> {
      wantWrite + wantRead + gate1Writers + gate1Readers + gate2 + pastGate1 + writing + reading + owes
    }

    /** No thread is in two places at once, as far as the counts depend on it. */
    ghost predicate Apart() {
      && wantWrite + gate1Writers !! wantRead !! gate1Readers !! reading
      && gate2 !! pastGate1 !! writing
    }
  }

  const FREE := Lock(0, {}, {}, {}, {}, {}, {}, {}, {}, {})

  datatype Woken = Writer(t: Tid) | Reader(t: Tid) | Nobody

  datatype Step =
    | CallLock(t: Tid)
    | CallLockShared(t: Tid)
    /** The region of lock up to its first wait. */
    | EnterAsWriter(t: Tid)
    /** A writer woken at gate 2 looks at the readers again. */
    | LookAgain(t: Tid)
    /** try_lock and try_lock_shared may also miss the inner mutex. */
    | TryLock(t: Tid, gotMutex: bool)
    | TryLockShared(t: Tid, gotMutex: bool)
    | Unlock(t: Tid)
    | NotifyAll(t: Tid)
    | EnterAsReader(t: Tid)
    | UnlockShared(t: Tid, woken: Woken)
    /** A wait that ends by itself. */
    | Spurious(t: Tid)

  /** Whom notify_one on gate 1 may wake. */
  ghost predicate MayWakeGate1(p: Lock, who: Woken) {
    match who
    case Writer(t) => t in p.gate1Writers
    case Reader(t) => t in p.gate1Readers
    case Nobody => p.gate1Writers == {} && p.gate1Readers == {}
  }

  ghost predicate MayWakeGate2(p: Lock, who: Woken) {
    match who
    case Writer(t) => t in p.gate2
    case Reader(_) => false
    case Nobody => p.gate2 == {}
  }

  /** The count unlock_shared stores; an unsigned zero would wrap. */
  function OneLess(readers: nat): (r: nat)
    requires readers < WRITE_ENTERED
    ensures r < WORD
  {
    if readers == 0 then WORD - 1 else readers - 1
  }

  ghost predicate Enabled(p: Lock, s: Step) {
    p.word < WORD &&
    match s
    case CallLock(t) => p.Outside(t)
    case CallLockShared(t) => p.Outside(t)
    case EnterAsWriter(t) => t in p.wantWrite
    case LookAgain(t) => t in p.pastGate1
    case TryLock(t, _) => p.Outside(t)
    case TryLockShared(t, _) => p.Outside(t)
    case Unlock(t) => t in p.writing
    case NotifyAll(t) => t in p.owes
    case EnterAsReader(t) => t in p.wantRead
    case UnlockShared(t, woken) =>
      && t in p.reading
      && (if WriterBit(WithReaders(p.word, OneLess(Readers(p.word)))) then MayWakeGate2(p, woken) else MayWakeGate1(p, woken))
    case Spurious(t) => t in p.gate1Writers || t in p.gate1Readers || t in p.gate2
  }

  /** Past gate 1 a writer waits for the readers to leave. */
  ghost function AwaitReaders(p: Lock, t: Tid): Lock
    requires p.word < WORD
  {
    if Readers(p.word) != 0 then p.(gate2 := p.gate2 + {t}) else p.(writing := p.writing + {t})
  }

  ghost function WriterStep(p: Lock, t: Tid): Lock
    requires p.word < WORD
  {
    var q := p.(wantWrite := p.wantWrite - {t});
    if WriterBit(p.word) then q.(gate1Writers := p.gate1Writers + {t})
    else AwaitReaders(q.(word := EnterWriter(p.word)), t)
  }

  predicate Admits(word: nat)
    requires word < WORD
  {
    !WriterBit(word) && Readers(word) != N_READERS
  }

  ghost function ReaderStep(p: Lock, t: Tid): Lock
    requires p.word < WORD
  {
    var q := p.(wantRead := p.wantRead - {t});
    if !Admits(p.word) then q.(gate1Readers := p.gate1Readers + {t})
    else q.(word := WithReaders(p.word, Readers(p.word) + 1), reading := p.reading + {t})
  }

  ghost function WakeGate1(p: Lock, who: Woken): Lock {
    match who
    case Writer(t) => p.(gate1Writers := p.gate1Writers - {t}, wantWrite := p.wantWrite + {t})
    case Reader(t) => p.(gate1Readers := p.gate1Readers - {t}, wantRead := p.wantRead + {t})
    case Nobody => p
  }

  ghost function WakeGate2(p: Lock, who: Woken): Lock {
    if who.Writer? then p.(gate2 := p.gate2 - {who.t}, pastGate1 := p.pastGate1 + {who.t}) else p
  }

  ghost function LeaveStep(p: Lock, t: Tid, woken: Woken): Lock
    requires p.word < WORD
  {
    var num := OneLess(Readers(p.word));
    var q := p.(word := WithReaders(p.word, num), reading := p.reading - {t});
    if WriterBit(q.word) then
      if num == 0 then WakeGate2(q, woken) else q
    else
      if num == N_READERS - 1 then WakeGate1(q, woken) else q
  }

  ghost function Apply(p: Lock, s: Step): Lock
    requires Enabled(p, s)
  {
    match s
    case CallLock(t) => p.(wantWrite := p.wantWrite + {t})
    case CallLockShared(t) => p.(wantRead := p.wantRead + {t})
    case EnterAsWriter(t) => WriterStep(p, t)
    case LookAgain(t) => AwaitReaders(p.(pastGate1 := p.pastGate1 - {t}), t)
    case TryLock(t, gotMutex) =>
      if gotMutex && p.word == 0 then p.(word := WRITE_ENTERED, writing := p.writing + {t}) else p
    case TryLockShared(t, gotMutex) =>
      if gotMutex && Admits(p.word) then
        p.(word := WithReaders(p.word, Readers(p.word) + 1), reading := p.reading + {t})
      else p
    case Unlock(t) => p.(word := 0, writing := p.writing - {t}, owes := p.owes + {t})
    case NotifyAll(t) =>
      p.(gate1Writers := {}, gate1Readers := {}, wantWrite := p.wantWrite + p.gate1Writers,
         wantRead := p.wantRead + p.gate1Readers, owes := p.owes - {t})
    case EnterAsReader(t) => ReaderStep(p, t)
    case UnlockShared(t, woken) => LeaveStep(p, t, woken)
    case Spurious(t) =>
      if t in p.gate1Writers then WakeGate1(p, Writer(t))
      else if t in p.gate1Readers then WakeGate1(p, Reader(t))
      else WakeGate2(p, Writer(t))
  }

  ghost predicate Next(p: Lock, s: Step, q: Lock) {
    Enabled(p, s) && q == Apply(p, s)
  }

  ghost predicate IsRun(states: seq<Lock>, steps: seq<Step>) {
    && |states| == |steps| + 1
    && (forall i {:trigger steps[i]} :: 0 <= i < |steps| ==> Next(states[i], steps[i], states[i + 1]))
  }

  /** The word counts the readers, the write bit stands for the one writer past gate 1, and a
      writer that holds the lock excludes every reader. */
  ghost predicate Exclusive(p: Lock) {
    p.word < WORD && p.Apart() && Counted(p)
  }

  ghost predicate Counted(p: Lock)
    requires p.word < WORD
  {
    && Readers(p.word) == |p.reading|
    && |p.gate2 + p.pastGate1 + p.writing| == (if WriterBit(p.word) then 1 else 0)
    && (p.writing != {} ==> p.reading == {})
  }

  /** Counting up below the limit and down above zero never reaches the write bit. */
  lemma CountStaysInBits(word: nat)
    requires word < WORD
    ensures Readers(word) <= N_READERS
    ensures WriterBit(EnterWriter(word)) && Readers(EnterWriter(word)) == Readers(word)
    ensures Admits(word) ==>
              var up := WithReaders(word, Readers(word) + 1);
              !WriterBit(up) && Readers(up) == Readers(word) + 1
    ensures Readers(word) > 0 ==>
              var down := WithReaders(word, OneLess(Readers(word)));
              (WriterBit(down) <==> WriterBit(word)) && Readers(down) == Readers(word) - 1
  {}

  lemma OnlyOne(s: set<Tid>, t: Tid)
    requires |s| == 1 && t in s
    ensures s == {t}
  {
    assert |s - {t}| == 0;
  }

  lemma WriterStepCounted(p: Lock, t: Tid)
    requires p.word < WORD && Counted(p)
    ensures WriterStep(p, t).word < WORD && Counted(WriterStep(p, t))
  {
    CountStaysInBits(p.word);
    if !WriterBit(p.word) {
      var q := WriterStep(p, t);
      assert p.gate2 + p.pastGate1 + p.writing == {};
      assert q.gate2 + q.pastGate1 + q.writing == {t};
    }
  }

  lemma WriterStepApart(p: Lock, t: Tid)
    requires p.word < WORD && p.Apart() && t in p.wantWrite
    requires !WriterBit(p.word) ==> p.gate2 + p.pastGate1 + p.writing == {}
    ensures WriterStep(p, t).Apart()
  {}

  lemma WriterStepExclusive(p: Lock, t: Tid)
    requires Exclusive(p) && t in p.wantWrite
    ensures Exclusive(WriterStep(p, t))
  {
    assert !WriterBit(p.word) ==> p.gate2 + p.pastGate1 + p.writing == {};
    WriterStepCounted(p, t);
    hide WriterStep; hide Lock.Apart; hide Counted;
    WriterStepApart(p, t);
  }

  lemma LookAgainExclusive(p: Lock, t: Tid)
    requires Exclusive(p) && t in p.pastGate1
    ensures Exclusive(AwaitReaders(p.(pastGate1 := p.pastGate1 - {t}), t))
  {
    var q := AwaitReaders(p.(pastGate1 := p.pastGate1 - {t}), t);
    assert q.gate2 + q.pastGate1 + q.writing == p.gate2 + p.pastGate1 + p.writing;
  }

  lemma ReaderStepCounted(p: Lock, t: Tid)
    requires p.word < WORD && Counted(p) && t !in p.reading
    ensures ReaderStep(p, t).word < WORD && Counted(ReaderStep(p, t))
  {
    CountStaysInBits(p.word);
    assert Admits(p.word) ==> p.gate2 + p.pastGate1 + p.writing == {};
  }

  lemma ReaderStepApart(p: Lock, t: Tid)
    requires p.word < WORD && p.Apart() && t in p.wantRead
    ensures t !in p.reading && ReaderStep(p, t).Apart()
  {}

  lemma ReaderStepExclusive(p: Lock, t: Tid)
    requires Exclusive(p) && t in p.wantRead
    ensures Exclusive(ReaderStep(p, t))
  {
    hide ReaderStep; hide Lock.Apart; hide Counted;
    ReaderStepApart(p, t);
    ReaderStepCounted(p, t);
  }

  lemma LeaveStepCounted(p: Lock, t: Tid, woken: Woken)
    requires p.word < WORD && Counted(p) && Enabled(p, UnlockShared(t, woken))
    ensures LeaveStep(p, t, woken).word < WORD && Counted(LeaveStep(p, t, woken))
  {
    assert p.reading != {} && Readers(p.word) > 0;
    CountStaysInBits(p.word);
    var q := LeaveStep(p, t, woken);
    assert q.gate2 + q.pastGate1 + q.writing == p.gate2 + p.pastGate1 + p.writing;
  }

  lemma LeaveStepApart(p: Lock, t: Tid, woken: Woken)
    requires p.word < WORD && p.Apart() && Enabled(p, UnlockShared(t, woken))
    requires Readers(p.word) > 0
    ensures LeaveStep(p, t, woken).Apart()
  {
    CountStaysInBits(p.word);
  }

  lemma LeaveStepExclusive(p: Lock, t: Tid, woken: Woken)
    requires Exclusive(p) && Enabled(p, UnlockShared(t, woken))
    ensures Exclusive(LeaveStep(p, t, woken))
  {
    assert Readers(p.word) > 0;
    hide LeaveStep; hide Lock.Apart; hide Counted; hide Enabled;
    LeaveStepCounted(p, t, woken);
    LeaveStepApart(p, t, woken);
  }

  lemma UnlockExclusive(p: Lock, t: Tid)
    requires Exclusive(p) && t in p.writing
    ensures Exclusive(Apply(p, Unlock(t)))
  {
    OnlyOne(p.gate2 + p.pastGate1 + p.writing, t);
  }

  lemma TryExclusive(p: Lock, s: Step)
    requires Exclusive(p) && Enabled(p, s) && (s.TryLock? || s.TryLockShared?)
    ensures Exclusive(Apply(p, s))
  {
    CountStaysInBits(p.word);
    if !WriterBit(p.word) {
      assert p.gate2 == {} && p.pastGate1 == {} && p.writing == {};
      var q := Apply(p, s);
      assert s.TryLock? && q != p ==> q.gate2 + q.pastGate1 + q.writing == {s.t};
    }
  }

  lemma WakeGate1Exclusive(p: Lock, who: Woken)
    requires Exclusive(p) && MayWakeGate1(p, who)
    ensures Exclusive(WakeGate1(p, who))
  {}

  lemma WakeGate2Exclusive(p: Lock, t: Tid)
    requires Exclusive(p) && t in p.gate2
    ensures Exclusive(WakeGate2(p, Writer(t)))
  {
    var q := WakeGate2(p, Writer(t));
    assert q.gate2 + q.pastGate1 + q.writing == p.gate2 + p.pastGate1 + p.writing;
  }

  lemma SpuriousExclusive(p: Lock, t: Tid)
    requires Exclusive(p) && Enabled(p, Spurious(t))
    ensures Exclusive(Apply(p, Spurious(t)))
  {
    if t in p.gate1Writers {
      WakeGate1Exclusive(p, Writer(t));
    } else if t in p.gate1Readers {
      WakeGate1Exclusive(p, Reader(t));
    } else {
      WakeGate2Exclusive(p, t);
    }
  }

  lemma ExclusiveStep(p: Lock, s: Step, q: Lock)
    requires Exclusive(p) && Next(p, s, q)
    ensures Exclusive(q)
  {
    match s
    case EnterAsWriter(t) => WriterStepExclusive(p, t);
    case LookAgain(t) => LookAgainExclusive(p, t);
    case EnterAsReader(t) => ReaderStepExclusive(p, t);
    case UnlockShared(t, woken) => LeaveStepExclusive(p, t, woken);
    case Unlock(t) => UnlockExclusive(p, t);
    case TryLock(_, _) => TryExclusive(p, s);
    case TryLockShared(_, _) => TryExclusive(p, s);
    case Spurious(t) => SpuriousExclusive(p, t);
    case _ =>
  }

  /** The threads that have passed gate 1 as writers. */
  ghost function PastGate(p: Lock): set<Tid> { p.gate2 + p.pastGate1 + p.writing }

  /** Who gets in, told by where the other threads are: a writer when nobody reads and no writer is past gate 1, a
      reader when no writer is past gate 1 and fewer read than the count can hold; a try needs the inner mutex
      besides, and leaves everything as it was when it fails. */
  lemma EntryDecides(p: Lock, s: Step, q: Lock)
    requires Exclusive(p) && Next(p, s, q)
    ensures s.TryLock? ==> if s.gotMutex && p.reading == {} && PastGate(p) == {} then q.writing == {s.t} else q == p
    ensures s.TryLockShared? ==>
              if s.gotMutex && PastGate(p) == {} && |p.reading| < 0x7fff_ffff then q.reading == p.reading + {s.t} else q == p
    ensures s.EnterAsWriter? ==>
              && (s.t in q.gate1Writers <==> PastGate(p) != {} || s.t in p.gate1Writers)
              && (PastGate(p) == {} && p.reading != {} ==> s.t in q.gate2)
              && (PastGate(p) == {} && p.reading == {} ==> q.writing == {s.t})
    ensures s.EnterAsReader? ==>
              if PastGate(p) == {} && |p.reading| < 0x7fff_ffff then q.reading == p.reading + {s.t} else s.t in q.gate1Readers
    ensures s.LookAgain? ==> if p.reading == {} then q.writing == p.writing + {s.t} else s.t in q.gate2
  {
    CountStaysInBits(p.word);
    if |PastGate(p)| == 0 {
      assert p.gate2 == {} && p.pastGate1 == {} && p.writing == {};
    }
    assert p.reading == {} <==> |p.reading| == 0;
  }

  /** Who leaves: a writer clears the lock, the last reader in front of a waiting writer wakes it, and the reader that
      takes the count off its limit wakes one of those parked at gate 1. */
  lemma LeavingDecides(p: Lock, s: Step, q: Lock)
    requires Exclusive(p) && Next(p, s, q)
    ensures s.Unlock? ==> q.word == 0 && PastGate(q) == {} && s.t in q.owes
    ensures s.UnlockShared? ==>
              && q.reading == p.reading - {s.t}
              && (PastGate(p) != {} && |p.reading| == 1 && s.woken.Writer? ==> s.woken.t in q.pastGate1)
              && (PastGate(p) == {} && |p.reading| == 0x7fff_ffff && s.woken.Writer? ==> s.woken.t in q.wantWrite)
              && (PastGate(p) == {} && |p.reading| == 0x7fff_ffff && s.woken.Reader? ==> s.woken.t in q.wantRead)
    ensures s.NotifyAll? ==>
              && q.gate1Writers == {} && p.gate1Writers <= q.wantWrite
              && q.gate1Readers == {} && p.gate1Readers <= q.wantRead
    ensures s.Spurious? ==> s.t in q.wantWrite || s.t in q.wantRead || s.t in q.pastGate1
    ensures s.CallLock? ==> s.t in q.wantWrite
    ensures s.CallLockShared? ==> s.t in q.wantRead
  {
    if s.Unlock? {
      OnlyOne(PastGate(p), s.t);
    } else if s.UnlockShared? {
      assert p.reading != {};
      CountStaysInBits(p.word);
    }
  }

  /** Whoever waits unnotified has something to wait for: at gate 1 a writer or a full count, unless an
      unlocker still owes its notification, and at gate 2 a reader. */
  ghost predicate Signalled(p: Lock)
    requires p.word < WORD
  {
    && (p.gate1Writers != {} ==> WriterBit(p.word) || p.owes != {})
    && (p.gate1Readers != {} ==> WriterBit(p.word) || p.owes != {} || Readers(p.word) == N_READERS)
    && (p.gate2 != {} ==> p.reading != {})
  }

  /** At most n threads are inside. */
  ghost predicate Fits(p: Lock, n: nat) { |p.Inside()| <= n }

  /** With one thread more than the count can hold, at most one of them waits while it is full. */
  lemma OneWaiterWhenFull(p: Lock)
    requires Exclusive(p) && Readers(p.word) == N_READERS && Fits(p, N_READERS + 1)
    ensures |p.gate1Writers + p.gate1Readers| <= 1
  {
    SubsetSize(p.reading + (p.gate1Writers + p.gate1Readers), p.Inside());
    assert p.reading !! p.gate1Writers + p.gate1Readers;
  }

  lemma LeaveToWriterSignalled(p: Lock, t: Tid, woken: Woken)
    requires Exclusive(p) && Signalled(p) && WriterBit(p.word)
    requires Enabled(p, UnlockShared(t, woken))
    ensures Signalled(LeaveStep(p, t, woken))
  {
    assert p.reading != {} && Readers(p.word) > 0;
    CountStaysInBits(p.word);
    GateTwoAlone(p);
    assert |p.reading - {t}| == |p.reading| - 1;
  }

  lemma LeaveToReadersSignalled(p: Lock, t: Tid, woken: Woken)
    requires Exclusive(p) && Signalled(p) && !WriterBit(p.word) && Fits(p, N_READERS + 1)
    requires Enabled(p, UnlockShared(t, woken))
    ensures Signalled(LeaveStep(p, t, woken))
  {
    assert p.reading != {} && Readers(p.word) > 0;
    CountStaysInBits(p.word);
    assert p.gate2 <= p.gate2 + p.pastGate1 + p.writing == {};
    var waiters := p.gate1Writers + p.gate1Readers;
    if Readers(p.word) == N_READERS {
      OneWaiterWhenFull(p);
      if woken.Nobody? {
        assert waiters == {};
      } else {
        OnlyOne(waiters, woken.t);
        assert WakeGate1(p, woken).gate1Writers == {} && WakeGate1(p, woken).gate1Readers == {};
      }
    }
  }

  lemma GateTwoAlone(p: Lock)
    requires Exclusive(p)
    ensures forall t :: t in p.gate2 ==> p.gate2 == {t}
  {
    forall t | t in p.gate2 ensures p.gate2 == {t} {
      OnlyOne(p.gate2 + p.pastGate1 + p.writing, t);
    }
  }

  lemma EnterSignalled(p: Lock, s: Step, q: Lock)
    requires Exclusive(p) && Signalled(p) && Next(p, s, q)
    requires s.EnterAsWriter? || s.EnterAsReader? || s.LookAgain? || s.TryLock? || s.TryLockShared?
    ensures q.word < WORD && Signalled(q)
  {
    CountStaysInBits(p.word);
    assert Readers(p.word) != 0 ==> p.reading != {};
  }

  lemma OthersSignalled(p: Lock, s: Step, q: Lock)
    requires Exclusive(p) && Signalled(p) && Next(p, s, q)
    requires s.CallLock? || s.CallLockShared? || s.Unlock? || s.NotifyAll? || s.Spurious?
    ensures q.word < WORD && Signalled(q)
  {
    if s.Unlock? {
      OnlyOne(p.gate2 + p.pastGate1 + p.writing, s.t);
    }
  }

  lemma SignalledStep(p: Lock, s: Step, q: Lock)
    requires Exclusive(p) && Signalled(p) && Fits(p, N_READERS + 1) && Next(p, s, q)
    ensures q.word < WORD && Signalled(q)
  {
    if s.UnlockShared? {
      if WriterBit(p.word) {
        LeaveToWriterSignalled(p, s.t, s.woken);
      } else {
        LeaveToReadersSignalled(p, s.t, s.woken);
      }
    } else if s.EnterAsWriter? || s.EnterAsReader? || s.LookAgain? || s.TryLock? || s.TryLockShared? {
      EnterSignalled(p, s, q);
    } else {
      OthersSignalled(p, s, q);
    }
  }

  lemma FreeIsExclusive()
    ensures Exclusive(FREE) && Signalled(FREE)
  {}

  /** Reader/writer exclusion in every state of every run. */
  lemma {:induction false} RunExclusive(states: seq<Lock>, steps: seq<Step>, i: nat)
    requires IsRun(states, steps) && states[0] == FREE && i <= |steps|
    ensures Exclusive(states[i])
  {
    FreeIsExclusive();
    hide Next; hide Exclusive;
    if i > 0 {
      RunExclusive(states, steps, i - 1);
      assert Next(states[i - 1], steps[i - 1], states[i]);
      ExclusiveStep(states[i - 1], steps[i - 1], states[i]);
    }
  }

  /** No wake-up is lost in any run that never has more than N_READERS + 1 threads inside at once. */
  lemma {:induction false} NoLostWakeUp(states: seq<Lock>, steps: seq<Step>, i: nat)
    requires IsRun(states, steps) && states[0] == FREE && i <= |steps|
    requires forall j :: 0 <= j < |states| ==> Fits(states[j], N_READERS + 1)
    ensures states[i].word < WORD && Signalled(states[i])
  {
    FreeIsExclusive();
    hide Next; hide Exclusive; hide Signalled; hide Fits;
    if i > 0 {
      var p, s, q := states[i - 1], steps[i - 1], states[i];
      NoLostWakeUp(states, steps, i - 1);
      RunExclusive(states, steps, i - 1);
      assert Next(p, s, q) && Fits(p, N_READERS + 1);
      SignalledStep(p, s, q);
    }
  }

  /** From the time a writer has entered until it unlocks, no reader is admitted. */
  lemma {:induction false} WriterShutsOutReaders(states: seq<Lock>, steps: seq<Step>, i: nat, j: nat)
    requires IsRun(states, steps) && states[0] == FREE && i <= j <= |steps|
    requires states[i].word < WORD && WriterBit(states[i].word)
    requires forall k :: i <= k < j ==> !steps[k].Unlock?
    ensures states[j].word < WORD && WriterBit(states[j].word)
    ensures states[j].reading <= states[i].reading
  {
    if i < j {
      WriterShutsOutReaders(states, steps, i, j - 1);
      RunExclusive(states, steps, j - 1);
      RunExclusive(states, steps, j);
      ShutOutStep(states[j - 1], steps[j - 1], states[j]);
    }
  }

  lemma ShutOutStep(p: Lock, s: Step, q: Lock)
    requires Exclusive(p) && Exclusive(q) && Next(p, s, q) && WriterBit(p.word) && !s.Unlock?
    ensures WriterBit(q.word) && q.reading <= p.reading
  {
    CountStaysInBits(p.word);
    if s.UnlockShared? {
      assert p.reading != {};
    }
  }

  /** A run that ends in p with never more than n threads inside. */
  ghost predicate RunTo(states: seq<Lock>, steps: seq<Step>, p: Lock, n: nat) {
    && IsRun(states, steps) && states[0] == FREE && states[|steps|] == p
    && (forall i :: 0 <= i < |states| ==> Fits(states[i], n))
  }

  lemma Extend(states: seq<Lock>, steps: seq<Step>, p: Lock, n: nat, s: Step, q: Lock, m: nat)
      returns (states': seq<Lock>, steps': seq<Step>)
    requires RunTo(states, steps, p, n) && Next(p, s, q) && Fits(q, m) && n <= m
    ensures RunTo(states', steps', q, m)
  {
    states', steps' := states + [q], steps + [s];
    forall i | 0 <= i < |steps'| ensures Next(states'[i], steps'[i], states'[i + 1]) {
      if i < |steps| {
        assert Next(states[i], steps[i], states[i + 1]);
      }
    }
    forall i | 0 <= i < |states'| ensures Fits(states'[i], m) {
      assert i < |states| ==> Fits(states[i], n);
    }
  }

  /** The threads 0 to n - 1. */
  ghost predicate FirstIds(ids: set<Tid>, n: nat) {
    |ids| == n && forall t :: t in ids <==> 0 <= t < n
  }

  ghost function AllReading(ids: set<Tid>, n: nat): Lock { FREE.(word := n, reading := ids) }

  /** A run that fills the lock with n readers and never has more threads inside. */
  lemma {:induction false} ReadersFill(n: nat) returns (ids: set<Tid>, states: seq<Lock>, steps: seq<Step>)
    requires n <= N_READERS
    ensures FirstIds(ids, n)
    ensures RunTo(states, steps, AllReading(ids, n), n)
  {
    if n == 0 {
      ids, states, steps := {}, [FREE], [];
      assert FREE.Inside() == {} && AllReading(ids, 0) == FREE;
    } else {
      var fewer;
      fewer, states, steps := ReadersFill(n - 1);
      var t, p := n - 1, AllReading(fewer, n - 1);
      ids := fewer + {t};
      var called, entered := p.(wantRead := {t}), AllReading(ids, n);
      EntrySteps(t, p, called, entered);
      states, steps := Extend(states, steps, p, n - 1, CallLockShared(t), called, n);
      states, steps := Extend(states, steps, called, n, EnterAsReader(t), entered, n);
    }
  }

  lemma EntrySteps(t: nat, p: Lock, called: Lock, entered: Lock)
    requires t < N_READERS && FirstIds(p.reading, t) && p == AllReading(p.reading, t)
    requires called == p.(wantRead := {t}) && entered == AllReading(p.reading + {t}, t + 1)
    ensures Next(p, CallLockShared(t), called) && Next(called, EnterAsReader(t), entered)
    ensures Fits(called, t + 1) && Fits(entered, t + 1)
    ensures FirstIds(p.reading + {t}, t + 1)
  {
    assert p.wantRead + {t} == {t} && called.wantRead - {t} == {};
    assert called.Inside() == p.reading + {t} && entered.Inside() == p.reading + {t};
  }

  /** The bound is exact: with one more thread a reader can be left parked at gate 1 while the lock
      admits readers and nobody owes a notification. */
  lemma OneThreadTooMany() returns (states: seq<Lock>, steps: seq<Step>)
    ensures IsRun(states, steps) && states[0] == FREE
    ensures forall i :: 0 <= i < |states| ==> Fits(states[i], N_READERS + 2)
    ensures states[|steps|].word < WORD && Admits(states[|steps|].word)
    ensures states[|steps|].gate1Readers != {} && states[|steps|].owes == {} && !Signalled(states[|steps|])
  {
    var n, ids := N_READERS, {};
    ids, states, steps := ReadersFill(n);
    var p := AllReading(ids, n);
    var p1 := p.(wantRead := {n});
    var p2 := p.(wantRead := {n, n + 1});
    var p3 := p.(wantRead := {n + 1}, gate1Readers := {n});
    var p4 := p.(gate1Readers := {n, n + 1});
    var p5 := p.(word := n - 1, reading := ids - {0}, gate1Readers := {n + 1}, wantRead := {n});
    var p6 := p.(word := n - 2, reading := ids - {0} - {1}, gate1Readers := {n + 1}, wantRead := {n});
    CallSteps(ids, n, p, p1, p2);
    ParkSteps(ids, n, p2, p3, p4);
    LeaveSteps(ids, n, p4, p5, p6);
    states, steps := Extend(states, steps, p, n, CallLockShared(n), p1, n + 2);
    states, steps := Extend(states, steps, p1, n + 2, CallLockShared(n + 1), p2, n + 2);
    states, steps := Extend(states, steps, p2, n + 2, EnterAsReader(n), p3, n + 2);
    states, steps := Extend(states, steps, p3, n + 2, EnterAsReader(n + 1), p4, n + 2);
    states, steps := Extend(states, steps, p4, n + 2, UnlockShared(0, Reader(n)), p5, n + 2);
    states, steps := Extend(states, steps, p5, n + 2, UnlockShared(1, Reader(n + 1)), p6, n + 2);
  }

  lemma InsideFits(ids: set<Tid>, n: nat, p: Lock)
    requires FirstIds(ids, n) && p.Inside() <= ids + {n, n + 1}
    ensures Fits(p, n + 2)
  {
    SubsetSize(p.Inside(), ids + {n, n + 1});
  }

  lemma CallSteps(ids: set<Tid>, n: nat, p: Lock, p1: Lock, p2: Lock)
    requires n == N_READERS && FirstIds(ids, n) && p == AllReading(ids, n)
    requires p1 == p.(wantRead := {n}) && p2 == p.(wantRead := {n, n + 1})
    ensures Next(p, CallLockShared(n), p1) && Next(p1, CallLockShared(n + 1), p2)
    ensures Fits(p1, n + 2) && Fits(p2, n + 2)
  {
    assert p.wantRead + {n} == {n} && p1.wantRead + {n + 1} == {n, n + 1};
    InsideFits(ids, n, p1);
    InsideFits(ids, n, p2);
  }

  /** Two readers find the count full. */
  lemma ParkSteps(ids: set<Tid>, n: nat, p2: Lock, p3: Lock, p4: Lock)
    requires n == N_READERS && FirstIds(ids, n) && p2 == AllReading(ids, n).(wantRead := {n, n + 1})
    requires p3 == AllReading(ids, n).(wantRead := {n + 1}, gate1Readers := {n})
    requires p4 == AllReading(ids, n).(gate1Readers := {n, n + 1})
    ensures Next(p2, EnterAsReader(n), p3) && Next(p3, EnterAsReader(n + 1), p4)
    ensures Fits(p3, n + 2) && Fits(p4, n + 2)
  {
    assert p2.wantRead - {n} == {n + 1} && p2.gate1Readers + {n} == {n};
    ParkStep(p2, n, p3);
    assert p3.wantRead - {n + 1} == {} && p3.gate1Readers + {n + 1} == {n, n + 1};
    ParkStep(p3, n + 1, p4);
    hide Next;
    InsideFits(ids, n, p3);
    InsideFits(ids, n, p4);
  }

  lemma ParkStep(p: Lock, t: Tid, q: Lock)
    requires p.word == N_READERS && t in p.wantRead
    requires q == p.(wantRead := p.wantRead - {t}, gate1Readers := p.gate1Readers + {t})
    ensures Next(p, EnterAsReader(t), q)
  {}

  /** Two readers leave; the first wakes a parked one, the second nobody. */
  lemma LeaveSteps(ids: set<Tid>, n: nat, p4: Lock, p5: Lock, p6: Lock)
    requires n == N_READERS && FirstIds(ids, n) && p4 == AllReading(ids, n).(gate1Readers := {n, n + 1})
    requires p5 == p4.(word := n - 1, reading := ids - {0}, gate1Readers := {n + 1}, wantRead := {n})
    requires p6 == p5.(word := n - 2, reading := ids - {0} - {1})
    ensures Next(p4, UnlockShared(0, Reader(n)), p5) && Next(p5, UnlockShared(1, Reader(n + 1)), p6)
    ensures Fits(p5, n + 2) && Fits(p6, n + 2)
  {
    assert p4.gate1Readers - {n} == {n + 1} && p4.wantRead + {n} == {n};
    LeaveFull(p4, 0, n, p5);
    LeaveQuietly(p5, 1, n + 1, p6);
    hide Next;
    InsideFits(ids, n, p5);
    InsideFits(ids, n, p6);
  }

  lemma LeaveFull(p: Lock, t: Tid, r: Tid, q: Lock)
    requires p.word == N_READERS && t in p.reading && r in p.gate1Readers
    requires q == p.(word := p.word - 1, reading := p.reading - {t},
                     gate1Readers := p.gate1Readers - {r}, wantRead := p.wantRead + {r})
    ensures Next(p, UnlockShared(t, Reader(r)), q)
  {}

  lemma LeaveQuietly(p: Lock, t: Tid, r: Tid, q: Lock)
    requires p.word == N_READERS - 1 && t in p.reading && r in p.gate1Readers
    requires q == p.(word := p.word - 1, reading := p.reading - {t})
    ensures Next(p, UnlockShared(t, Reader(r)), q)
  {}

  /** The word and the gates when a reader leaves. */
  lemma ShareGivenBack(p: Lock, t: Tid, woken: Woken)
    requires Exclusive(p) && t in p.reading
    requires match woken
             case Writer(v) => if WriterBit(p.word) then v in p.gate2 else v in p.gate1Writers
             case Reader(v) => !WriterBit(p.word) && v in p.gate1Readers
             case Nobody => if WriterBit(p.word) then p.gate2 == {} else p.gate1Writers == {} && p.gate1Readers == {}
    ensures Enabled(p, Step.UnlockShared(t, woken))
    ensures Readers(p.word) > 0 && OneLess(Readers(p.word)) == Readers(p.word) - 1
    ensures WithReaders(p.word, OneLess(Readers(p.word))) == p.word - 1
    ensures var q := LeaveStep(p, t, woken);
            && q.word == p.word - 1 && q.reading == p.reading - {t} && |q.reading| == Readers(p.word) - 1
            && (WriterBit(p.word) && Readers(p.word) == 1 && woken.Writer? ==> woken.t in q.pastGate1)
            && (p.word == N_READERS && woken.Writer? ==> woken.t in q.wantWrite)
            && (p.word == N_READERS && woken.Reader? ==> woken.t in q.wantRead)
            && ((WriterBit(p.word) && Readers(p.word) > 1) || (!WriterBit(p.word) && Readers(p.word) < N_READERS) ==>
                  q.gate2 == p.gate2 && q.gate1Writers == p.gate1Writers && q.gate1Readers == p.gate1Readers)
  {
    assert p.reading != {};
    CountStaysInBits(p.word);
  }

  datatype Entry = EntersNow | WaitsAtGate1 | WaitsAtGate2
  datatype Notification = NotifyNobody | NotifyGate1 | NotifyGate2

  /** The word itself, as the regions under the inner mutex change it; lock records the threads. */
  class SharedMutex {
    var state: nat
    ghost var lock: Lock

    ghost predicate Agrees()
      reads this
    {
      state == lock.word && state < WORD
    }

    constructor ()
      ensures Agrees() && lock == FREE
    {
      state, lock := 0, FREE;
    }

    method Lock(ghost t: Tid) returns (entry: Entry)
      requires Agrees() && t in lock.wantWrite
      modifies this
      ensures Agrees() && Next(old(lock), EnterAsWriter(t), lock)
      ensures match entry
              case EntersNow => t in lock.writing
              case WaitsAtGate1 => t in lock.gate1Writers
              case WaitsAtGate2 => t in lock.gate2
      ensures entry == WaitsAtGate1 <==> old(state) >= 0x8000_0000
      ensures entry == EntersNow <==> old(state) == 0
      ensures state == if entry == WaitsAtGate1 then old(state) else old(state) + 0x8000_0000
    {
      lock := WriterStep(lock, t);
      if WriterBit(state) {
        return WaitsAtGate1;
      }
      state := EnterWriter(state);
      return if Readers(state) != 0 then WaitsAtGate2 else EntersNow;
    }

    /** A later turn of the second loop of lock, after a wake-up at gate 2; after one at gate 1 the thread
        is back in front of Lock, whose test is that of the first loop. */
    method LookAgain(ghost t: Tid) returns (entry: Entry)
      requires Agrees() && Exclusive(lock) && t in lock.pastGate1
      modifies this
      ensures Agrees() && Next(old(lock), Step.LookAgain(t), lock)
      ensures state == old(state)
      ensures entry == EntersNow <==> state == 0 || state == 0x8000_0000
      ensures if entry.EntersNow? then t in lock.writing else entry.WaitsAtGate2? && t in lock.gate2
    {
      lock := Apply(lock, Step.LookAgain(t));
      return if Readers(state) != 0 then WaitsAtGate2 else EntersNow;
    }

    method TryLock(ghost t: Tid, gotMutex: bool) returns (entered: bool)
      requires Agrees() && lock.Outside(t)
      modifies this
      ensures Agrees() && Next(old(lock), Step.TryLock(t, gotMutex), lock)
      ensures entered <==> gotMutex && old(state) == 0
      ensures entered <==> t in lock.writing
      ensures if entered then state == 0x8000_0000 else state == old(state) && lock == old(lock)
    {
      entered := gotMutex && state == 0;
      lock := Apply(lock, Step.TryLock(t, gotMutex));
      if entered {
        state := WRITE_ENTERED;
      }
    }

    method Unlock(ghost t: Tid)
      requires Agrees() && t in lock.writing
      modifies this
      ensures Agrees() && Next(old(lock), Step.Unlock(t), lock)
      ensures state == 0 && t !in lock.writing && t in lock.owes
    {
      lock := Apply(lock, Step.Unlock(t));
      state := 0;
    }

    method LockShared(ghost t: Tid) returns (entry: Entry)
      requires Agrees() && t in lock.wantRead
      modifies this
      ensures Agrees() && Next(old(lock), EnterAsReader(t), lock)
      ensures entry == EntersNow <==> old(state) < 0x7fff_ffff
      ensures state == if entry == EntersNow then old(state) + 1 else old(state)
      ensures if entry.EntersNow? then t in lock.reading else entry.WaitsAtGate1? && t in lock.gate1Readers
    {
      lock := ReaderStep(lock, t);
      if WriterBit(state) || Readers(state) == N_READERS {
        return WaitsAtGate1;
      }
      var numReaders := Readers(state) + 1;
      state := WithReaders(state, numReaders);
      return EntersNow;
    }

    method TryLockShared(ghost t: Tid, gotMutex: bool) returns (entered: bool)
      requires Agrees() && lock.Outside(t)
      modifies this
      ensures Agrees() && Next(old(lock), Step.TryLockShared(t, gotMutex), lock)
      ensures entered <==> gotMutex && old(state) < 0x7fff_ffff
      ensures entered <==> t in lock.reading
      ensures if entered then state == old(state) + 1 else state == old(state) && lock == old(lock)
    {
      lock := Apply(lock, Step.TryLockShared(t, gotMutex));
      var numReaders := Readers(state);
      if gotMutex && !WriterBit(state) && numReaders != N_READERS {
        state := WithReaders(state, numReaders + 1);
        return true;
      }
      return false;
    }

    method UnlockShared(ghost t: Tid, ghost woken: Woken) returns (notification: Notification)
      requires Agrees() && Exclusive(lock) && t in lock.reading
      requires match woken
               case Writer(v) => if state >= 0x8000_0000 then v in lock.gate2 else v in lock.gate1Writers
               case Reader(v) => state < 0x8000_0000 && v in lock.gate1Readers
               case Nobody => if state >= 0x8000_0000 then lock.gate2 == {} else lock.gate1Writers == {} && lock.gate1Readers == {}
      modifies this
      ensures Agrees() && Next(old(lock), Step.UnlockShared(t, woken), lock)
      ensures state == old(state) - 1 && lock.reading == old(lock.reading) - {t}
      ensures notification == NotifyGate2 <==> state == 0x8000_0000
      ensures notification == NotifyGate1 <==> state == 0x7fff_fffe
      ensures notification == NotifyGate2 && woken.Writer? ==> woken.t in lock.pastGate1
      ensures notification == NotifyGate1 && woken.Writer? ==> woken.t in lock.wantWrite
      ensures notification == NotifyGate1 && woken.Reader? ==> woken.t in lock.wantRead
      ensures notification == NotifyGate2 <==> WriterBit(state) && lock.reading == {}
      ensures notification == NotifyGate1 <==> !WriterBit(state) && |lock.reading| == N_READERS - 1
      ensures notification == NotifyNobody ==>
                lock.gate2 == old(lock.gate2) && lock.gate1Writers == old(lock.gate1Writers)
                && lock.gate1Readers == old(lock.gate1Readers)
    {
      hide LeaveStep; hide Exclusive; hide Counted; hide WithReaders; hide OneLess;
      ShareGivenBack(lock, t, woken);
      lock := LeaveStep(lock, t, woken);
      var numReaders := OneLess(Readers(state));
      state := WithReaders(state, numReaders);
      if WriterBit(state) {
        return if numReaders == 0 then NotifyGate2 else NotifyNobody;
      }
      return if numReaders == N_READERS - 1 then NotifyGate1 else NotifyNobody;
    }
  }
}
