/** What holds in every run of the watch channel, whatever the interleaving. */
module WatchRuns {
  import opened AsyncWatch
  import opened Wrappers

  /** Every step of the run is enabled where it is taken. */
  ghost predicate Legal<T>(wanted: (Pid, T) -> bool, s: State<T>, steps: seq<Step<T>>)
    decreases |steps|
  {
    && |s.history| > 0
    && (|steps| > 0 ==> Enabled(s, steps[0]) && Legal(wanted, Next(wanted, s, steps[0]), steps[1..]))
  }

  ghost function Final<T>(wanted: (Pid, T) -> bool, s: State<T>, steps: seq<Step<T>>): State<T>
    requires Legal(wanted, s, steps)
    decreases |steps|
  {
    if |steps| == 0 then s else Final(wanted, Next(wanted, s, steps[0]), steps[1..])
  }

  lemma {:induction false} RunHolds<T>(wanted: (Pid, T) -> bool, s: State<T>, steps: seq<Step<T>>)
    requires Inv(wanted, s) && Legal(wanted, s, steps)
    ensures Inv(wanted, Final(wanted, s, steps))
    decreases |steps|
  {
    hide Inv, Next, Enabled;
    if |steps| > 0 {
      StepHolds(wanted, s, steps[0]);
      RunHolds(wanted, Next(wanted, s, steps[0]), steps[1..]);
    }
  }

  /** Every state that a channel reaches. */
  ghost predicate Reached<T>(wanted: (Pid, T) -> bool, init: T, p: Pid, steps: seq<Step<T>>, s: State<T>) {
    Legal(wanted, Channel(init, p), steps) && Final(wanted, Channel(init, p), steps) == s
  }

  lemma ReachedHolds<T>(wanted: (Pid, T) -> bool, init: T, p: Pid, steps: seq<Step<T>>, s: State<T>)
    requires Reached(wanted, init, p, steps, s)
    ensures Inv(wanted, s)
  {
    hide Inv, Legal, Final;
    InitiallyHolds(wanted, init, p);
    RunHolds(wanted, Channel(init, p), steps);
  }

  // ---- what was sent ----

  /** The value each call was last asked to send, after one more step. */
  function Asked<T>(asked: map<Pid, T>, step: Step<T>): map<Pid, T> {
    if step.Tx? && step.txOp.StartSend? then asked[step.t := step.txOp.value] else asked
  }

  /** The values sent in a run, read off its steps alone: for every increment, in order, the value with
      which that call was started. */
  function Sent<T>(steps: seq<Step<T>>, asked: map<Pid, T>): seq<T> {
    if |steps| == 0 then []
    else SentBy(steps[0], asked) + Sent(steps[1..], Asked(asked, steps[0]))
  }

  function SentBy<T>(step: Step<T>, asked: map<Pid, T>): seq<T> {
    if step.Tx? && step.txOp.Increment? && step.t in asked then [asked[step.t]] else []
  }

  /** The initial value and all values sent. */
  function Values<T>(init: T, steps: seq<Step<T>>): seq<T> {
    [init] + Sent(steps, map[])
  }

  /** Every send under way carries the value it was asked to send, in its own variable or, once stored, in
      the shared one. */
  ghost predicate Carries<T>(s: State<T>, asked: map<Pid, T>) {
    forall t :: t in s.tx ==>
      && ((s.tx[t].SendStart? || s.tx[t].SendLock? || s.tx[t].SendLocked?) ==> t in asked && s.tx[t].value == asked[t])
      && (s.tx[t].SendWritten? ==> t in asked && s.value == asked[t])
  }

  lemma StepCarries<T>(wanted: (Pid, T) -> bool, s: State<T>, step: Step<T>, asked: map<Pid, T>)
    requires WriterHolds(s) && Enabled(s, step) && Carries(s, asked)
    ensures Carries(Next(wanted, s, step), Asked(asked, step))
    ensures Next(wanted, s, step).history == s.history + SentBy(step, asked)
  {
    hide Version, IsClosed, Incremented, WithClosed, VersionAt, Moved, RxEnabled, Woken, NextTx, TxEnabled;
    if step.Tx? {
      TxCarries(s, step.t, step.txOp, asked);
    }
  }

  lemma TxCarries<T>(s: State<T>, t: Pid, op: TxOp<T>, asked: map<Pid, T>)
    requires WriterHolds(s) && TxEnabled(s, t, op) && Carries(s, asked)
    ensures Carries(NextTx(s, t, op), Asked(asked, Tx(t, op)))
    ensures NextTx(s, t, op).history == s.history + SentBy(Tx(t, op), asked)
  {
    hide Incremented, Woken;
    if t in s.tx && HoldsWrite(s.tx[t]) {
      assert s.writer == Some(t);
    }
  }

  lemma {:induction false} SendsCarry<T>(wanted: (Pid, T) -> bool, s: State<T>, steps: seq<Step<T>>,
                                         asked: map<Pid, T>)
    requires Inv(wanted, s) && Legal(wanted, s, steps) && Carries(s, asked)
    ensures Final(wanted, s, steps).history == s.history + Sent(steps, asked)
    decreases |steps|
  {
    hide Inv, Next, Enabled, Carries, SentBy, Asked;
    if |steps| > 0 {
      InvParts(wanted, s);
      WriterPart(s);
      StepCarries(wanted, s, steps[0], asked);
      StepHolds(wanted, s, steps[0]);
      SendsCarry(wanted, Next(wanted, s, steps[0]), steps[1..], Asked(asked, steps[0]));
    }
  }

  lemma WriterPart<T>(s: State<T>)
    requires Locks(s)
    ensures WriterHolds(s)
  {
  }

  /** In every run the published values are the initial one and those that calls of `send` were given, in
      the order in which they were published. */
  lemma PublishedIsSent<T>(wanted: (Pid, T) -> bool, init: T, p: Pid, steps: seq<Step<T>>, s: State<T>)
    requires Reached(wanted, init, p, steps, s)
    ensures s.history == Values(init, steps)
  {
    hide Inv, Next, Enabled, Legal, Final, Sent;
    InitiallyHolds(wanted, init, p);
    SendsCarry(wanted, Channel(init, p), steps, map[]);
  }

  // ---- no lost wakeups ----

  /** A receiver that waits and has not been notified has seen the latest version of an open channel,
      unless a sender has published and not yet notified. Only a lag of a multiple of 2^31 sends hides
      behind an equal version. */
  lemma NoLostWakeup<T>(wanted: (Pid, T) -> bool, init: T, p: Pid, steps: seq<Step<T>>, s: State<T>, q: Pid)
    requires Reached(wanted, init, p, steps, s)
    requires q in s.rx && s.rx[q].pc.Parked? && !s.rx[q].pc.notified && !NotifyPending(s)
    ensures !IsClosed(s.word) && s.rx[q].version == Version(s.word)
    ensures var latest := |Values(init, steps)| - 1;
            && 0 <= latest - s.rx[q].seen && (latest - s.rx[q].seen) % VERSIONS == 0
            && (s.rx[q].seen == latest <==> latest - s.rx[q].seen < VERSIONS)
  {
    hide Values;
    PublishedIsSent(wanted, init, p, steps, s);
    ReachedHolds(wanted, init, p, steps, s);
    SeenOf(wanted, s, q);
    WordParts(s.Latest(), Marked(s.sender));
    SameVersion(s.rx[q].seen, s.Latest());
  }

  lemma SeenOf<T>(wanted: (Pid, T) -> bool, s: State<T>, q: Pid)
    requires Inv(wanted, s) && q in s.rx
    ensures RxHolds(v => wanted(q, v), s.rx[q], s)
  {
  }

  /** A `closed` call that waits and has not been notified still has a receiver, unless the last one
      is between taking down the count and notifying. */
  lemma NoLostClose<T>(wanted: (Pid, T) -> bool, init: T, p: Pid, steps: seq<Step<T>>, s: State<T>, t: Pid)
    requires Reached(wanted, init, p, steps, s)
    requires t in s.tx && s.tx[t] == ClosedParked(false) && s.droppers == {}
    ensures s.rx.Keys != {}
  {
    ReachedHolds(wanted, init, p, steps, s);
  }

  /** Only the last receiver that is dropped owes a notification. */
  ghost predicate OneDropper<T>(s: State<T>) {
    (forall d, e :: d in s.droppers && e in s.droppers ==> d == e) && (s.droppers != {} ==> s.rxCount == 0)
  }

  lemma StepDroppers<T>(wanted: (Pid, T) -> bool, s: State<T>, step: Step<T>)
    requires Inv(wanted, s) && Enabled(s, step) && OneDropper(s)
    ensures OneDropper(Next(wanted, s, step))
    ensures NotifiesClosers(step) ==> Next(wanted, s, step).droppers == {} && s.rxCount == 0
  {
    hide Version, IsClosed, Incremented, WithClosed, Moved, RxEnabled, Woken, WokenTx, Locks, Receivers, ReceiversAwake,
         ClosersAwake;
    if step.Handle? && step.p in s.rx {
      assert step.p in s.rx.Keys;
      assert |s.rx.Keys| == |s.rx|;
    }
  }

  lemma {:induction false} NoDropperComesBack<T>(wanted: (Pid, T) -> bool, s: State<T>, steps: seq<Step<T>>)
    requires Legal(wanted, s, steps) && (forall q :: q !in s.rx) && s.droppers == {}
    ensures Final(wanted, s, steps).droppers == {}
    decreases |steps|
  {
    if |steps| > 0 {
      StaysEmpty(wanted, s, steps[0]);
      StaysSettled(wanted, s, steps[0]);
      NoDropperComesBack(wanted, Next(wanted, s, steps[0]), steps[1..]);
    }
  }

  lemma StaysSettled<T>(wanted: (Pid, T) -> bool, s: State<T>, step: Step<T>)
    requires |s.history| > 0 && Enabled(s, step) && (forall q :: q !in s.rx) && s.droppers == {}
    ensures Next(wanted, s, step).droppers == {}
  {
    hide Version, IsClosed, Incremented, WithClosed, Moved, RxEnabled, Woken, WokenTx;
  }

  lemma {:induction false} DropsSettle<T>(wanted: (Pid, T) -> bool, s: State<T>, steps: seq<Step<T>>, i: nat)
    requires Inv(wanted, s) && OneDropper(s) && Legal(wanted, s, steps) && i < |steps| && NotifiesClosers(steps[i])
    ensures Final(wanted, s, steps).droppers == {} && forall q :: q !in Final(wanted, s, steps).rx
    decreases |steps|
  {
    NonEmpty(s);
    hide Next, Enabled, Inv, OneDropper;
    var s' := Next(wanted, s, steps[0]);
    StepHolds(wanted, s, steps[0]);
    StepDroppers(wanted, s, steps[0]);
    if i == 0 {
      SettledNow(wanted, s, steps[0]);
      NoDropperComesBack(wanted, s', steps[1..]);
      NoneComesBack(wanted, s', steps[1..]);
    } else {
      DropsSettle(wanted, s', steps[1..], i - 1);
    }
  }

  lemma SettledNow<T>(wanted: (Pid, T) -> bool, s: State<T>, step: Step<T>)
    requires Inv(wanted, s) && Enabled(s, step) && OneDropper(s) && NotifiesClosers(step)
    ensures forall q :: q !in Next(wanted, s, step).rx
  {
    hide Locks, Receivers, ReceiversAwake, ClosersAwake;
    assert |s.rx.Keys| == |s.rx|;
    assert s.rx.Keys == {};
    assert forall q :: q in s.rx <==> q in s.rx.Keys;
  }

  /** In every run in which the last receiver has notified, nobody owes a notification any more, no receiver
      is left, and no call of `closed` waits un-notified. */
  lemma DropSettled<T>(wanted: (Pid, T) -> bool, init: T, p: Pid, steps: seq<Step<T>>, s: State<T>, i: nat)
    requires Reached(wanted, init, p, steps, s) && i < |steps| && NotifiesClosers(steps[i])
    ensures s.droppers == {} && (forall q :: q !in s.rx) && forall t :: t in s.tx ==> s.tx[t] != ClosedParked(false)
  {
    InitiallyHolds(wanted, init, p);
    DropsSettle(wanted, Channel(init, p), steps, i);
    assert forall q :: q in s.rx <==> q in s.rx.Keys;
    assert s.rx.Keys == {};
    forall t | t in s.tx
      ensures s.tx[t] != ClosedParked(false)
    {
      if s.tx[t] == ClosedParked(false) {
        NoLostClose(wanted, init, p, steps, s, t);
      }
    }
  }

  /** A send is refused, and `closed` returns, exactly when no receiver is left. */
  lemma CountIsTrue<T>(wanted: (Pid, T) -> bool, init: T, p: Pid, steps: seq<Step<T>>, s: State<T>)
    requires Reached(wanted, init, p, steps, s)
    ensures s.rxCount == 0 <==> forall q :: q !in s.rx
  {
    ReachedHolds(wanted, init, p, steps, s);
    if q :| q in s.rx {
      assert q in s.rx.Keys;
    } else {
      assert s.rx.Keys == {};
    }
  }

  /** Once no receiver is left none comes back. */
  lemma {:induction false} NoneComesBack<T>(wanted: (Pid, T) -> bool, s: State<T>, steps: seq<Step<T>>)
    requires Legal(wanted, s, steps) && forall q :: q !in s.rx
    ensures forall q :: q !in Final(wanted, s, steps).rx
    decreases |steps|
  {
    if |steps| > 0 {
      StaysEmpty(wanted, s, steps[0]);
      NoneComesBack(wanted, Next(wanted, s, steps[0]), steps[1..]);
    }
  }

  lemma StaysEmpty<T>(wanted: (Pid, T) -> bool, s: State<T>, step: Step<T>)
    requires |s.history| > 0 && Enabled(s, step) && forall q :: q !in s.rx
    ensures forall q :: q !in Next(wanted, s, step).rx
  {
    hide Version, IsClosed, Incremented, WithClosed, Moved, RxEnabled, Woken, WokenTx;
  }

  // ---- what a receiver is told ----

  /** The values returned by `recv` are sent values paired with their own positions, and the positions
      that `recv` and `changed` report increase strictly, however far the receiver lags. */
  lemma ReceivedInOrder<T>(wanted: (Pid, T) -> bool, init: T, p: Pid, steps: seq<Step<T>>, s: State<T>, q: Pid)
    requires Reached(wanted, init, p, steps, s) && q in s.rx
    ensures var log, values := s.rx[q].log, Values(init, steps);
            && (forall i :: 0 <= i < |log| ==> log[i].at < |values|)
            && (forall i :: 0 <= i < |log| && log[i].Got? ==> log[i].value == values[log[i].at])
            && (forall i, j :: 0 <= i < j < |log| && Reports(log[i]) && Reports(log[j]) ==> log[i].at < log[j].at)
  {
    hide Values;
    PublishedIsSent(wanted, init, p, steps, s);
    ReachedHolds(wanted, init, p, steps, s);
    SeenOf(wanted, s, q);
  }

  /** An error is reported only on a closed channel, and only after the last value was seen, provided
      the receiver lags by less than 2^31 sends; with a larger lag it is not. */
  lemma LastValueSeen<T>(wanted: (Pid, T) -> bool, init: T, p: Pid, steps: seq<Step<T>>, s: State<T>, q: Pid, i: nat)
    requires Reached(wanted, init, p, steps, s) && q in s.rx
    requires i < |s.rx[q].log| && s.rx[q].log[i].Ended?
    ensures IsClosed(s.word) && s.rx[q].log[i].at < |Values(init, steps)|
    ensures var latest := |Values(init, steps)| - 1;
            s.rx[q].log[i].at == latest <==> latest - s.rx[q].log[i].at < VERSIONS
  {
    hide Values;
    PublishedIsSent(wanted, init, p, steps, s);
    ReachedHolds(wanted, init, p, steps, s);
    SeenOf(wanted, s, q);
    SameVersion(s.rx[q].log[i].at, s.Latest());
  }

  /** A closed channel never publishes again, so its latest value is the last one. */
  lemma {:induction false} ClosedIsFinal<T>(wanted: (Pid, T) -> bool, s: State<T>, steps: seq<Step<T>>)
    requires Inv(wanted, s) && IsClosed(s.word) && Legal(wanted, s, steps)
    ensures Final(wanted, s, steps).history == s.history && IsClosed(Final(wanted, s, steps).word)
    decreases |steps|
  {
    hide Inv, Next, Enabled, IsClosed;
    if |steps| > 0 {
      StepHolds(wanted, s, steps[0]);
      InvParts(wanted, s);
      StepLater(wanted, s, steps[0]);
      ClosedIsFinal(wanted, Next(wanted, s, steps[0]), steps[1..]);
    }
  }

  lemma InvParts<T>(wanted: (Pid, T) -> bool, s: State<T>)
    requires Inv(wanted, s)
    ensures Words(s) && Locks(s)
  {
  }

  lemma TakeEnds<T>(wanted: (Pid, T) -> bool, s: State<T>, q: Pid)
    requires Inv(wanted, s) && q in s.rx && s.rx[q].pc == Loaded(Take)
    ensures |s.history| > 0
    ensures var r := Next(wanted, s, Rx(q, ReadUnlock)).rx[q];
            && r.log == s.rx[q].log + [Got(s.Latest(), s.history[s.Latest()])]
            && r.seen == s.Latest() && r.version == Version(s.word)
  {
    SeenOf(wanted, s, q);
    WordParts(s.Latest(), Marked(s.sender));
    assert q in s.readers;
  }

  /** `recv` leaves the value it returns marked as seen, and it returns the latest one. */
  lemma RecvMarksItsValue<T>(wanted: (Pid, T) -> bool, init: T, p: Pid, steps: seq<Step<T>>, s: State<T>, q: Pid)
    requires Reached(wanted, init, p, steps, s) && q in s.rx && s.rx[q].pc == Loaded(Take)
    ensures |s.history| > 0 && Enabled(s, Rx(q, ReadUnlock))
    ensures var r, values := Next(wanted, s, Rx(q, ReadUnlock)).rx[q], Values(init, steps);
            && r.log == s.rx[q].log + [Got(|values| - 1, values[|values| - 1])]
            && r.seen == |values| - 1 && r.version == Version(s.word)
  {
    hide Next, Values;
    PublishedIsSent(wanted, init, p, steps, s);
    ReachedHolds(wanted, init, p, steps, s);
    TakeEnds(wanted, s, q);
  }

  // ---- dropping a future ----

  /** The receiver is inside the loop of `changed` before every step of the run and after it. */
  ghost predicate StaysInCall<T>(wanted: (Pid, T) -> bool, s: State<T>, steps: seq<Step<T>>, q: Pid)
    requires Legal(wanted, s, steps)
    decreases |steps|
  {
    && q in s.rx && InCall(s.rx[q].pc)
    && (|steps| > 0 ==> StaysInCall(wanted, Next(wanted, s, steps[0]), steps[1..], q))
  }

  /** However long it waited and whatever was sent meanwhile, a call of `recv` or `changed` that is
      dropped leaves the receiver exactly as it was when the call was made. */
  lemma DroppedCallConsumesNothing<T>(wanted: (Pid, T) -> bool, s: State<T>, start: Step<T>, q: Pid,
                                      steps: seq<Step<T>>)
    requires Enabled(s, start) && |s.history| > 0 && (start == Rx(q, StartRecv) || start == Rx(q, StartChanged))
    requires Legal(wanted, Next(wanted, s, start), steps) && StaysInCall(wanted, Next(wanted, s, start), steps, q)
    requires Enabled(Final(wanted, Next(wanted, s, start), steps), Rx(q, DropFuture))
    ensures var s' := Final(wanted, Next(wanted, s, start), steps);
            |s'.history| > 0 && q in Next(wanted, s', Rx(q, DropFuture)).rx
                && Next(wanted, s', Rx(q, DropFuture)).rx[q] == s.rx[q]
  {
    PendingKeeps(wanted, Next(wanted, s, start), steps, q, s.rx[q]);
  }

  lemma {:induction false} PendingKeeps<T>(wanted: (Pid, T) -> bool, s: State<T>, steps: seq<Step<T>>, q: Pid,
                                           r: Receiver<T>)
    requires Legal(wanted, s, steps) && StaysInCall(wanted, s, steps, q)
    requires s.rx[q].(pc := r.pc) == r
    ensures var s' := Final(wanted, s, steps);
            |s'.history| > 0 && q in s'.rx && s'.rx[q].(pc := r.pc) == r
    decreases |steps|
  {
    hide Next, Enabled;
    if |steps| > 0 {
      StepPending(wanted, s, steps[0], q);
      PendingKeeps(wanted, Next(wanted, s, steps[0]), steps[1..], q, r);
    }
  }

  lemma StepPending<T>(wanted: (Pid, T) -> bool, s: State<T>, step: Step<T>, q: Pid)
    requires |s.history| > 0 && Enabled(s, step)
    requires q in s.rx && InCall(s.rx[q].pc)
    requires q in Next(wanted, s, step).rx && InCall(Next(wanted, s, step).rx[q].pc)
    ensures Next(wanted, s, step).rx[q].(pc := Idle) == s.rx[q].(pc := Idle)
  {
    hide Version, IsClosed, Incremented, WithClosed, VersionAt, NextTx, NextHandle, NextSender, TxEnabled,
         HandleEnabled, SenderEnabled;
    if !(step.Rx? && step.p == q) {
      OthersWake(wanted, s, step, q);
    }
  }

  // ---- wait_until ----

  /** `wait_until` is parked only while its predicate refuses the current value of an open channel, or a
      notification is under way. This holds although its borrow does not mark what it looks at as seen.
      Only behind a lag of 2^31 sends or more can the refused value be an older one. */
  lemma WaitsOnRefusedValue<T>(wanted: (Pid, T) -> bool, init: T, p: Pid, steps: seq<Step<T>>, s: State<T>, q: Pid)
    requires Reached(wanted, init, p, steps, s)
    requires q in s.rx && s.rx[q].pc.Parked? && s.rx[q].pc.call.ForWait? && !s.rx[q].pc.notified && !NotifyPending(s)
    ensures !IsClosed(s.word)
    ensures var judged, values := s.rx[q].pc.call.judged, Values(init, steps);
            && s.rx[q].seen <= judged < |values| && !wanted(q, values[judged])
            && (judged == |values| - 1 || |values| - 1 - s.rx[q].seen >= VERSIONS)
  {
    hide Values;
    PublishedIsSent(wanted, init, p, steps, s);
    NoLostWakeup(wanted, init, p, steps, s, q);
    ReachedHolds(wanted, init, p, steps, s);
    SeenOf(wanted, s, q);
  }

  /** A wait that ended without being dropped found its predicate true of a published value, or the
      channel closed. */
  lemma WaitEnds<T>(wanted: (Pid, T) -> bool, init: T, p: Pid, steps: seq<Step<T>>, s: State<T>, step: Step<T>, q: Pid)
    requires Reached(wanted, init, p, steps, s) && Enabled(s, step) && |s.history| > 0
    requires q in s.rx && (s.rx[q].pc == HasRead(Judge) || (InCall(s.rx[q].pc) && s.rx[q].pc.call.ForWait?))
    requires q in Next(wanted, s, step).rx && Next(wanted, s, step).rx[q].pc == Idle && step != Rx(q, DropFuture)
    ensures var values := Values(init, steps);
            IsClosed(s.word) || (step == Rx(q, ReadUnlock) && wanted(q, values[|values| - 1]))
  {
    hide Next, Reached, Values;
    PublishedIsSent(wanted, init, p, steps, s);
    ReachedHolds(wanted, init, p, steps, s);
    WaitStepEnds(wanted, s, step, q);
    assert q in s.readers ==> s.value == s.history[s.Latest()];
  }

  lemma WaitStepEnds<T>(wanted: (Pid, T) -> bool, s: State<T>, step: Step<T>, q: Pid)
    requires Enabled(s, step) && |s.history| > 0
    requires q in s.rx && (s.rx[q].pc == HasRead(Judge) || (InCall(s.rx[q].pc) && s.rx[q].pc.call.ForWait?))
    requires q in Next(wanted, s, step).rx && Next(wanted, s, step).rx[q].pc == Idle && step != Rx(q, DropFuture)
    ensures (step == Rx(q, Check) && IsClosed(s.word))
              || (step == Rx(q, ReadUnlock) && wanted(q, s.value) && HoldsRead(s.rx[q].pc))
  {
    hide Version, IsClosed, Incremented, WithClosed, VersionAt, NextTx, NextHandle, NextSender, TxEnabled,
         HandleEnabled, SenderEnabled;
    if !(step.Rx? && step.p == q) {
      OthersWake(wanted, s, step, q);
    }
  }

  // ---- progress ----

  lemma ReaderCanMove<T>(s: State<T>, q: Pid)
    requires q in s.rx && HoldsRead(s.rx[q].pc)
    ensures Enabled(s, Rx(q, LoadVersion)) || Enabled(s, Rx(q, ReadUnlock))
  {
    var pc := s.rx[q].pc;
    if pc.HasRead? {
      match pc.use
      case Peek => assert pc == HasRead(Peek);
      case Update => assert pc == HasRead(Update);
      case Take => assert pc == HasRead(Take);
      case Judge => assert pc == HasRead(Judge);
    }
  }

  /** A send that waits for the lock is never stuck behind nothing: either it can take the lock, or the
      holder can take a step. */
  lemma LockHolderCanMove<T>(wanted: (Pid, T) -> bool, init: T, p: Pid, steps: seq<Step<T>>, s: State<T>, t: Pid)
    requires Reached(wanted, init, p, steps, s) && t in s.tx && s.tx[t].SendLock?
    ensures || Enabled(s, Tx(t, WriteLock))
            || (exists u :: u in s.tx && HoldsWrite(s.tx[u])
                  && (Enabled(s, Tx(u, WriteValue)) || Enabled(s, Tx(u, Increment)) || Enabled(s, Tx(u, WriteUnlock))))
            || (exists q :: q in s.readers && (Enabled(s, Rx(q, LoadVersion)) || Enabled(s, Rx(q, ReadUnlock))))
  {
    ReachedHolds(wanted, init, p, steps, s);
    if s.writer.Some? {
      var u := s.writer.value;
      assert s.writer == Some(u);
      assert u in s.tx && HoldsWrite(s.tx[u]);
      assert Enabled(s, Tx(u, WriteValue)) || Enabled(s, Tx(u, Increment)) || Enabled(s, Tx(u, WriteUnlock));
    } else if q :| q in s.readers {
      assert HoldsRead(s.rx[q].pc) && RxHolds(v => wanted(q, v), s.rx[q], s);
      ReaderCanMove(s, q);
    } else {
      assert s.readers == {};
    }
  }

  // ---- delivery ----

  /** Every receiver that waits, or has registered to wait, has been notified. */
  ghost predicate AllNotified<T>(s: State<T>) {
    forall q :: q in s.rx && Registered(s.rx[q].pc) ==> s.rx[q].pc.notified
  }

  /** A listener is registered. */
  predicate Registered(pc: RxPc) {
    pc.Listening? || pc.Parked?
  }

  predicate RegisteredTx<T>(pc: TxPc<T>) {
    pc.ClosedCheck? || pc.ClosedParked?
  }

  /** The step notifies receivers, or calls of `closed`. */
  predicate Notifies<T>(step: Step<T>) {
    step == Sender(NotifyClosed) || (step.Tx? && step.txOp.NotifySent?)
  }

  predicate NotifiesClosers<T>(step: Step<T>) {
    step.Handle? && step.handleOp.NotifyDropped?
  }

  /** A listener's flag is set exactly from a notification while it is registered; none is lost between
      registering and waiting, and none is made up. */
  lemma NotifiedExactly<T>(wanted: (Pid, T) -> bool, s: State<T>, step: Step<T>, q: Pid)
    requires |s.history| > 0 && Enabled(s, step)
    requires q in s.rx && q in Next(wanted, s, step).rx && Registered(Next(wanted, s, step).rx[q].pc)
    ensures Next(wanted, s, step).rx[q].pc.notified
       <==> Registered(s.rx[q].pc) && (s.rx[q].pc.notified || Notifies(step))
  {
    hide Version, IsClosed, Incremented, WithClosed, VersionAt;
  }

  lemma ClosedNotifiedExactly<T>(wanted: (Pid, T) -> bool, s: State<T>, step: Step<T>, t: Pid)
    requires |s.history| > 0 && Enabled(s, step)
    requires t in s.tx && t in Next(wanted, s, step).tx && RegisteredTx(Next(wanted, s, step).tx[t])
    ensures Next(wanted, s, step).tx[t].notified
       <==> RegisteredTx(s.tx[t]) && (s.tx[t].notified || NotifiesClosers(step))
  {
    hide Version, IsClosed, Incremented, WithClosed, VersionAt;
  }

  /** Own steps that a publishing send has left up to its notification. */
  function ToNotify<T>(pc: TxPc<T>): nat {
    if pc.SendBumped? then 2 else 1
  }

  /** How many steps of a run are steps of one call on the sender. */
  function StepsOf<T>(steps: seq<Step<T>>, t: Pid): nat {
    if |steps| == 0 then 0 else (if steps[0].Tx? && steps[0].t == t then 1 else 0) + StepsOf(steps[1..], t)
  }

  /** While a notification is pending, whoever owes it can take a step; nothing holds it up. */
  lemma PublisherCanMove<T>(s: State<T>)
    requires NotifyPending(s)
    ensures || (s.sender.MarkedClosed? && Enabled(s, Sender(NotifyClosed)))
            || (exists t :: t in s.tx && Publishing(s.tx[t])
                  && (Enabled(s, Tx(t, WriteUnlock)) || Enabled(s, Tx(t, NotifySent))))
  {
    if !s.sender.MarkedClosed? {
      var t :| t in s.tx && Publishing(s.tx[t]);
      assert Enabled(s, Tx(t, WriteUnlock)) || Enabled(s, Tx(t, NotifySent));
    }
  }

  /** Only its own steps move a publishing send: first it gives back the lock, then it notifies everyone. */
  lemma PublisherSteps<T>(wanted: (Pid, T) -> bool, s: State<T>, step: Step<T>, t: Pid)
    requires |s.history| > 0 && Enabled(s, step) && t in s.tx && Publishing(s.tx[t])
    ensures var s' := Next(wanted, s, step);
            if !(step.Tx? && step.t == t) then t in s'.tx && s'.tx[t] == s.tx[t]
            else if s.tx[t].SendBumped? then t in s'.tx && s'.tx[t] == SendUnlocked
            else AllNotified(s')
  {
    hide Version, IsClosed, Incremented, WithClosed, VersionAt;
  }

  /** The first part of a run is a run. */
  lemma {:induction false} PrefixLegal<T>(wanted: (Pid, T) -> bool, s: State<T>, steps: seq<Step<T>>, k: nat)
    requires Legal(wanted, s, steps) && 0 < k <= |steps|
    requires Legal(wanted, Next(wanted, s, steps[0]), steps[1..][..k - 1])
    ensures Legal(wanted, s, steps[..k])
    ensures Final(wanted, s, steps[..k]) == Final(wanted, Next(wanted, s, steps[0]), steps[1..][..k - 1])
  {
    hide Next, Enabled;
    assert steps[..k][1..] == steps[1..][..k - 1];
  }

  /** In every run in which a publishing send takes its one or two remaining steps, whatever the others do
      in between, there is a point at which every waiting receiver has been notified. */
  lemma {:induction false} Delivered<T>(wanted: (Pid, T) -> bool, s: State<T>, steps: seq<Step<T>>, t: Pid)
    returns (k: nat)
    requires Legal(wanted, s, steps) && t in s.tx && Publishing(s.tx[t])
    requires StepsOf(steps, t) >= ToNotify(s.tx[t])
    ensures k <= |steps| && Legal(wanted, s, steps[..k]) && AllNotified(Final(wanted, s, steps[..k]))
    decreases |steps|
  {
    hide Next, Enabled, AllNotified;
    var step, s' := steps[0], Next(wanted, s, steps[0]);
    PublisherSteps(wanted, s, step, t);
    if step.Tx? && step.t == t && s.tx[t].SendUnlocked? {
      k := 1;
      NoSteps(wanted, s', steps[1..]);
    } else {
      var k' := Delivered(wanted, s', steps[1..], t);
      k := k' + 1;
    }
    PrefixLegal(wanted, s, steps, k);
  }

  lemma NoSteps<T>(wanted: (Pid, T) -> bool, s: State<T>, steps: seq<Step<T>>)
    requires |s.history| > 0
    ensures Legal(wanted, s, steps[..0]) && Final(wanted, s, steps[..0]) == s
  {
  }

  /** The same for a sender that has closed the channel: its next step notifies everyone. */
  lemma {:induction false} ClosingDelivered<T>(wanted: (Pid, T) -> bool, s: State<T>, steps: seq<Step<T>>)
    returns (k: nat)
    requires Legal(wanted, s, steps) && s.sender.MarkedClosed? && exists i :: 0 <= i < |steps| && steps[i].Sender?
    ensures k <= |steps| && Legal(wanted, s, steps[..k]) && AllNotified(Final(wanted, s, steps[..k]))
    decreases |steps|
  {
    hide Next, Enabled, AllNotified;
    var step, s' := steps[0], Next(wanted, s, steps[0]);
    CloserSteps(wanted, s, step);
    if step.Sender? {
      k := 1;
      NoSteps(wanted, s', steps[1..]);
    } else {
      var i :| 0 <= i < |steps| && steps[i].Sender?;
      assert steps[1..][i - 1].Sender?;
      var k' := ClosingDelivered(wanted, s', steps[1..]);
      k := k' + 1;
    }
    PrefixLegal(wanted, s, steps, k);
  }

  lemma CloserSteps<T>(wanted: (Pid, T) -> bool, s: State<T>, step: Step<T>)
    requires |s.history| > 0 && Enabled(s, step) && s.sender.MarkedClosed?
    ensures var s' := Next(wanted, s, step);
            if step.Sender? then AllNotified(s') else s'.sender.MarkedClosed?
  {
    hide Version, IsClosed, Incremented, WithClosed, VersionAt;
  }

  /** A call of `closed`, and the own steps that it takes at most to return once no receiver is left and it
      does not wait un-notified. */
  predicate InClosed<T>(pc: TxPc<T>) {
    pc.ClosedStart? || pc.ClosedListen? || pc.ClosedCheck? || pc.ClosedParked?
  }

  function ToReturn<T>(pc: TxPc<T>): nat {
    if pc.ClosedListen? || pc.ClosedParked? then 2 else 1
  }

  /** `closed` returns once no receiver is left: in every run in which it takes one or two more steps. */
  lemma {:induction false} ClosedReturns<T>(wanted: (Pid, T) -> bool, s: State<T>, steps: seq<Step<T>>, t: Pid)
    returns (k: nat)
    requires Legal(wanted, s, steps) && s.rx == map[] && s.rxCount == 0
    requires t in s.tx && InClosed(s.tx[t]) && s.tx[t] != ClosedParked(false)
    requires StepsOf(steps, t) >= ToReturn(s.tx[t])
    ensures k <= |steps| && Legal(wanted, s, steps[..k]) && t !in Final(wanted, s, steps[..k]).tx
    decreases |steps|
  {
    hide Next, Enabled;
    var step, s' := steps[0], Next(wanted, s, steps[0]);
    ClosedSteps(wanted, s, step, t);
    if t !in s'.tx {
      k := 1;
      NoSteps(wanted, s', steps[1..]);
    } else {
      var k' := ClosedReturns(wanted, s', steps[1..], t);
      k := k' + 1;
    }
    PrefixLegal(wanted, s, steps, k);
  }

  // ---- a call with news returns ----

  /** How many steps of a run are steps of one handle. */
  function RxStepsOf<T>(steps: seq<Step<T>>, q: Pid): nat {
    if |steps| == 0 then 0 else (if steps[0].Rx? && steps[0].p == q then 1 else 0) + RxStepsOf(steps[1..], q)
  }

  /** Own steps that a call in the loop of `changed` needs before it has looked at the state once more. */
  function ToLook(pc: RxPc): nat {
    if pc.Parked? then 3 else if pc.Enter? then 2 else 1
  }

  /** A handle whose call is not waiting un-notified, with something to report: a value it has not seen, at
      a lag that an equal version cannot hide, or the end of the channel. */
  ghost predicate HasNews<T>(wanted: (Pid, T) -> bool, s: State<T>, q: Pid, call: Call) {
    && Inv(wanted, s) && q in s.rx && InCall(s.rx[q].pc) && s.rx[q].pc.call == call
    && (s.rx[q].pc.Parked? ==> s.rx[q].pc.notified)
    && (IsClosed(s.word) || s.rx[q].seen < s.Latest())
  }

  /** What such a call comes to: `changed` reports a new value, `recv` goes and fetches it, a wait asks its
      predicate again; or, with nothing new on a closed channel, all three report its end. */
  ghost predicate Answered<T>(was: Receiver<T>, r: Receiver<T>, call: Call) {
    || (r.pc.Idle? && (exists at :: r.log == was.log + [Ended(at)]))
    || (r.seen > was.seen && r.version == VersionAt(r.seen) &&
        match call
        case ForChanged => r.pc.Idle? && r.log == was.log + [Saw(r.seen)]
        case ForRecv => r.pc == WantRead(Take)
        case ForWait(_) => r.pc == WantRead(Judge))
  }

  /** A call with news that is not dropped is answered within three of its own steps, whatever the others
      do in between. */
  lemma {:induction false} NewsIsAnswered<T>(wanted: (Pid, T) -> bool, s: State<T>, steps: seq<Step<T>>, q: Pid,
                                             call: Call)
    returns (k: nat)
    requires HasNews(wanted, s, q, call) && Legal(wanted, s, steps)
    requires forall i :: 0 <= i < |steps| ==> steps[i] != Rx(q, DropFuture)
    requires RxStepsOf(steps, q) >= ToLook(s.rx[q].pc)
    requires Final(wanted, s, steps).Latest() - s.rx[q].seen < VERSIONS
    ensures k <= |steps| && Legal(wanted, s, steps[..k]) && q in Final(wanted, s, steps[..k]).rx
    ensures Answered(s.rx[q], Final(wanted, s, steps[..k]).rx[q], call)
    decreases |steps|
  {
    hide Next, Enabled, Answered, Inv, InCall, IsClosed;
    var step, s' := steps[0], Next(wanted, s, steps[0]);
    LatestGrows(wanted, s, steps);
    NewsStep(wanted, s, step, q, call);
    if step == Rx(q, Check) {
      k := 1;
      NoSteps(wanted, s', steps[1..]);
    } else {
      var k' := NewsIsAnswered(wanted, s', steps[1..], q, call);
      k := k' + 1;
      SameQuestion(s'.rx[q], s.rx[q], Final(wanted, s', steps[1..][..k']).rx[q], call);
    }
    PrefixLegal(wanted, s, steps, k);
  }

  lemma SameQuestion<T>(a: Receiver<T>, b: Receiver<T>, r: Receiver<T>, call: Call)
    requires Answered(a, r, call) && a.seen == b.seen && a.log == b.log
    ensures Answered(b, r, call)
  {
    hide VersionAt;
  }

  lemma {:induction false} LatestGrows<T>(wanted: (Pid, T) -> bool, s: State<T>, steps: seq<Step<T>>)
    requires Inv(wanted, s) && Legal(wanted, s, steps)
    ensures s.Latest() <= Final(wanted, s, steps).Latest()
    decreases |steps|
  {
    hide Inv, Next, Enabled;
    if |steps| > 0 {
      InvParts(wanted, s);
      StepLater(wanted, s, steps[0]);
      StepHolds(wanted, s, steps[0]);
      LatestGrows(wanted, Next(wanted, s, steps[0]), steps[1..]);
    }
  }

  /** The news stays until the call looks, and then it is answered. */
  lemma NewsStep<T>(wanted: (Pid, T) -> bool, s: State<T>, step: Step<T>, q: Pid, call: Call)
    requires HasNews(wanted, s, q, call) && |s.history| > 0 && Enabled(s, step) && step != Rx(q, DropFuture)
    requires s.Latest() - s.rx[q].seen < VERSIONS
    ensures var s' := Next(wanted, s, step);
            if step == Rx(q, Check) then q in s'.rx && Answered(s.rx[q], s'.rx[q], call)
            else
              && HasNews(wanted, s', q, call) && s'.rx[q].seen == s.rx[q].seen && s'.rx[q].log == s.rx[q].log
              && ToLook(s'.rx[q].pc) <= ToLook(s.rx[q].pc) - (if step.Rx? && step.p == q then 1 else 0)
  {
    hide Inv, Next, Enabled, Moved, VersionAt, Version, IsClosed;
    StepHolds(wanted, s, step);
    InvParts(wanted, s);
    StepLater(wanted, s, step);
    if step.Rx? && step.p == q {
      OwnNews(wanted, s, step.rxOp, q, call);
    } else {
      StaysThere(wanted, s, step, q);
      OthersWake(wanted, s, step, q);
    }
  }

  /** Only an idle handle is dropped. */
  lemma StaysThere<T>(wanted: (Pid, T) -> bool, s: State<T>, step: Step<T>, q: Pid)
    requires |s.history| > 0 && Enabled(s, step) && q in s.rx && !s.rx[q].pc.Idle?
    ensures q in Next(wanted, s, step).rx
  {
    hide Version, IsClosed, Incremented, WithClosed, VersionAt, Moved, RxEnabled, Woken, WokenTx;
  }

  lemma OwnNews<T>(wanted: (Pid, T) -> bool, s: State<T>, op: RxOp, q: Pid, call: Call)
    requires HasNews(wanted, s, q, call) && |s.history| > 0 && Enabled(s, Rx(q, op)) && op != DropFuture
    requires s.Latest() - s.rx[q].seen < VERSIONS
    ensures var s' := Next(wanted, s, Rx(q, op));
            && q in s'.rx && s'.history == s.history && s'.word == s.word
            && if op == Check then Answered(s.rx[q], s'.rx[q], call)
               else
                 && InCall(s'.rx[q].pc) && s'.rx[q].pc.call == call && !s'.rx[q].pc.Parked?
                 && s'.rx[q].seen == s.rx[q].seen && s'.rx[q].log == s.rx[q].log
                 && ToLook(s'.rx[q].pc) == ToLook(s.rx[q].pc) - 1
  {
    hide VersionAt, Version, IsClosed, LogHolds;
    SeenOf(wanted, s, q);
    WordParts(s.Latest(), Marked(s.sender));
    SameVersion(s.rx[q].seen, s.Latest());
  }

  lemma ClosedSteps<T>(wanted: (Pid, T) -> bool, s: State<T>, step: Step<T>, t: Pid)
    requires |s.history| > 0 && Enabled(s, step) && s.rx == map[] && s.rxCount == 0
    requires t in s.tx && InClosed(s.tx[t]) && s.tx[t] != ClosedParked(false)
    ensures var s' := Next(wanted, s, step);
            && s'.rx == map[] && s'.rxCount == 0
            && (t in s'.tx ==>
                  && InClosed(s'.tx[t]) && s'.tx[t] != ClosedParked(false)
                  && ToReturn(s'.tx[t]) <= ToReturn(s.tx[t]) - (if step.Tx? && step.t == t then 1 else 0))
  {
    hide Version, IsClosed, Incremented, WithClosed, VersionAt;
  }

  /** A call of `closed` that waits un-notified although no receiver is left is about to be notified: the
      last receiver that was dropped owes it and can take that step, which notifies every such call. */
  lemma ClosedIsWoken<T>(wanted: (Pid, T) -> bool, init: T, p: Pid, steps: seq<Step<T>>, s: State<T>, t: Pid)
    requires Reached(wanted, init, p, steps, s) && s.rx == map[]
    requires t in s.tx && s.tx[t] == ClosedParked(false)
    ensures |s.history| > 0
    ensures exists d :: d in s.droppers && Enabled(s, Handle(d, NotifyDropped))
    ensures forall d :: d in s.droppers ==>
              Enabled(s, Handle(d, NotifyDropped))
              && Next(wanted, s, Handle(d, NotifyDropped)).tx[t] == ClosedParked(true)
  {
    ReachedHolds(wanted, init, p, steps, s);
    NotifiedByDropper(wanted, s, t);
    assert s.rxCount == 0 && s.droppers != {};
    var d :| d in s.droppers;
  }

  lemma NotifiedByDropper<T>(wanted: (Pid, T) -> bool, s: State<T>, t: Pid)
    requires |s.history| > 0 && t in s.tx && s.tx[t] == ClosedParked(false)
    ensures forall d :: d in s.droppers ==>
              Enabled(s, Handle(d, NotifyDropped)) && t in Next(wanted, s, Handle(d, NotifyDropped)).tx
              && Next(wanted, s, Handle(d, NotifyDropped)).tx[t] == ClosedParked(true)
  {
  }

  /** A send to no receivers publishes nothing and is over with its first step. */
  lemma SendRefused<T>(wanted: (Pid, T) -> bool, init: T, p: Pid, steps: seq<Step<T>>, s: State<T>, t: Pid)
    requires Reached(wanted, init, p, steps, s) && s.rx == map[] && t in s.tx && s.tx[t].SendStart?
    ensures |s.history| > 0 && Enabled(s, Tx(t, CountReceivers))
    ensures var s' := Next(wanted, s, Tx(t, CountReceivers));
            t !in s'.tx && s'.history == s.history && s'.value == s.value
  {
    ReachedHolds(wanted, init, p, steps, s);
  }

  // ---- the lag that hides sends ----

  /** Receivers that do nothing while `n` values are sent. */
  function Unseen<T>(v: T, rx: map<Pid, Receiver<T>>, n: nat): State<T> {
    State(v, None, {}, VersionAt(n), |rx|, 1, rx, map[], {}, Alive, seq(n + 1, _ => v))
  }

  /** A notification passes unnoticed. */
  predicate Quiet<T>(rx: map<Pid, Receiver<T>>) {
    |rx| > 0 && forall q :: q in rx ==> !rx[q].pc.Listening? && !rx[q].pc.Parked?
  }

  /** A send between its store and its increment. */
  function Storing<T>(v: T, rx: map<Pid, Receiver<T>>, n: nat): State<T> {
    Unseen(v, rx, n).SetTx(0, SendWritten).(writer := Some(0))
  }

  lemma SendBegins<T>(wanted: (Pid, T) -> bool, v: T, rx: map<Pid, Receiver<T>>, n: nat,
                       rest: seq<Step<T>>)
    requires |rx| > 0 && Legal(wanted, Storing(v, rx, n), rest)
    ensures var steps := [Tx(0, StartSend(v))]
              + ([Tx(0, CountReceivers)] + ([Tx(0, WriteLock)] + ([Tx(0, WriteValue)] + rest)));
            && Legal(wanted, Unseen(v, rx, n), steps)
            && Final(wanted, Unseen(v, rx, n), steps) == Final(wanted, Storing(v, rx, n), rest)
  {
    hide Final, Legal;
    var s := Unseen(v, rx, n);
    var s3 := s.SetTx(0, SendLocked(v)).(writer := Some(0));
    assert Next(wanted, s3, Tx(0, WriteValue)) == Storing(v, rx, n);
    Ahead(wanted, s3, Tx(0, WriteValue), rest);
    var s2 := s.SetTx(0, SendLock(v));
    assert Next(wanted, s2, Tx(0, WriteLock)) == s3;
    Ahead(wanted, s2, Tx(0, WriteLock), [Tx(0, WriteValue)] + rest);
    var s1 := s.SetTx(0, SendStart(v));
    assert Next(wanted, s1, Tx(0, CountReceivers)) == s2;
    Ahead(wanted, s1, Tx(0, CountReceivers), [Tx(0, WriteLock)] + ([Tx(0, WriteValue)] + rest));
    Ahead(wanted, s, Tx(0, StartSend(v)),
        [Tx(0, CountReceivers)] + ([Tx(0, WriteLock)] + ([Tx(0, WriteValue)] + rest)));
  }

  lemma SendPublishes<T>(wanted: (Pid, T) -> bool, v: T, rx: map<Pid, Receiver<T>>, n: nat,
                       rest: seq<Step<T>>)
    requires Quiet(rx) && Legal(wanted, Unseen(v, rx, n + 1), rest)
    ensures var steps := [Tx(0, Increment)] + ([Tx(0, WriteUnlock)] + ([Tx(0, NotifySent)] + rest));
            && Legal(wanted, Storing(v, rx, n), steps)
            && Final(wanted, Storing(v, rx, n), steps) == Final(wanted, Unseen(v, rx, n + 1), rest)
  {
    hide Final, Legal, VersionAt, Incremented;
    var s := Unseen(v, rx, n + 1);
    var s6 := s.SetTx(0, SendUnlocked);
    assert Next(wanted, s6, Tx(0, NotifySent)) == s;
    Ahead(wanted, s6, Tx(0, NotifySent), rest);
    var s5 := s.SetTx(0, SendBumped).(writer := Some(0));
    assert Next(wanted, s5, Tx(0, WriteUnlock)) == s6;
    Ahead(wanted, s5, Tx(0, WriteUnlock), [Tx(0, NotifySent)] + rest);
    var s4 := Storing(v, rx, n);
    assert Next(wanted, s4, Tx(0, Increment)) == s5 by {
      IncrementedWord(n);
      assert s4.history + [v] == s.history;
    }
    Ahead(wanted, s4, Tx(0, Increment), [Tx(0, WriteUnlock)] + ([Tx(0, NotifySent)] + rest));
  }

  /** `n` sends, one step after the other, before the rest of a run. */
  function Sends<T>(v: T, n: nat, rest: seq<Step<T>>): seq<Step<T>> {
    if n == 0 then rest
    else
      [Tx(0, StartSend(v))] + ([Tx(0, CountReceivers)] + ([Tx(0, WriteLock)] + ([Tx(0, WriteValue)]
      + ([Tx(0, Increment)] + ([Tx(0, WriteUnlock)] + ([Tx(0, NotifySent)] + Sends(v, n - 1, rest)))))))
  }

  lemma {:induction false} ManySends<T>(wanted: (Pid, T) -> bool, v: T, rx: map<Pid, Receiver<T>>, k: nat, n: nat,
                                        rest: seq<Step<T>>)
    requires Quiet(rx) && Legal(wanted, Unseen(v, rx, k + n), rest)
    ensures Legal(wanted, Unseen(v, rx, k), Sends(v, n, rest))
    ensures Final(wanted, Unseen(v, rx, k), Sends(v, n, rest)) == Final(wanted, Unseen(v, rx, k + n), rest)
    decreases n
  {
    hide Final, Legal, Unseen, Storing;
    if n > 0 {
      ManySends(wanted, v, rx, k + 1, n - 1, rest);
      var more := Sends(v, n - 1, rest);
      SendPublishes(wanted, v, rx, k, more);
      SendBegins(wanted, v, rx, k, [Tx(0, Increment)] + ([Tx(0, WriteUnlock)] + ([Tx(0, NotifySent)] + more)));
    }
  }

  /** A run after which a receiver waits, un-notified, although 2^31 values were sent that it has not seen. */
  lemma WrapHidesSends<T>(wanted: (Pid, T) -> bool, v: T, p: Pid) returns (steps: seq<Step<T>>, s: State<T>)
    ensures Reached(wanted, v, p, steps, s)
    ensures p in s.rx && s.rx[p].pc == Parked(ForChanged, false) && !NotifyPending(s) && s.sender.Alive?
    ensures s.rx[p].seen == 0 && |Values(v, steps)| - 1 == VERSIONS
  {
    var rest: seq<Step<T>> := [Rx(p, StartChanged)] + ([Rx(p, Listen)] + ([Rx(p, Check)] + []));
    var rx := map[p := Receiver(0, 0, Idle, [])];
    var s0 := Unseen(v, rx, VERSIONS);
    s := WithPc(s0, p, Parked(ForChanged, false));
    Waits(wanted, s0, s, p);
    ManySends(wanted, v, rx, 0, VERSIONS, rest);
    steps := Sends(v, VERSIONS, rest);
    assert Channel(v, p).history == Unseen(v, rx, 0).history;
    hide Final, Legal, Values;
    assert Channel(v, p) == Unseen(v, rx, 0);
    PublishedIsSent(wanted, v, p, steps, s);
  }

  function WithPc<T>(s: State<T>, p: Pid, pc: RxPc): State<T>
    requires p in s.rx
  {
    s.SetRx(p, s.rx[p].(pc := pc))
  }

  /** A call that registers its listener and finds nothing new. */
  lemma Parks<T>(wanted: (Pid, T) -> bool, s0: State<T>, s: State<T>, p: Pid, call: Call)
    requires |s0.history| > 0 && p in s0.rx && s0.rx[p].pc == Enter(call) && s0.rx[p].version == Version(s0.word)
    requires !IsClosed(s0.word) && s == WithPc(s0, p, Parked(call, false))
    ensures var steps := [Rx(p, Listen)] + ([Rx(p, Check)] + []);
            Legal(wanted, s0, steps) && Final(wanted, s0, steps) == s
  {
    var s1 := WithPc(s0, p, Listening(call, false));
    var empty: seq<Step<T>> := [];
    assert Next(wanted, s1, Rx(p, Check)) == s;
    Ahead(wanted, s1, Rx(p, Check), empty);
    assert Next(wanted, s0, Rx(p, Listen)) == s1;
    Ahead(wanted, s0, Rx(p, Listen), [Rx(p, Check)] + empty);
  }

  /** The same for a wait: the predicate has refused the first value, 2^31 values were sent before the wait
      registers its listener, and it waits although the predicate was never asked about the last one. */
  lemma WaitParksOnStaleValue<T>(wanted: (Pid, T) -> bool, v: T, p: Pid, q: Pid)
    returns (steps: seq<Step<T>>, s: State<T>)
    requires p != q && !wanted(q, v)
    ensures Reached(wanted, v, p, steps, s)
    ensures q in s.rx && s.rx[q].pc == Parked(ForWait(0), false) && !NotifyPending(s) && s.sender.Alive?
    ensures |Values(v, steps)| - 1 == VERSIONS
  {
    hide Values;
    var rx := OneRefused(p, q);
    var s0 := Unseen(v, rx, VERSIONS);
    s := WithPc(s0, q, Parked(ForWait(0), false));
    var rest: seq<Step<T>> := [Rx(q, Listen)] + ([Rx(q, Check)] + []);
    Parks(wanted, s0, s, q, ForWait(0));
    ManySends(wanted, v, rx, 0, VERSIONS, rest);
    steps := Sends(v, VERSIONS, rest);
    steps := Refuses(wanted, v, p, q, steps);
    PublishedIsSent(wanted, v, p, steps, s);
  }

  /** An idle receiver, and a clone whose wait has refused the initial value. */
  function OneRefused<T>(p: Pid, q: Pid): map<Pid, Receiver<T>> {
    map[p := Receiver(0, 0, Idle, []), q := Receiver(0, 0, Enter(ForWait(0)), [])]
  }

  /** A wait whose predicate refuses the initial value. */
  lemma Refuses<T>(wanted: (Pid, T) -> bool, v: T, p: Pid, q: Pid, rest: seq<Step<T>>) returns (steps: seq<Step<T>>)
    requires p != q && !wanted(q, v)
    requires Legal(wanted, Unseen(v, OneRefused(p, q), 0), rest)
    ensures Legal(wanted, Channel(v, p), steps)
    ensures Final(wanted, Channel(v, p), steps)
         == Final(wanted, Unseen(v, OneRefused(p, q), 0), rest)
  {
    hide Final, Legal;
    var s0 := Channel(v, p);
    var s3 := Unseen(v, OneRefused(p, q), 0);
    var s1 := s0.(rxCount := 2).SetRx(q, Receiver(0, 0, WantRead(Judge), []));
    var s2 := s1.(readers := {q}).SetRx(q, Receiver(0, 0, HasRead(Judge), []));
    assert Next(wanted, s0, Handle(p, StartWait(q))) == s1;
    assert Next(wanted, s1, Rx(q, ReadLock)) == s2;
    assert Next(wanted, s2, Rx(q, ReadUnlock)) == s3 by {
      assert s3.history == [v] && s2.readers - {q} == {};
      assert s2.rx[q := Receiver(0, 0, Enter(ForWait(0)), [])] == s3.rx;
    }
    steps := [Handle(p, StartWait(q))] + ([Rx(q, ReadLock)] + ([Rx(q, ReadUnlock)] + rest));
    Ahead(wanted, s2, Rx(q, ReadUnlock), rest);
    Ahead(wanted, s1, Rx(q, ReadLock), [Rx(q, ReadUnlock)] + rest);
    Ahead(wanted, s0, Handle(p, StartWait(q)), [Rx(q, ReadLock)] + ([Rx(q, ReadUnlock)] + rest));
  }

  lemma Waits<T>(wanted: (Pid, T) -> bool, s0: State<T>, s: State<T>, p: Pid)
    requires |s0.history| > 0 && p in s0.rx && s0.rx[p].pc == Idle && s0.rx[p].version == Version(s0.word)
               && !IsClosed(s0.word)
    requires s == WithPc(s0, p, Parked(ForChanged, false))
    ensures var steps := [Rx(p, StartChanged)] + ([Rx(p, Listen)] + ([Rx(p, Check)] + []));
            Legal(wanted, s0, steps) && Final(wanted, s0, steps) == s
  {
    hide Final, Legal;
    var s1 := WithPc(s0, p, Enter(ForChanged));
    assert Next(wanted, s0, Rx(p, StartChanged)) == s1;
    Parks(wanted, s1, s, p, ForChanged);
    Ahead(wanted, s0, Rx(p, StartChanged), [Rx(p, Listen)] + ([Rx(p, Check)] + []));
  }

  lemma Ahead<T>(wanted: (Pid, T) -> bool, s: State<T>, step: Step<T>, rest: seq<Step<T>>)
    requires |s.history| > 0 && Enabled(s, step) && Legal(wanted, Next(wanted, s, step), rest)
    ensures Legal(wanted, s, [step] + rest)
    ensures Final(wanted, s, [step] + rest) == Final(wanted, Next(wanted, s, step), rest)
  {
    assert ([step] + rest)[1..] == rest;
  }
}
