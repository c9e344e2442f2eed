/** The single-producer, multi-consumer watch channel as a state machine. Every atomic access, lock
    operation, listener registration and notification is one step; a state holds the shared fields
    and a program counter for every receiver handle and every call in progress on the sender. */
module AsyncWatch {
  import opened Wrappers

  /** A receiver handle, or a call in progress on the sender. */
  type Pid = nat

  /** Number of distinct versions: the state word is 32 bits wide and its low bit means closed. */
  const VERSIONS := 0x8000_0000
  const WORD := 0x1_0000_0000
  const CLOSED_BIT := 1
  const VERSION_STEP := 2

  /** `word & !CLOSED_BIT`. */
  function Version(word: nat): nat {
    word - word % 2
  }

  /** `fetch_sub(1)`, which wraps. */
  function TakenDown(count: nat): nat {
    if count == 0 then WORD - 1 else count - 1
  }

  predicate IsClosed(word: nat) {
    word % 2 == CLOSED_BIT
  }

  /** `fetch_add(VERSION_STEP)`, which wraps. */
  function Incremented(word: nat): nat {
    (word + VERSION_STEP) % WORD
  }

  /** `fetch_or(CLOSED_BIT)`. */
  function WithClosed(word: nat): nat {
    if IsClosed(word) then word else word + CLOSED_BIT
  }

  // ---- states ----

  /** What a read lock is taken for: `borrow`, `borrow_and_update`, the second half of `recv`, or the
      predicate of `wait_until`. */
  datatype Use = Peek | Update | Take | Judge

  /** Which call is inside the loop of `changed`; `judged` is the position of the value a waiting
      predicate has just refused. */
  datatype Call = ForChanged | ForRecv | ForWait(judged: nat)

  /** Program counter of a receiver handle. A listener is registered exactly while its owner is at
      `Listening` or `Parked`, and `notified` is its flag. */
  datatype RxPc =
    | Idle
    | WantRead(use: Use)
    | HasRead(use: Use)
    | Loaded(use: Use)
    | Enter(call: Call)
    | Listening(call: Call, notified: bool)
    | Parked(call: Call, notified: bool)

  /** What a receiver has reported so far. Positions count the sent values; position 0 is the initial one. */
  datatype Event<T> =
    | Saw(at: nat)
    | Got(at: nat, value: T)
    | Ended(at: nat)
    | Met(at: nat)

  /** A receiver handle: its version field, the position that version stands for, its program counter
      and its reports. */
  datatype Receiver<T> = Receiver(version: nat, seen: nat, pc: RxPc, log: seq<Event<T>>)

  /** Program counter of a call on the sender: `send`, then `closed`. */
  datatype TxPc<T> =
    | SendStart(value: T)
    | SendLock(value: T)
    | SendLocked(value: T)
    | SendWritten
    | SendBumped
    | SendUnlocked
    | ClosedStart
    | ClosedListen
    | ClosedCheck(notified: bool)
    | ClosedParked(notified: bool)

  /** The sender handle: in use, its count taken down, marked closed, or gone. */
  datatype SenderHandle = Alive | CountedDown(last: bool) | MarkedClosed | Gone

  /** `history` lists the initial value and every value whose version was published. */
  datatype State<T> = State(
    value: T,
    writer: Option<Pid>,
    readers: set<Pid>,
    word: nat,
    rxCount: nat,
    txCount: nat,
    rx: map<Pid, Receiver<T>>,
    tx: map<Pid, TxPc<T>>,
    droppers: set<Pid>,
    sender: SenderHandle,
    history: seq<T>)
  {
    function Latest(): int { |history| - 1 }

    function SetRx(p: Pid, r: Receiver<T>): State<T> {
      this.(rx := rx[p := r])
    }

    function SetTx(t: Pid, pc: TxPc<T>): State<T> {
      this.(tx := tx[t := pc])
    }

    function EndTx(t: Pid): State<T> {
      this.(tx := tx - {t})
    }

    /** `event_value_changed.notify(usize::MAX)`. */
    function NotifyReceivers(): State<T> {
      this.(rx := map p | p in rx :: Woken(rx[p]))
    }

    /** `event_all_recv_dropped.notify(usize::MAX)`. */
    function NotifyClosers(): State<T> {
      this.(tx := map t | t in tx :: WokenTx(tx[t]))
    }
  }

  function Woken<T>(r: Receiver<T>): Receiver<T> {
    match r.pc
    case Listening(c, _) => r.(pc := Listening(c, true))
    case Parked(c, _) => r.(pc := Parked(c, true))
    case _ => r
  }

  function WokenTx<T>(pc: TxPc<T>): TxPc<T> {
    match pc
    case ClosedCheck(_) => ClosedCheck(true)
    case ClosedParked(_) => ClosedParked(true)
    case _ => pc
  }

  /** `channel(init)`: one sender, and one receiver that has seen the initial value. */
  function Channel<T>(init: T, p: Pid): State<T> {
    State(init, None, {}, 0, 1, 1, map[p := Receiver(0, 0, Idle, [])], map[], {}, Alive, [init])
  }

  // ---- steps ----

  /** A step of a call on a receiver handle. */
  datatype RxOp =
    | StartRead(use: Use)
    | ReadLock
    | LoadVersion
    | ReadUnlock
    | StartChanged
    | StartRecv
    | Listen
    | Check
    | Wake
    | DropFuture

  /** Making and dropping receiver handles. */
  datatype HandleOp =
    | StartWait(q: Pid)
    | CloneReceiver(q: Pid)
    | DropReceiver
    | NotifyDropped

  /** A step of a call on the sender. */
  datatype TxOp<T> =
    | StartSend(value: T)
    | StartClosed
    | CountReceivers
    | WriteLock
    | WriteValue
    | Increment
    | WriteUnlock
    | NotifySent
    | ListenClosed
    | WakeClosed
    | DropClosed

  /** Dropping the sender. */
  datatype SenderOp = ReleaseSender | SetClosed | NotifyClosed

  datatype Step<T> =
    | Rx(p: Pid, rxOp: RxOp)
    | Handle(p: Pid, handleOp: HandleOp)
    | Tx(t: Pid, txOp: TxOp<T>)
    | Sender(senderOp: SenderOp)

  /** The handle may be used through a shared reference: at most a `borrow` is in progress. */
  predicate Shareable(pc: RxPc) {
    pc.Idle? || pc == WantRead(Peek) || pc == HasRead(Peek)
  }

  /** A handle starts one call at a time, and a future is dropped only at its await. */
  predicate RxEnabled(pc: RxPc, writer: Option<Pid>, op: RxOp) {
    match op
    case StartRead(use) => pc.Idle? && (use == Peek || use == Update)
    case ReadLock => pc.WantRead? && writer == None
    case LoadVersion => pc.HasRead? && (pc.use == Update || pc.use == Take)
    case ReadUnlock => (pc.HasRead? && (pc.use == Peek || pc.use == Judge)) || pc.Loaded?
    case StartChanged => pc.Idle?
    case StartRecv => pc.Idle?
    case Listen => pc.Enter?
    case Check => pc.Listening?
    case Wake => pc.Parked? && pc.notified
    case DropFuture => pc.Parked?
  }

  predicate HandleEnabled<T>(s: State<T>, p: Pid, op: HandleOp) {
    match op
    case StartWait(q) => p in s.rx && Shareable(s.rx[p].pc) && q !in s.rx && q !in s.droppers
    case CloneReceiver(q) => p in s.rx && Shareable(s.rx[p].pc) && q !in s.rx && q !in s.droppers
    case DropReceiver => p in s.rx && s.rx[p].pc.Idle?
    case NotifyDropped => p in s.droppers
  }

  /** Calls on the sender borrow it, so they start only while it is alive. */
  predicate TxEnabled<T>(s: State<T>, t: Pid, op: TxOp<T>) {
    match op
    case StartSend(_) => s.sender.Alive? && t !in s.tx
    case StartClosed => s.sender.Alive? && t !in s.tx
    case CountReceivers => t in s.tx && (s.tx[t].SendStart? || s.tx[t].ClosedStart? || s.tx[t].ClosedCheck?)
    case WriteLock => t in s.tx && s.tx[t].SendLock? && s.writer == None && s.readers == {}
    case WriteValue => t in s.tx && s.tx[t].SendLocked?
    case Increment => t in s.tx && s.tx[t].SendWritten?
    case WriteUnlock => t in s.tx && s.tx[t].SendBumped?
    case NotifySent => t in s.tx && s.tx[t].SendUnlocked?
    case ListenClosed => t in s.tx && s.tx[t].ClosedListen?
    case WakeClosed => t in s.tx && s.tx[t].ClosedParked? && s.tx[t].notified
    case DropClosed => t in s.tx && s.tx[t].ClosedParked?
  }

  /** The sender is dropped only when no call borrows it. */
  predicate SenderEnabled<T>(s: State<T>, op: SenderOp) {
    match op
    case ReleaseSender => s.sender.Alive? && s.tx.Keys == {}
    case SetClosed => s.sender == CountedDown(true)
    case NotifyClosed => s.sender.MarkedClosed?
  }

  predicate Enabled<T>(s: State<T>, step: Step<T>) {
    match step
    case Rx(p, op) => p in s.rx && RxEnabled(s.rx[p].pc, s.writer, op)
    case Handle(p, op) => HandleEnabled(s, p, op)
    case Tx(t, op) => TxEnabled(s, t, op)
    case Sender(op) => SenderEnabled(s, op)
  }

  /** A load of the state word into the version field. */
  function SeeLatest<T>(r: Receiver<T>, s: State<T>, pc: RxPc): Receiver<T>
    requires |s.history| > 0
  {
    r.(version := Version(s.word), seen := s.Latest(), pc := pc)
  }

  /** The call returns and reports. */
  function Report<T>(r: Receiver<T>, e: Event<T>): Receiver<T> {
    r.(pc := Idle, log := r.log + [e])
  }

  /** `maybe_changed` and what follows it: stop with a new version, stop because the channel is closed,
      or go on to wait. */
  function Checked<T>(r: Receiver<T>, s: State<T>): Receiver<T>
    requires r.pc.Listening? && |s.history| > 0
  {
    if r.version != Version(s.word) then
      match r.pc.call
      case ForChanged => Report(SeeLatest(r, s, Idle), Saw(s.Latest()))
      case ForRecv => SeeLatest(r, s, WantRead(Take))
      case ForWait(_) => SeeLatest(r, s, WantRead(Judge))
    else if IsClosed(s.word) then Report(r, Ended(r.seen))
    else r.(pc := Parked(r.pc.call, r.pc.notified))
  }

  /** The end of a read: the guard is dropped. `recv` has cloned the value, `wait_until` has asked its
      predicate about it. */
  function Unlocked<T>(wanted: T -> bool, r: Receiver<T>, s: State<T>): Receiver<T>
    requires |s.history| > 0
  {
    if r.pc == Loaded(Take) then Report(r, Got(r.seen, s.value))
    else if r.pc == HasRead(Judge) then
      if wanted(s.value) then Report(r, Met(s.Latest())) else r.(pc := Enter(ForWait(s.Latest())))
    else r.(pc := Idle)
  }

  /** A handle after one of its own steps. */
  function Moved<T>(wanted: T -> bool, r: Receiver<T>, s: State<T>, op: RxOp): Receiver<T>
    requires RxEnabled(r.pc, s.writer, op) && |s.history| > 0
  {
    match op
    case StartRead(use) => r.(pc := WantRead(use))
    case ReadLock => r.(pc := HasRead(r.pc.use))
    case LoadVersion => SeeLatest(r, s, Loaded(r.pc.use))
    case ReadUnlock => Unlocked(wanted, r, s)
    case StartChanged => r.(pc := Enter(ForChanged))
    case StartRecv => r.(pc := Enter(ForRecv))
    case Listen => r.(pc := Listening(r.pc.call, false))
    case Check => Checked(r, s)
    case Wake => r.(pc := Enter(r.pc.call))
    case DropFuture => r.(pc := Idle)
  }

  function ReadersAfter(readers: set<Pid>, p: Pid, op: RxOp): set<Pid> {
    match op
    case ReadLock => readers + {p}
    case ReadUnlock => readers - {p}
    case _ => readers
  }

  function WithClone<T>(s: State<T>, p: Pid, q: Pid, pc: RxPc): State<T>
    requires p in s.rx
  {
    s.(rxCount := s.rxCount + 1).SetRx(q, Receiver(s.rx[p].version, s.rx[p].seen, pc, []))
  }

  function NextHandle<T>(s: State<T>, p: Pid, op: HandleOp): State<T>
    requires HandleEnabled(s, p, op)
  {
    match op
    case StartWait(q) => WithClone(s, p, q, WantRead(Judge))
    case CloneReceiver(q) => WithClone(s, p, q, Idle)
    case DropReceiver =>
      s.(rx := s.rx - {p}, rxCount := TakenDown(s.rxCount),
         droppers := if s.rxCount == 1 then s.droppers + {p} else s.droppers)
    case NotifyDropped => s.(droppers := s.droppers - {p}).NotifyClosers()
  }

  /** A load of the receiver count: no receiver ends the call. */
  function Counted<T>(s: State<T>, t: Pid): State<T>
    requires t in s.tx
  {
    if s.rxCount == 0 then s.EndTx(t)
    else
      match s.tx[t]
      case SendStart(v) => s.SetTx(t, SendLock(v))
      case ClosedStart => s.SetTx(t, ClosedListen)
      case ClosedCheck(n) => s.SetTx(t, ClosedParked(n))
      case _ => s
  }

  function NextTx<T>(s: State<T>, t: Pid, op: TxOp<T>): State<T>
    requires TxEnabled(s, t, op)
  {
    match op
    case StartSend(v) => s.SetTx(t, SendStart(v))
    case StartClosed => s.SetTx(t, ClosedStart)
    case CountReceivers => Counted(s, t)
    case WriteLock => s.(writer := Some(t)).SetTx(t, SendLocked(s.tx[t].value))
    case WriteValue => s.(value := s.tx[t].value).SetTx(t, SendWritten)
    case Increment => s.(word := Incremented(s.word), history := s.history + [s.value]).SetTx(t, SendBumped)
    case WriteUnlock => s.(writer := None).SetTx(t, SendUnlocked)
    case NotifySent => s.EndTx(t).NotifyReceivers()
    case ListenClosed => s.SetTx(t, ClosedCheck(false))
    case WakeClosed => s.SetTx(t, ClosedStart)
    case DropClosed => s.EndTx(t)
  }

  function NextSender<T>(s: State<T>, op: SenderOp): State<T> {
    match op
    case ReleaseSender => s.(txCount := TakenDown(s.txCount), sender := CountedDown(s.txCount == 1))
    case SetClosed => s.(word := WithClosed(s.word), sender := MarkedClosed)
    case NotifyClosed => s.(sender := Gone).NotifyReceivers()
  }

  /** `wanted` gives each waiting handle its predicate. */
  function Next<T>(wanted: (Pid, T) -> bool, s: State<T>, step: Step<T>): State<T>
    requires Enabled(s, step) && |s.history| > 0
  {
    match step
    case Rx(p, op) =>
      s.(readers := ReadersAfter(s.readers, p, op)).SetRx(p, Moved(v => wanted(p, v), s.rx[p], s, op))
    case Handle(p, op) => NextHandle(s, p, op)
    case Tx(t, op) => NextTx(s, t, op)
    case Sender(op) => NextSender(s, op)
  }

  // ---- invariants ----

  predicate HoldsRead(pc: RxPc) {
    pc.HasRead? || pc.Loaded?
  }

  predicate HoldsWrite<T>(pc: TxPc<T>) {
    pc.SendLocked? || pc.SendWritten? || pc.SendBumped?
  }

  /** The version field that stands for position `n`. */
  function VersionAt(n: nat): nat {
    2 * (n % VERSIONS)
  }

  predicate Marked(h: SenderHandle) {
    h.MarkedClosed? || h.Gone?
  }

  /** The state word is the latest position, modulo the number of versions, and the closed bit. */
  predicate Words<T>(s: State<T>) {
    && |s.history| > 0
    && s.word == VersionAt(s.Latest()) + (if Marked(s.sender) then CLOSED_BIT else 0)
    && s.txCount == (if s.sender.Alive? then 1 else 0)
    && s.sender != CountedDown(false)
    && (!s.sender.Alive? ==> s.tx.Keys == {})
  }

  /** The read lock is held exactly by the handles that are reading, and by none while a sender writes. */
  ghost predicate ReadersHold<T>(s: State<T>) {
    && (forall p :: p in s.readers <==> p in s.rx && HoldsRead(s.rx[p].pc))
    && (s.writer.Some? ==> s.readers == {})
  }

  /** The value is the latest published one except between a writer's store and its increment. */
  ghost predicate WriterHolds<T>(s: State<T>) {
    && |s.history| > 0
    && (forall t :: s.writer == Some(t) <==> t in s.tx && HoldsWrite(s.tx[t]))
    && ((s.writer.Some? && s.tx[s.writer.value].SendWritten?) || s.value == s.history[s.Latest()])
  }

  ghost predicate Locks<T>(s: State<T>) {
    ReadersHold(s) && WriterHolds(s)
  }

  predicate Counts<T>(s: State<T>) {
    s.rxCount == |s.rx|
  }

  predicate Reports<T>(e: Event<T>) {
    e.Saw? || e.Got?
  }

  /** Reports are true, positions of `Saw` and `Got` increase strictly and stay below `bound`. */
  ghost predicate LogHolds<T>(wanted: T -> bool, log: seq<Event<T>>, bound: int, s: State<T>) {
    && (forall i :: 0 <= i < |log| ==> log[i].at < |s.history| && EventHolds(wanted, log[i], s))
    && (forall i :: 0 <= i < |log| && Reports(log[i]) ==> log[i].at < bound)
    && (forall i, j :: 0 <= i < j < |log| && Reports(log[i]) && Reports(log[j]) ==> log[i].at < log[j].at)
  }

  ghost predicate EventHolds<T>(wanted: T -> bool, e: Event<T>, s: State<T>)
    requires e.at < |s.history|
  {
    match e
    case Saw(_) => true
    case Got(at, value) => value == s.history[at]
    case Ended(at) => IsClosed(s.word) && (s.Latest() - at) % VERSIONS == 0
    case Met(at) => wanted(s.history[at])
  }

  /** `recv` has marked a new version as seen and is about to fetch its value. */
  predicate Fetching(pc: RxPc) {
    pc == WantRead(Take) || pc == HasRead(Take) || pc == Loaded(Take)
  }

  predicate InCall(pc: RxPc) {
    pc.Enter? || pc.Listening? || pc.Parked?
  }

  ghost predicate PcHolds<T>(wanted: T -> bool, r: Receiver<T>, s: State<T>)
    requires |s.history| > 0
  {
    && (r.pc.Loaded? ==> r.seen == s.Latest() && (r.pc.use == Update || r.pc.use == Take))
    && (InCall(r.pc) && r.pc.call.ForWait? ==>
        r.seen <= r.pc.call.judged < |s.history| && !wanted(s.history[r.pc.call.judged]))
  }

  ghost predicate RxHolds<T>(wanted: T -> bool, r: Receiver<T>, s: State<T>) {
    && r.seen < |s.history| && r.version == VersionAt(r.seen)
    && LogHolds(wanted, r.log, if Fetching(r.pc) then r.seen else r.seen + 1, s)
    && PcHolds(wanted, r, s)
  }

  ghost predicate Receivers<T>(wanted: (Pid, T) -> bool, s: State<T>) {
    forall p :: p in s.rx ==> RxHolds(v => wanted(p, v), s.rx[p], s)
  }

  predicate Publishing<T>(pc: TxPc<T>) {
    pc.SendBumped? || pc.SendUnlocked?
  }

  /** A sender is between publishing a change and notifying it. */
  ghost predicate NotifyPending<T>(s: State<T>) {
    s.sender.MarkedClosed? || exists t :: t in s.tx && Publishing(s.tx[t])
  }

  /** Nothing has happened that a receiver of this version has not been told. */
  predicate UpToDate<T>(s: State<T>, version: nat) {
    version == Version(s.word) && !IsClosed(s.word)
  }

  ghost predicate AllUpToDate<T>(s: State<T>) {
    forall p :: p in s.rx && s.rx[p].pc.Parked? && !s.rx[p].pc.notified ==> UpToDate(s, s.rx[p].version)
  }

  /** No lost wakeup of a receiver. */
  ghost predicate ReceiversAwake<T>(s: State<T>) {
    NotifyPending(s) || AllUpToDate(s)
  }

  /** No lost wakeup of `closed`. */
  ghost predicate ClosersAwake<T>(s: State<T>) {
    s.droppers != {} || forall t :: t in s.tx && s.tx[t] == ClosedParked(false) ==> s.rxCount > 0
  }

  ghost predicate Inv<T>(wanted: (Pid, T) -> bool, s: State<T>) {
    Words(s) && Locks(s) && Counts(s) && Receivers(wanted, s) && ReceiversAwake(s) && ClosersAwake(s)
  }

  // ---- arithmetic of the state word ----

  lemma WordParts(n: nat, closed: bool)
    ensures var word := VersionAt(n) + (if closed then CLOSED_BIT else 0);
            Version(word) == VersionAt(n) && IsClosed(word) == closed && word < WORD
  {
  }

  lemma IncrementedWord(n: nat)
    ensures Incremented(VersionAt(n)) == VersionAt(n + 1)
  {
  }

  lemma ClosedWord(n: nat)
    ensures WithClosed(VersionAt(n)) == VersionAt(n) + CLOSED_BIT
  {
  }

  /** Two positions have the same version exactly when they are a multiple of 2^31 sends apart. */
  lemma SameVersion(a: nat, b: nat)
    requires a <= b
    ensures VersionAt(a) == VersionAt(b) <==> (b - a) % VERSIONS == 0
    ensures (b - a) % VERSIONS == 0 && b - a < VERSIONS ==> a == b
  {
  }

  // ---- every step keeps the invariants ----

  lemma InitiallyHolds<T>(wanted: (Pid, T) -> bool, init: T, p: Pid)
    ensures Inv(wanted, Channel(init, p))
  {
  }

  lemma StepWords<T>(wanted: (Pid, T) -> bool, s: State<T>, step: Step<T>)
    requires Words(s) && Enabled(s, step)
    ensures Words(Next(wanted, s, step))
  {
    hide Version, IsClosed, Incremented, WithClosed, VersionAt, Moved, RxEnabled, Woken;
    match step
    case Tx(_, op) =>
      if op.Increment? {
        IncrementedWord(s.Latest());
      }
    case Sender(op) =>
      ClosedWord(s.Latest());
    case _ =>
  }

  lemma MovedReads<T>(wanted: T -> bool, r: Receiver<T>, s: State<T>, op: RxOp)
    requires RxEnabled(r.pc, s.writer, op) && |s.history| > 0
    ensures HoldsRead(Moved(wanted, r, s, op).pc) <==> op.ReadLock? || (HoldsRead(r.pc) && !op.ReadUnlock?)
    ensures op.ReadLock? ==> s.writer == None
  {
    hide Version, IsClosed;
  }

  lemma StepReaders<T>(wanted: (Pid, T) -> bool, s: State<T>, step: Step<T>)
    requires |s.history| > 0 && ReadersHold(s) && Enabled(s, step)
    ensures ReadersHold(Next(wanted, s, step))
  {
    hide Version, IsClosed, Incremented, WithClosed, Moved, RxEnabled;
    if step.Rx? {
      MovedReads(v => wanted(step.p, v), s.rx[step.p], s, step.rxOp);
    }
  }

  lemma StepWriter<T>(wanted: (Pid, T) -> bool, s: State<T>, step: Step<T>)
    requires WriterHolds(s) && Enabled(s, step)
    ensures WriterHolds(Next(wanted, s, step))
  {
    hide Version, IsClosed, Incremented, WithClosed, Moved, RxEnabled, Woken, NextTx, TxEnabled;
    if s.writer.Some? {
      assert s.writer.value in s.tx && HoldsWrite(s.tx[s.writer.value]);
    }
    if step.Tx? {
      TxWriter(s, step.t, step.txOp);
    }
  }

  lemma TxWriter<T>(s: State<T>, t: Pid, op: TxOp<T>)
    requires WriterHolds(s) && TxEnabled(s, t, op)
    ensures WriterHolds(NextTx(s, t, op))
  {
    hide Incremented, Woken;
    if s.writer.Some? {
      assert s.writer.value in s.tx && HoldsWrite(s.tx[s.writer.value]);
    }
  }

  /** Only making and dropping handles changes which there are. */
  lemma SameHandles<T>(wanted: (Pid, T) -> bool, s: State<T>, step: Step<T>)
    requires |s.history| > 0 && Enabled(s, step) && !step.Handle?
    ensures Next(wanted, s, step).rx.Keys == s.rx.Keys && Next(wanted, s, step).rxCount == s.rxCount
  {
    hide Version, IsClosed, Incremented, WithClosed, Moved, RxEnabled, Woken, WokenTx;
  }

  lemma HandleCounts<T>(s: State<T>, p: Pid, op: HandleOp)
    requires Counts(s) && HandleEnabled(s, p, op)
    ensures Counts(NextHandle(s, p, op))
  {
    if op.DropReceiver? {
      assert s.rx == NextHandle(s, p, op).rx[p := s.rx[p]];
    }
  }

  lemma StepCounts<T>(wanted: (Pid, T) -> bool, s: State<T>, step: Step<T>)
    requires |s.history| > 0 && Counts(s) && Enabled(s, step)
    ensures Counts(Next(wanted, s, step))
  {
    if step.Handle? {
      hide Counts, NextHandle, HandleEnabled;
      HandleCounts(s, step.p, step.handleOp);
    } else {
      hide Next, Enabled;
      SameHandles(wanted, s, step);
      assert |s.rx| == |s.rx.Keys|;
    }
  }

  /** A publishing send stays one until it notifies. */
  lemma StillPublishing<T>(wanted: (Pid, T) -> bool, s: State<T>, step: Step<T>, t: Pid)
    requires |s.history| > 0 && t in s.tx && Publishing(s.tx[t]) && Enabled(s, step)
               && !(step.Tx? && step.txOp.NotifySent?)
    ensures var s' := Next(wanted, s, step); t in s'.tx && Publishing(s'.tx[t])
  {
    hide Version, IsClosed, Incremented, WithClosed, Moved, RxEnabled, Woken;
  }

  /** A step that publishes nothing parks a receiver only if it is up to date. */
  lemma StepParks<T>(wanted: (Pid, T) -> bool, s: State<T>, step: Step<T>)
    requires |s.history| > 0 && Enabled(s, step) && !(step.Tx? && step.txOp.Increment?) && step != Sender(SetClosed)
    requires AllUpToDate(s)
    ensures AllUpToDate(Next(wanted, s, step))
  {
    hide Version, IsClosed, Incremented, WithClosed, WokenTx, Moved, RxEnabled;
    if step.Rx? {
      MovedParks(v => wanted(step.p, v), s.rx[step.p], s, step.rxOp);
    }
  }

  lemma MovedParks<T>(wanted: T -> bool, r: Receiver<T>, s: State<T>, op: RxOp)
    requires RxEnabled(r.pc, s.writer, op) && |s.history| > 0
    ensures var r' := Moved(wanted, r, s, op);
            r'.pc.Parked? ==> r'.version == Version(s.word) && !IsClosed(s.word)
  {
    hide Version, IsClosed;
  }

  lemma StepReceiversAwake<T>(wanted: (Pid, T) -> bool, s: State<T>, step: Step<T>)
    requires |s.history| > 0 && ReceiversAwake(s) && Enabled(s, step)
    ensures ReceiversAwake(Next(wanted, s, step))
  {
    hide Version, IsClosed, Incremented, WithClosed, Moved, RxEnabled;
    if step.Tx? && step.txOp.NotifySent? {
      AllWoken(s.EndTx(step.t));
    } else if step == Sender(NotifyClosed) {
      AllWoken(s.(sender := Gone));
    } else if step.Tx? && step.txOp.Increment? {
      assert Publishing(Next(wanted, s, step).tx[step.t]);
    } else if t :| t in s.tx && Publishing(s.tx[t]) {
      StillPublishing(wanted, s, step, t);
    } else if !s.sender.MarkedClosed? && step != Sender(SetClosed) {
      StepParks(wanted, s, step);
    }
  }

  lemma AllWoken<T>(s: State<T>)
    ensures AllUpToDate(s.NotifyReceivers())
  {
  }

  lemma StepClosersAwake<T>(wanted: (Pid, T) -> bool, s: State<T>, step: Step<T>)
    requires |s.history| > 0 && ClosersAwake(s) && Enabled(s, step)
    ensures ClosersAwake(Next(wanted, s, step))
  {
    hide Version, IsClosed, Incremented, WithClosed, Moved, RxEnabled, Woken;
  }

  /** What was published stays published, and nothing is published on a closed channel. */
  ghost predicate Later<T>(s: State<T>, s': State<T>) {
    && |s.history| > 0 && s.history <= s'.history
    && (IsClosed(s.word) ==> s'.word == s.word && s'.history == s.history)
  }

  lemma StepLater<T>(wanted: (Pid, T) -> bool, s: State<T>, step: Step<T>)
    requires Words(s) && Enabled(s, step)
    ensures Later(s, Next(wanted, s, step))
  {
    hide Version, Incremented, VersionAt, Moved, RxEnabled, Woken, WokenTx;
    WordParts(s.Latest(), Marked(s.sender));
  }

  lemma LogLater<T>(wanted: T -> bool, log: seq<Event<T>>, bound: int, s: State<T>, bound': int, s': State<T>)
    requires LogHolds(wanted, log, bound, s) && Later(s, s') && bound <= bound'
    ensures LogHolds(wanted, log, bound', s')
  {
  }

  lemma LogAppend<T>(wanted: T -> bool, log: seq<Event<T>>, bound: int, s: State<T>, e: Event<T>, bound': int)
    requires LogHolds(wanted, log, bound, s) && bound <= bound'
    requires e.at < |s.history| && EventHolds(wanted, e, s) && (Reports(e) ==> bound <= e.at < bound')
    ensures LogHolds(wanted, log + [e], bound', s)
  {
  }

  function Bound<T>(r: Receiver<T>): nat {
    if Fetching(r.pc) then r.seen else r.seen + 1
  }

  /** A receiver that moved on without reporting anything. */
  lemma Silent<T>(wanted: T -> bool, r: Receiver<T>, s: State<T>, r': Receiver<T>, s': State<T>)
    requires RxHolds(wanted, r, s) && Later(s, s') && |s'.history| > 0
    requires r'.log == r.log && Bound(r) <= Bound(r')
    requires r'.seen < |s'.history| && r'.version == VersionAt(r'.seen) && PcHolds(wanted, r', s')
    ensures RxHolds(wanted, r', s')
  {
    hide LogHolds, PcHolds, VersionAt, Version, IsClosed;
    LogLater(wanted, r.log, Bound(r), s, Bound(r'), s');
  }

  /** A receiver that finished with a report. */
  lemma Reported<T>(wanted: T -> bool, r: Receiver<T>, s: State<T>, e: Event<T>, r': Receiver<T>)
    requires RxHolds(wanted, r, s)
    requires r'.log == r.log + [e] && r'.pc == Idle && Bound(r) <= Bound(r')
    requires e.at < |s.history| && EventHolds(wanted, e, s) && (Reports(e) ==> Bound(r) <= e.at <= r'.seen)
    requires r'.seen < |s.history| && r'.version == VersionAt(r'.seen)
    ensures RxHolds(wanted, r', s)
  {
    hide LogHolds, VersionAt, Version, EventHolds;
    LogAppend(wanted, r.log, Bound(r), s, e, Bound(r'));
  }

  lemma CheckStep<T>(wanted: T -> bool, r: Receiver<T>, s: State<T>)
    requires Words(s) && r.pc.Listening? && RxHolds(wanted, r, s)
    ensures RxHolds(wanted, Checked(r, s), s)
  {
    hide LogHolds, VersionAt, Version, IsClosed;
    WordParts(s.Latest(), Marked(s.sender));
    SameVersion(r.seen, s.Latest());
    var r' := Checked(r, s);
    if r.version != Version(s.word) && r.pc.call.ForChanged? {
      Reported(wanted, r, s, Saw(s.Latest()), r');
    } else if r.version == Version(s.word) && IsClosed(s.word) {
      Reported(wanted, r, s, Ended(r.seen), r');
    } else {
      Silent(wanted, r, s, r', s);
    }
  }

  lemma UnlockStep<T>(wanted: T -> bool, r: Receiver<T>, s: State<T>)
    requires Words(s) && RxEnabled(r.pc, s.writer, ReadUnlock) && RxHolds(wanted, r, s)
    requires s.value == s.history[s.Latest()]
    ensures RxHolds(wanted, Unlocked(wanted, r, s), s)
  {
    hide LogHolds, VersionAt, Version, IsClosed, Words;
    var r' := Unlocked(wanted, r, s);
    if r.pc == Loaded(Take) {
      Reported(wanted, r, s, Got(r.seen, s.value), r');
    } else if r.pc == HasRead(Judge) && wanted(s.value) {
      Reported(wanted, r, s, Met(s.Latest()), r');
    } else {
      Silent(wanted, r, s, r', s);
    }
  }

  /** A handle's own steps. */
  lemma OwnStep<T>(wanted: T -> bool, r: Receiver<T>, s: State<T>, op: RxOp)
    requires Words(s) && RxEnabled(r.pc, s.writer, op) && RxHolds(wanted, r, s)
    requires HoldsRead(r.pc) ==> s.value == s.history[s.Latest()]
    ensures RxHolds(wanted, Moved(wanted, r, s, op), s)
  {
    hide LogHolds, VersionAt, Version, Checked, Unlocked, IsClosed;
    match op
    case Check =>
      CheckStep(wanted, r, s);
    case ReadUnlock =>
      UnlockStep(wanted, r, s);
    case _ =>
      WordParts(s.Latest(), Marked(s.sender));
      Silent(wanted, r, s, Moved(wanted, r, s, op), s);
  }

  /** Other steps wake a handle at most. */
  lemma OthersWake<T>(wanted: (Pid, T) -> bool, s: State<T>, step: Step<T>, q: Pid)
    requires |s.history| > 0 && Enabled(s, step) && !(step.Rx? && step.p == q) && q in s.rx
    requires q in Next(wanted, s, step).rx
    ensures Next(wanted, s, step).rx[q] == s.rx[q] || Next(wanted, s, step).rx[q] == Woken(s.rx[q])
  {
    hide VersionAt, Version, IsClosed, Incremented, WithClosed, Moved, RxEnabled, Woken, WokenTx;
  }

  /** Nothing is published under a handle's read lock. */
  lemma ReaderHoldsOff<T>(wanted: (Pid, T) -> bool, s: State<T>, step: Step<T>, p: Pid)
    requires Locks(s) && Enabled(s, step) && p in s.rx && HoldsRead(s.rx[p].pc)
    ensures Next(wanted, s, step).history == s.history
  {
    hide VersionAt, Version, IsClosed, Incremented, WithClosed, Moved, RxEnabled, Woken, WokenTx;
    assert p in s.readers;
    assert forall t :: t in s.tx ==> s.writer != Some(t) && !HoldsWrite(s.tx[t]);
  }

  /** A handle while something else takes a step. */
  lemma OtherStep<T>(wanted: (Pid, T) -> bool, s: State<T>, step: Step<T>, p: Pid)
    requires Words(s) && Locks(s) && Enabled(s, step) && !(step.Rx? && step.p == p) && p in s.rx
    requires p in Next(wanted, s, step).rx && RxHolds(v => wanted(p, v), s.rx[p], s)
    ensures var s' := Next(wanted, s, step);
            |s'.history| > 0 && RxHolds(v => wanted(p, v), s'.rx[p], s')
  {
    hide LogHolds, VersionAt, Version, IsClosed, Next, Enabled, Words, Locks;
    var s' := Next(wanted, s, step);
    StepLater(wanted, s, step);
    NonEmpty(s);
    OthersWake(wanted, s, step, p);
    if HoldsRead(s.rx[p].pc) {
      ReaderHoldsOff(wanted, s, step, p);
    }
    Silent(v => wanted(p, v), s.rx[p], s, s'.rx[p], s');
  }

  /** A clone starts where its original stands, with nothing reported. */
  lemma NewHandle<T>(wanted: (Pid, T) -> bool, s: State<T>, p: Pid, op: HandleOp, q: Pid)
    requires |s.history| > 0 && Receivers(wanted, s) && HandleEnabled(s, p, op) && q !in s.rx
    requires q in NextHandle(s, p, op).rx
    ensures var s' := NextHandle(s, p, op);
            |s'.history| > 0 && RxHolds(v => wanted(q, v), s'.rx[q], s')
  {
    hide VersionAt, Version, IsClosed;
    assert RxHolds(v => wanted(p, v), s.rx[p], s);
  }

  lemma NewByHandle<T>(wanted: (Pid, T) -> bool, s: State<T>, step: Step<T>, q: Pid)
    requires |s.history| > 0 && Enabled(s, step) && q !in s.rx && q in Next(wanted, s, step).rx
    ensures step.Handle?
  {
    hide VersionAt, Version, IsClosed, Incremented, WithClosed, Moved, RxEnabled, Woken, WokenTx;
  }

  lemma StepReceivers<T>(wanted: (Pid, T) -> bool, s: State<T>, step: Step<T>)
    requires Words(s) && Locks(s) && Receivers(wanted, s) && Enabled(s, step)
    ensures Receivers(wanted, Next(wanted, s, step))
  {
    hide RxHolds, VersionAt, Version, IsClosed, Moved, RxEnabled, Words, Locks, NextHandle, NextTx, NextSender,
         HandleEnabled, TxEnabled, SenderEnabled;
    NonEmpty(s);
    StepWords(wanted, s, step);
    var s' := Next(wanted, s, step);
    NonEmpty(s');
    forall p | p in s'.rx
      ensures RxHolds(v => wanted(p, v), s'.rx[p], s')
    {
      if p in s.rx && step.Rx? && step.p == p {
        if HoldsRead(s.rx[p].pc) {
          ReaderSees(s, p);
        }
        OwnStep(v => wanted(p, v), s.rx[p], s, step.rxOp);
        SamePublished(v => wanted(p, v), s'.rx[p], s, s');
      } else if p in s.rx {
        OtherStep(wanted, s, step, p);
      } else {
        NewByHandle(wanted, s, step, p);
        NewHandle(wanted, s, step.p, step.handleOp, p);
      }
    }
  }

  /** Under a read lock the value is the latest one published. */
  lemma ReaderSees<T>(s: State<T>, p: Pid)
    requires Locks(s) && p in s.rx && HoldsRead(s.rx[p].pc)
    ensures s.value == s.history[s.Latest()]
  {
    assert p in s.readers;
  }

  lemma SamePublished<T>(wanted: T -> bool, r: Receiver<T>, s: State<T>, s': State<T>)
    requires RxHolds(wanted, r, s) && s'.history == s.history && s'.word == s.word
    ensures RxHolds(wanted, r, s')
  {
  }

  /** One step of any process keeps all of it. */
  lemma StepHolds<T>(wanted: (Pid, T) -> bool, s: State<T>, step: Step<T>)
    requires Inv(wanted, s) && Enabled(s, step)
    ensures Inv(wanted, Next(wanted, s, step))
  {
    hide Words, Counts, Receivers, ReceiversAwake, ClosersAwake, Next, Enabled, ReadersHold, WriterHolds;
    NonEmpty(s);
    StepWords(wanted, s, step);
    StepReaders(wanted, s, step);
    StepWriter(wanted, s, step);
    StepCounts(wanted, s, step);
    StepReceivers(wanted, s, step);
    StepReceiversAwake(wanted, s, step);
    StepClosersAwake(wanted, s, step);
  }

  lemma NonEmpty<T>(s: State<T>)
    requires Words(s)
    ensures |s.history| > 0
  {
  }
}
