/**
 * ffplay's frame ring between a decoder thread and a consumer, step by step
 * (ffplay.c, frame_queue_*), together with the part of the packet queue the
 * decoder can sleep on and the shutdown of decoder_abort. windex and rindex
 * move outside the lock, as in the source; a step is one lock operation, one
 * condition-variable operation or one access to a shared field.
 *
 * Counters that the program does not have: `pushed` is every frame ever put in
 * a slot, `windexes` and `rindexes` count the advances of the two indices.
 */
module FrameRing {
  import opened Arithmetic
  import opened Wrappers

  type Frame = int

  /** max_size and keep_last. */
  datatype Config = Config(max: nat, keep: bool)

  datatype Thread = Writer | Reader | Aborter | Nobody

  /** Where the decoder thread is. */
  datatype WriterAt =
    | WIdle                                   // decoding, no lock held
    | GetLock | GetCheck | GetWait            // packet_queue_get
    | WPeekLock | WPeekCheck | WPeekSleep | WPeekWait | WPeekUnlock | WPeekTest  // frame_queue_peek_writable
    | Write | PushIndex | PushLock | PushCount | PushUnlock                      // filling the slot, frame_queue_push
    | WDone

  /** Where the consumer is. */
  datatype ReaderAt =
    | RIdle
    | RPeekLock | RPeekCheck | RPeekSleep | RPeekWait | RPeekUnlock | RPeekTest  // frame_queue_peek_readable
    | Look                                    // using the frames of the ring
    | Next | NextIndex | NextLock | NextCount | NextUnlock                       // frame_queue_next

  /** Where the thread in decoder_abort is. */
  datatype AborterAt = ALockQueue | ASetAbort | AUnlockQueue | ALockRing | ASignal | AUnlockRing | AJoin

  datatype State = State(
    windex: nat, rindex: nat, size: int, shown: nat, slots: seq<Option<Frame>>,
    w: WriterAt, r: ReaderAt, a: AborterAt,
    ringMutex: Thread, writerSleeps: bool, readerSleeps: bool,   // f->mutex and the waiters of f->cond
    queueMutex: Thread, getSleeps: bool, packets: nat, abort: bool,  // q->mutex, the waiter of q->cond
    pushed: seq<Frame>, windexes: nat, rindexes: nat)

  /** What the scheduler and the environment decide. */
  datatype Step =
    | WriterStep(frame: Frame, more: bool, wakeReader: bool)
    | ReaderStep(more: bool, wakeReader: bool)
    | AborterStep(wakeReader: bool)
    | PacketPut
    | Spurious(t: Thread)

  function Init(c: Config): (r: State) {
    State(0, 0, 0, 0, seq(c.max, _ => None), WIdle, RIdle, ALockQueue,
          Nobody, false, false, Nobody, false, 0, false, [], 0, 0)
  }

  /** SDL_CondSignal on f->cond: some sleeper, if there is one, wakes up; `reader` picks between two. */
  function SignalRing(s: State, reader: bool): (r: State) {
    if s.readerSleeps && (reader || !s.writerSleeps) then s.(readerSleeps := false)
    else s.(writerSleeps := false)
  }

  /** Advancing an index of the ring. */
  function Advance(c: Config, i: nat): (r: nat) {
    if i + 1 == c.max then 0 else i + 1
  }

  /** packet_queue_get: block until there is a packet, or abort. None while blocked. */
  function StepGet(s: State): (r: Option<State>) {
    match s.w
    case GetLock => if s.queueMutex.Nobody? then Some(s.(w := GetCheck, queueMutex := Writer)) else None
    case GetCheck =>
      if s.abort then Some(s.(w := WDone, queueMutex := Nobody))
      else if s.packets > 0 then Some(s.(w := WIdle, queueMutex := Nobody, packets := s.packets - 1))
      else Some(s.(w := GetWait, queueMutex := Nobody, getSleeps := true))
    case GetWait =>
      if !s.getSleeps && s.queueMutex.Nobody? then Some(s.(w := GetCheck, queueMutex := Writer)) else None
    case _ => None
  }

  /** frame_queue_peek_writable: block until a slot is free, or abort. */
  function StepPeekWritable(c: Config, s: State): (r: Option<State>) {
    match s.w
    case WPeekLock => if s.ringMutex.Nobody? then Some(s.(w := WPeekCheck, ringMutex := Writer)) else None
    case WPeekCheck => Some(s.(w := if s.size >= c.max && !s.abort then WPeekSleep else WPeekUnlock))
    case WPeekSleep => Some(s.(w := WPeekWait, ringMutex := Nobody, writerSleeps := true))
    case WPeekWait =>
      if !s.writerSleeps && s.ringMutex.Nobody? then Some(s.(w := WPeekCheck, ringMutex := Writer)) else None
    case WPeekUnlock => Some(s.(w := WPeekTest, ringMutex := Nobody))
    case WPeekTest => Some(s.(w := if s.abort then WDone else Write))
    case _ => None
  }

  /** Filling the slot at windex and frame_queue_push. */
  function StepPush(c: Config, s: State, frame: Frame, wakeReader: bool): (r: Option<State>)
    requires |s.slots| == c.max && s.windex < c.max
  {
    match s.w
    case Write =>
      Some(s.(w := PushIndex, slots := s.slots[s.windex := Some(frame)], pushed := s.pushed + [frame]))
    case PushIndex => Some(s.(w := PushLock, windex := Advance(c, s.windex), windexes := s.windexes + 1))
    case PushLock => if s.ringMutex.Nobody? then Some(s.(w := PushCount, ringMutex := Writer)) else None
    case PushCount => Some(SignalRing(s.(w := PushUnlock, size := s.size + 1), wakeReader))
    case PushUnlock => Some(s.(w := WIdle, ringMutex := Nobody))
    case _ => None
  }

  /** The decoder thread's next step, or None while it is blocked; it gets a packet or puts a frame. */
  function StepWriter(c: Config, s: State, frame: Frame, more: bool, wakeReader: bool): (r: Option<State>)
    requires |s.slots| == c.max && s.windex < c.max
  {
    match s.w
    case WIdle => Some(s.(w := if more then GetLock else WPeekLock))
    case GetLock | GetCheck | GetWait => StepGet(s)
    case WPeekLock | WPeekCheck | WPeekSleep | WPeekWait | WPeekUnlock | WPeekTest => StepPeekWritable(c, s)
    case Write | PushIndex | PushLock | PushCount | PushUnlock => StepPush(c, s, frame, wakeReader)
    case WDone => None
  }

  /** frame_queue_peek_readable: block until a frame has not been shown, or abort. */
  function StepPeekReadable(s: State): (out: Option<State>) {
    match s.r
    case RPeekLock => if s.ringMutex.Nobody? then Some(s.(r := RPeekCheck, ringMutex := Reader)) else None
    case RPeekCheck => Some(s.(r := if s.size - s.shown <= 0 && !s.abort then RPeekSleep else RPeekUnlock))
    case RPeekSleep => Some(s.(r := RPeekWait, ringMutex := Nobody, readerSleeps := true))
    case RPeekWait =>
      if !s.readerSleeps && s.ringMutex.Nobody? then Some(s.(r := RPeekCheck, ringMutex := Reader)) else None
    case RPeekUnlock => Some(s.(r := RPeekTest, ringMutex := Nobody))
    case RPeekTest => Some(s.(r := if s.abort then RIdle else Look))
    case _ => None
  }

  /** frame_queue_next: keep the frame just shown, or drop the one shown before. */
  function StepNext(c: Config, s: State, wakeReader: bool): (out: Option<State>)
    requires |s.slots| == c.max && s.rindex < c.max
  {
    match s.r
    case Next =>
      if c.keep && s.shown == 0 then Some(s.(r := RIdle, shown := 1))
      else Some(s.(r := NextIndex, slots := s.slots[s.rindex := None]))
    case NextIndex => Some(s.(r := NextLock, rindex := Advance(c, s.rindex), rindexes := s.rindexes + 1))
    case NextLock => if s.ringMutex.Nobody? then Some(s.(r := NextCount, ringMutex := Reader)) else None
    case NextCount => Some(SignalRing(s.(r := NextUnlock, size := s.size - 1), wakeReader))
    case NextUnlock => Some(s.(r := RIdle, ringMutex := Nobody))
    case _ => None
  }

  /**
   * The consumer's next step: from RIdle it polls frame_queue_nb_remaining
   * (video) or calls frame_queue_peek_readable (audio, `more`); having looked
   * at frames it may or may not call frame_queue_next.
   */
  function StepReader(c: Config, s: State, more: bool, wakeReader: bool): (out: Option<State>)
    requires |s.slots| == c.max && s.rindex < c.max
  {
    match s.r
    case RIdle => Some(s.(r := if more then RPeekLock else if s.size - s.shown == 0 then RIdle else Look))
    case RPeekLock | RPeekCheck | RPeekSleep | RPeekWait | RPeekUnlock | RPeekTest => StepPeekReadable(s)
    case Look => Some(s.(r := if more then Next else RIdle))
    case Next | NextIndex | NextLock | NextCount | NextUnlock => StepNext(c, s, wakeReader)
  }

  /** packet_queue_abort, frame_queue_signal, then waiting for the decoder thread. */
  function StepAborter(s: State, wakeReader: bool): (r: Option<State>) {
    match s.a
    case ALockQueue => if s.queueMutex.Nobody? then Some(s.(a := ASetAbort, queueMutex := Aborter)) else None
    case ASetAbort => Some(s.(a := AUnlockQueue, abort := true, getSleeps := false))
    case AUnlockQueue => Some(s.(a := ALockRing, queueMutex := Nobody))
    case ALockRing => if s.ringMutex.Nobody? then Some(s.(a := ASignal, ringMutex := Aborter)) else None
    case ASignal => Some(SignalRing(s.(a := AUnlockRing), wakeReader))
    case AUnlockRing => Some(s.(a := AJoin, ringMutex := Nobody))
    case AJoin => None
  }

  predicate Shape(c: Config, s: State) {
    |s.slots| == c.max && s.windex < c.max && s.rindex < c.max
  }

  /** One step of the whole system, or None if it cannot be taken. */
  function Apply(c: Config, s: State, step: Step): (r: Option<State>)
    requires Shape(c, s)
  {
    match step
    case WriterStep(frame, more, wakeReader) => StepWriter(c, s, frame, more, wakeReader)
    case ReaderStep(more, wakeReader) => StepReader(c, s, more, wakeReader)
    case AborterStep(wakeReader) => StepAborter(s, wakeReader)
    case PacketPut => StepPacketPut(s)
    case Spurious(t) => StepSpurious(s, t)
  }

  /** packet_queue_put: lock, append, signal, unlock. */
  function StepPacketPut(s: State): (r: Option<State>) {
    if s.queueMutex.Nobody? && !s.abort then Some(s.(packets := s.packets + 1, getSleeps := false)) else None
  }

  /** Condition variables may wake up on their own. */
  function StepSpurious(s: State, t: Thread): (r: Option<State>) {
    match t
    case Writer => Some(s.(writerSleeps := false, getSleeps := false))
    case Reader => Some(s.(readerSleeps := false))
    case _ => None
  }

  /** A run: the state after a list of steps, or None if one of them cannot be taken. */
  function Run(c: Config, s: State, steps: seq<Step>): (r: Option<State>)
    decreases steps
  {
    if steps == [] then Some(s)
    else if !Shape(c, s) then None
    else
      match Apply(c, s, steps[0])
      case None => None
      case Some(s') => Run(c, s', steps[1..])
  }

  ghost predicate Reachable(c: Config, s: State) {
    exists steps :: Run(c, Init(c), steps) == Some(s)
  }

  // ---- the invariant ----------------------------------------------------------------

  function WriterPending(s: State): (r: nat) {
    if (s.w.PushLock? || s.w.PushCount?) then 1 else 0
  }

  function ReaderPending(s: State): (out: nat) {
    if (s.r.NextLock? || s.r.NextCount?) then 1 else 0
  }

  /** How many frames the counter `size` has ever been raised for. */
  function Counted(s: State): (r: int) {
    s.windexes - WriterPending(s)
  }

  /** The counters, and what each program point knows of them. */
  ghost predicate CountsOk(c: Config, s: State) {
    && c.max >= 1 && |s.slots| == c.max && s.windex < c.max && s.rindex < c.max
    && s.shown <= 1 && (s.shown == 1 ==> c.keep)
    && s.size == Counted(s) - s.rindexes + ReaderPending(s)
    && 0 <= s.size <= c.max
    && s.rindexes + s.shown <= Counted(s)
    && |s.pushed| == s.windexes + (if s.w.PushIndex? then 1 else 0)
    && (((s.w.WPeekTest? && !s.abort) || s.w.Write? || s.w.PushIndex? || s.w.PushLock? || s.w.PushCount?) ==>
          s.size < c.max)
    && (s.w.WPeekUnlock? && !s.abort ==> s.size < c.max)
    && ((s.r.Look? || s.r.Next?) ==> s.rindexes + s.shown < Counted(s))
    && ((s.r.RPeekUnlock? || s.r.RPeekTest?) && !s.abort ==> s.rindexes + s.shown < Counted(s))
    && (s.r.NextIndex? ==> (c.keep ==> s.shown == 1) && s.rindexes + s.shown < Counted(s))
  }

  /** Who holds the locks, who sleeps, and what the sleepers wait for. */
  ghost predicate LocksOk(c: Config, s: State) {
    && (s.ringMutex.Writer? <==>
          (s.w.WPeekCheck? || s.w.WPeekSleep? || s.w.WPeekUnlock? || s.w.PushCount? || s.w.PushUnlock?))
    && (s.ringMutex.Reader? <==>
          (s.r.RPeekCheck? || s.r.RPeekSleep? || s.r.RPeekUnlock? || s.r.NextCount? || s.r.NextUnlock?))
    && (s.ringMutex.Aborter? <==> (s.a.ASignal? || s.a.AUnlockRing?))
    && (s.queueMutex.Writer? <==> s.w.GetCheck?)
    && (s.queueMutex.Aborter? <==> (s.a.ASetAbort? || s.a.AUnlockQueue?))
    && !s.queueMutex.Reader?
    && (s.getSleeps ==> s.w.GetWait? && !s.abort)
    && (s.writerSleeps ==> s.w.WPeekWait?)
    && (s.readerSleeps ==> s.r.RPeekWait?)
    && (s.writerSleeps || s.w.WPeekSleep? ==> s.size >= c.max)
    && (s.readerSleeps || s.r.RPeekSleep? ==> s.size <= s.shown)
    && (s.abort <==> (s.a.AUnlockQueue? || s.a.ALockRing? || s.a.ASignal? || s.a.AUnlockRing? || s.a.AJoin?))
    && ((s.a.AUnlockRing? || s.a.AJoin?) && (c.max >= 2 || !c.keep) ==>
          !s.writerSleeps && !s.readerSleeps && !s.w.WPeekSleep? && !s.r.RPeekSleep?)
  }

  /** The slot of frame number `k`: where an index stands after `k` advances from 0. */
  function Slot(c: Config, k: nat): (i: nat)
    requires c.max >= 1
    ensures i < c.max
  {
    if k == 0 then 0 else Advance(c, Slot(c, k - 1))
  }

  /** The indices are the counters modulo the ring size, and live slots hold the frames pushed for them. */
  ghost predicate SlotsOk(c: Config, s: State) {
    && c.max >= 1 && |s.slots| == c.max
    && s.windex == Slot(c, s.windexes) && s.rindex == Slot(c, s.rindexes)
    && forall k :: FirstLive(s) <= k < |s.pushed| ==> s.slots[Slot(c, k)] == Some(s.pushed[k])
  }

  /** Frame number `rindexes` is gone once frame_queue_next has unreferenced it. */
  function FirstLive(s: State): (out: nat) {
    if s.r.NextIndex? then s.rindexes + 1 else s.rindexes
  }

  ghost predicate Inv(c: Config, s: State) {
    CountsOk(c, s) && LocksOk(c, s) && SlotsOk(c, s)
  }

  lemma InitInv(c: Config)
    requires c.max >= 1
    ensures Inv(c, Init(c))
  {
  }

  // Each group of program points keeps the counters and the locks.

  lemma GetKeepsCounts(c: Config, s: State)
    requires Inv(c, s) && StepGet(s).Some?
    ensures CountsOk(c, StepGet(s).value)
  {
    hide SlotsOk, LocksOk;
    var t := StepGet(s).value;
    assert WriterPending(t) == WriterPending(s) && ReaderPending(t) == ReaderPending(s);
  }

  lemma GetKeepsLocks(c: Config, s: State)
    requires Inv(c, s) && StepGet(s).Some?
    ensures LocksOk(c, StepGet(s).value)
  {
    hide SlotsOk, CountsOk;
  }

  lemma PeekWritableKeepsCounts(c: Config, s: State)
    requires Inv(c, s) && StepPeekWritable(c, s).Some?
    ensures CountsOk(c, StepPeekWritable(c, s).value)
  {
    hide SlotsOk, SignalRing, Advance;
    var t := StepPeekWritable(c, s).value;
    assert WriterPending(t) == WriterPending(s) && ReaderPending(t) == ReaderPending(s);
    assert s.w.WPeekCheck? && t.w.WPeekUnlock? && !s.abort ==> s.size < c.max;
  }

  lemma PeekWritableKeepsLocks(c: Config, s: State)
    requires Inv(c, s) && StepPeekWritable(c, s).Some?
    ensures LocksOk(c, StepPeekWritable(c, s).value)
  {
    hide SlotsOk;
  }

  lemma PushKeepsCounts(c: Config, s: State, frame: Frame, wake: bool)
    requires Inv(c, s) && StepPush(c, s, frame, wake).Some?
    ensures CountsOk(c, StepPush(c, s, frame, wake).value)
  {
    hide SlotsOk, SignalRing;
    if s.w.PushCount? {
      PushCountKeepsCounts(c, s, wake);
    }
  }

  lemma PushCountKeepsCounts(c: Config, s: State, wake: bool)
    requires Inv(c, s) && s.w.PushCount?
    ensures CountsOk(c, SignalRing(s.(w := PushUnlock, size := s.size + 1), wake))
  {
    hide SlotsOk;
  }

  lemma PushKeepsLocks(c: Config, s: State, frame: Frame, wake: bool)
    requires Inv(c, s) && StepPush(c, s, frame, wake).Some?
    ensures LocksOk(c, StepPush(c, s, frame, wake).value)
  {
    hide SlotsOk, SignalRing, Advance;
    if s.w.PushCount? {
      PushCountKeepsLocks(c, s, wake);
    }
  }

  lemma PushCountKeepsLocks(c: Config, s: State, wake: bool)
    requires Inv(c, s) && s.w.PushCount?
    ensures LocksOk(c, SignalRing(s.(w := PushUnlock, size := s.size + 1), wake))
  {
    hide SlotsOk;
  }

  lemma WriterKeeps(c: Config, s: State, frame: Frame, more: bool, wake: bool)
    requires Inv(c, s) && StepWriter(c, s, frame, more, wake).Some?
    ensures var s' := StepWriter(c, s, frame, more, wake).value; CountsOk(c, s') && LocksOk(c, s')
  {
    hide StepGet, StepPeekWritable, StepPush, SlotsOk;
    if StepGet(s).Some? { GetKeepsCounts(c, s); GetKeepsLocks(c, s); }
    if StepPeekWritable(c, s).Some? { PeekWritableKeepsCounts(c, s); PeekWritableKeepsLocks(c, s); }
    if StepPush(c, s, frame, wake).Some? { PushKeepsCounts(c, s, frame, wake); PushKeepsLocks(c, s, frame, wake); }
  }

  lemma PeekReadableKeepsCounts(c: Config, s: State)
    requires Inv(c, s) && StepPeekReadable(s).Some?
    ensures CountsOk(c, StepPeekReadable(s).value)
  {
    hide SlotsOk;
    var t := StepPeekReadable(s).value;
    assert WriterPending(t) == WriterPending(s) && ReaderPending(t) == ReaderPending(s);
  }

  lemma PeekReadableKeepsLocks(c: Config, s: State)
    requires Inv(c, s) && StepPeekReadable(s).Some?
    ensures LocksOk(c, StepPeekReadable(s).value)
  {
    hide SlotsOk;
  }

  lemma NextKeepsCounts(c: Config, s: State, wake: bool)
    requires Inv(c, s) && StepNext(c, s, wake).Some?
    ensures CountsOk(c, StepNext(c, s, wake).value)
  {
    if s.r.Next? || s.r.NextIndex? {
      NextIndexKeepsCounts(c, s, wake);
    } else {
      NextCountKeepsCounts(c, s, wake);
    }
  }

  lemma NextIndexKeepsCounts(c: Config, s: State, wake: bool)
    requires Inv(c, s) && (s.r.Next? || s.r.NextIndex?)
    ensures CountsOk(c, StepNext(c, s, wake).value)
  {
    hide SlotsOk;
  }

  lemma NextCountKeepsCounts(c: Config, s: State, wake: bool)
    requires Inv(c, s) && StepNext(c, s, wake).Some? && !s.r.Next? && !s.r.NextIndex?
    ensures CountsOk(c, StepNext(c, s, wake).value)
  {
    hide SlotsOk, SignalRing, Advance;
    if s.r.NextCount? {
      NextSignalKeepsCounts(c, s, wake);
    }
  }

  lemma NextSignalKeepsCounts(c: Config, s: State, wake: bool)
    requires Inv(c, s) && s.r.NextCount?
    ensures CountsOk(c, SignalRing(s.(r := NextUnlock, size := s.size - 1), wake))
  {
    hide SlotsOk;
  }

  lemma NextKeepsLocks(c: Config, s: State, wake: bool)
    requires Inv(c, s) && StepNext(c, s, wake).Some?
    ensures LocksOk(c, StepNext(c, s, wake).value)
  {
    hide SlotsOk, SignalRing;
    if s.r.NextCount? {
      NextCountKeepsLocks(c, s, wake);
    }
  }

  lemma NextCountKeepsLocks(c: Config, s: State, wake: bool)
    requires Inv(c, s) && s.r.NextCount?
    ensures LocksOk(c, SignalRing(s.(r := NextUnlock, size := s.size - 1), wake))
  {
    hide SlotsOk;
  }

  lemma ReaderKeeps(c: Config, s: State, more: bool, wake: bool)
    requires Inv(c, s) && StepReader(c, s, more, wake).Some?
    ensures var s' := StepReader(c, s, more, wake).value; CountsOk(c, s') && LocksOk(c, s')
  {
    assert Shape(c, s);
    hide StepPeekReadable, StepNext, SlotsOk, CountsOk, LocksOk;
    if StepPeekReadable(s).Some? { PeekReadableKeepsCounts(c, s); PeekReadableKeepsLocks(c, s); }
    if StepNext(c, s, wake).Some? { NextKeepsCounts(c, s, wake); NextKeepsLocks(c, s, wake); }
    if s.r.RIdle? || s.r.Look? { PollKeeps(c, s, more, wake); }
  }

  lemma PollKeeps(c: Config, s: State, more: bool, wake: bool)
    requires Inv(c, s) && (s.r.RIdle? || s.r.Look?)
    ensures var s' := StepReader(c, s, more, wake).value; CountsOk(c, s') && LocksOk(c, s')
  {
    hide SlotsOk;
  }

  lemma AborterKeeps(c: Config, s: State, wake: bool)
    requires Inv(c, s) && StepAborter(s, wake).Some?
    ensures CountsOk(c, StepAborter(s, wake).value) && LocksOk(c, StepAborter(s, wake).value)
  {
    hide SlotsOk;
  }

  lemma OthersKeep(c: Config, s: State, t: Thread)
    requires Inv(c, s)
    ensures var s' := StepPacketPut(s); s'.Some? ==> CountsOk(c, s'.value) && LocksOk(c, s'.value)
    ensures var s' := StepSpurious(s, t); s'.Some? ==> CountsOk(c, s'.value) && LocksOk(c, s'.value)
  {
    hide SlotsOk;
  }

  // ... and the slots.

  lemma {:induction false} SlotAdd(c: Config, k: nat, d: nat)
    requires c.max >= 1 && d < c.max
    ensures Slot(c, k + d) == if Slot(c, k) + d < c.max then Slot(c, k) + d else Slot(c, k) + d - c.max
    decreases d
  {
    if d > 0 {
      SlotAdd(c, k, d - 1);
    }
  }

  /** Fewer than max_size frames apart, slots differ. */
  lemma SlotsDistinct(c: Config, k: nat, m: nat)
    requires k < m < k + c.max
    ensures Slot(c, k) != Slot(c, m)
  {
    SlotAdd(c, k, m - k);
  }

  /** The slot `d` places after an index, as the source computes it. */
  lemma SlotModulo(c: Config, k: nat, d: nat)
    requires d < c.max
    ensures (Slot(c, k) + d) % c.max == Slot(c, k + d)
  {
    SlotAdd(c, k, d);
    if Slot(c, k) + d >= c.max {
      WrapsOnce(Slot(c, k) + d, c.max);
    }
  }

  lemma WrapsOnce(x: nat, m: nat)
    requires m <= x < 2 * m
    ensures x % m == x - m
  {
    var q := x / m;
    assert x == q * m + x % m;
    if q >= 2 {
      ProductMono(2, q, m);
    } else if q <= 0 {
      ProductMono(q, 0, m);
    }
  }

  /** The fields that the slots depend on. */
  ghost predicate SameSlots(s: State, s': State) {
    && s'.slots == s.slots && s'.pushed == s.pushed && s'.windex == s.windex && s'.windexes == s.windexes
    && s'.rindex == s.rindex && s'.rindexes == s.rindexes && FirstLive(s') == FirstLive(s)
  }

  lemma SlotsFrame(c: Config, s: State, s': State)
    requires SlotsOk(c, s) && SameSlots(s, s')
    ensures SlotsOk(c, s')
  {
  }

  /** The new frame goes to a slot that holds no live frame. */
  lemma WriteKeepsSlots(c: Config, s: State, frame: Frame)
    requires Inv(c, s) && s.w.Write?
    ensures SlotsOk(c, StepPush(c, s, frame, false).value)
  {
    var s' := StepPush(c, s, frame, false).value;
    forall k | FirstLive(s') <= k < |s'.pushed| ensures s'.slots[Slot(c, k)] == Some(s'.pushed[k]) {
      if k < s.windexes {
        SlotsDistinct(c, k, s.windexes);
      }
    }
  }

  /** Dropping the frame at rindex leaves the other live frames alone. */
  lemma UnrefKeepsSlots(c: Config, s: State)
    requires Inv(c, s) && s.r.Next? && !(c.keep && s.shown == 0)
    ensures SlotsOk(c, StepNext(c, s, false).value)
  {
    var s' := StepNext(c, s, false).value;
    forall k | FirstLive(s') <= k < |s'.pushed| ensures s'.slots[Slot(c, k)] == Some(s'.pushed[k]) {
      SlotsDistinct(c, s.rindexes, k);
    }
  }

  lemma StepKeepsSlots(c: Config, s: State, step: Step)
    requires Inv(c, s) && Apply(c, s, step).Some?
    ensures SlotsOk(c, Apply(c, s, step).value)
  {
    var s' := Apply(c, s, step).value;
    if step.WriterStep? && s.w.Write? {
      WriteKeepsSlots(c, s, step.frame);
    } else if step.WriterStep? && s.w.PushIndex? {
      assert s'.windex == Slot(c, s'.windexes);
    } else if step.ReaderStep? && s.r.Next? && !(c.keep && s.shown == 0) {
      UnrefKeepsSlots(c, s);
    } else if step.ReaderStep? && s.r.NextIndex? {
      assert s'.rindex == Slot(c, s'.rindexes);
    } else {
      OtherStepsKeepSlots(c, s, step);
      SlotsFrame(c, s, s');
    }
  }

  lemma OtherStepsKeepSlots(c: Config, s: State, step: Step)
    requires Shape(c, s) && Apply(c, s, step).Some?
    requires step.WriterStep? ==> !s.w.Write? && !s.w.PushIndex?
    requires step.ReaderStep? ==> !s.r.NextIndex? && (s.r.Next? ==> c.keep && s.shown == 0)
    ensures SameSlots(s, Apply(c, s, step).value)
  {
    hide SameSlots, StepWriter, StepReader;
    match step
    case WriterStep(frame, more, wake) => WriterSameSlots(c, s, frame, more, wake);
    case ReaderStep(more, wake) => ReaderSameSlots(c, s, more, wake);
    case _ => OthersSameSlots(c, s, step);
  }

  lemma WriterSameSlots(c: Config, s: State, frame: Frame, more: bool, wake: bool)
    requires Shape(c, s) && StepWriter(c, s, frame, more, wake).Some? && !s.w.Write? && !s.w.PushIndex?
    ensures SameSlots(s, StepWriter(c, s, frame, more, wake).value)
  {
    hide StepGet, StepPeekWritable, StepPush;
    if StepGet(s).Some? { GetSameSlots(s); }
    if StepPeekWritable(c, s).Some? { PeekWritableSameSlots(c, s); }
    if StepPush(c, s, frame, wake).Some? { PushSameSlots(c, s, frame, wake); }
  }

  lemma GetSameSlots(s: State)
    requires StepGet(s).Some?
    ensures SameSlots(s, StepGet(s).value)
  {
  }

  lemma PeekWritableSameSlots(c: Config, s: State)
    requires StepPeekWritable(c, s).Some?
    ensures SameSlots(s, StepPeekWritable(c, s).value)
  {
  }

  lemma PushSameSlots(c: Config, s: State, frame: Frame, wake: bool)
    requires Shape(c, s) && StepPush(c, s, frame, wake).Some? && !s.w.Write? && !s.w.PushIndex?
    ensures SameSlots(s, StepPush(c, s, frame, wake).value)
  {
  }

  lemma ReaderSameSlots(c: Config, s: State, more: bool, wake: bool)
    requires Shape(c, s) && StepReader(c, s, more, wake).Some?
    requires !s.r.NextIndex? && (s.r.Next? ==> c.keep && s.shown == 0)
    ensures SameSlots(s, StepReader(c, s, more, wake).value)
  {
    hide StepPeekReadable, StepNext;
    if StepPeekReadable(s).Some? { PeekReadableSameSlots(s); }
    if StepNext(c, s, wake).Some? { NextSameSlots(c, s, wake); }
  }

  lemma PeekReadableSameSlots(s: State)
    requires StepPeekReadable(s).Some?
    ensures SameSlots(s, StepPeekReadable(s).value)
  {
  }

  lemma NextSameSlots(c: Config, s: State, wake: bool)
    requires Shape(c, s) && StepNext(c, s, wake).Some?
    requires !s.r.NextIndex? && (s.r.Next? ==> c.keep && s.shown == 0)
    ensures SameSlots(s, StepNext(c, s, wake).value)
  {
    hide SignalRing, Advance;
    if s.r.NextCount? {
      SignalSameSlots(s.(r := NextUnlock, size := s.size - 1), wake);
    }
  }

  lemma OthersSameSlots(c: Config, s: State, step: Step)
    requires Shape(c, s) && Apply(c, s, step).Some? && !step.WriterStep? && !step.ReaderStep?
    ensures SameSlots(s, Apply(c, s, step).value)
  {
    hide StepWriter, StepReader, StepAborter;
    if step.AborterStep? {
      AborterSameSlots(s, step.wakeReader);
    }
  }

  lemma AborterSameSlots(s: State, wake: bool)
    requires StepAborter(s, wake).Some?
    ensures SameSlots(s, StepAborter(s, wake).value)
  {
    hide SignalRing;
    if s.a.ASignal? {
      SignalSameSlots(s.(a := AUnlockRing), wake);
    }
  }

  lemma SignalSameSlots(s: State, wake: bool)
    ensures SameSlots(s, SignalRing(s, wake))
  {
  }

  lemma StepKeepsInv(c: Config, s: State, step: Step)
    requires Inv(c, s) && Apply(c, s, step).Some?
    ensures Inv(c, Apply(c, s, step).value)
  {
    hide CountsOk, LocksOk, SlotsOk, StepWriter, StepReader, StepAborter;
    StepKeepsSlots(c, s, step);
    match step
    case WriterStep(frame, more, wake) => WriterKeeps(c, s, frame, more, wake);
    case ReaderStep(more, wake) => ReaderKeeps(c, s, more, wake);
    case AborterStep(wake) => AborterKeeps(c, s, wake);
    case PacketPut => OthersKeep(c, s, Nobody);
    case Spurious(t) => OthersKeep(c, s, t);
  }

  // ---- what holds in every reachable state ---------------------------------------------

  lemma {:induction false} RunKeepsInv(c: Config, s: State, steps: seq<Step>)
    requires Inv(c, s) && Run(c, s, steps).Some?
    ensures Inv(c, Run(c, s, steps).value)
    decreases steps
  {
    hide CountsOk, LocksOk, SlotsOk, Apply;
    if steps != [] {
      StepKeepsInv(c, s, steps[0]);
      RunKeepsInv(c, Apply(c, s, steps[0]).value, steps[1..]);
    }
  }

  lemma ReachableInv(c: Config, s: State)
    requires c.max >= 1 && Reachable(c, s)
    ensures Inv(c, s)
  {
    var steps :| Run(c, Init(c), steps) == Some(s);
    InitInv(c);
    RunKeepsInv(c, Init(c), steps);
  }

  /** The size stays within the ring, and a shown frame is always counted. */
  lemma SizeBounds(c: Config, s: State)
    requires c.max >= 1 && Reachable(c, s)
    ensures 0 <= s.size <= c.max
    ensures s.shown == 1 ==> s.size >= 1
  {
    ReachableInv(c, s);
  }

  /**
   * The slot that the writer fills is none that the consumer may still look at:
   * not the kept last-shown frame, not the next ones to show.
   */
  lemma WriterSlotSafe(c: Config, s: State, d: nat)
    requires c.max >= 1 && Reachable(c, s) && s.w.Write?
    requires s.rindexes + d < s.windexes
    ensures d < c.max && s.windex != (s.rindex + d) % c.max
    ensures s.shown == 1 ==> s.rindexes + 0 < s.windexes
  {
    hide LocksOk;
    ReachableInv(c, s);
    SlotModulo(c, s.rindexes, d);
    SlotsDistinct(c, s.rindexes + d, s.windexes);
  }

  /** The frames waiting to be shown, oldest first. */
  function Queue(s: State): (r: seq<Frame>) {
    if s.rindexes + s.shown <= Counted(s) <= |s.pushed| then s.pushed[s.rindexes + s.shown..Counted(s)] else []
  }

  /** The frame `d` places after rindex, as frame_queue_peek and its variants find it. */
  function Peek(c: Config, s: State, d: nat): (r: Option<Frame>)
    requires Shape(c, s)
  {
    s.slots[(s.rindex + d) % c.max]
  }

  /**
   * What the consumer reads is the queue: the number of frames remaining, the
   * next frame, the one after it, and the last one shown.
   */
  lemma ReadsAreQueue(c: Config, s: State)
    requires c.max >= 1 && Reachable(c, s) && (s.r.RIdle? || s.r.Look? || s.r.RPeekCheck?)
    ensures Shape(c, s) && s.size - s.shown == |Queue(s)|
    ensures |Queue(s)| >= 1 ==> Peek(c, s, s.shown) == Some(Queue(s)[0])
    ensures |Queue(s)| >= 2 ==> Peek(c, s, s.shown + 1) == Some(Queue(s)[1])
    ensures s.shown == 1 ==> s.rindexes < |s.pushed| && Peek(c, s, 0) == Some(s.pushed[s.rindexes])
    ensures s.r.Look? ==> |Queue(s)| >= 1
  {
    hide LocksOk, SlotsOk, Peek;
    ReachableInv(c, s);
    QueueIs(c, s);
    hide Queue;
    if |Queue(s)| >= 1 {
      PeekIsPushed(c, s, s.shown);
    }
    if |Queue(s)| >= 2 {
      PeekIsPushed(c, s, s.shown + 1);
    }
    if s.shown == 1 {
      PeekIsPushed(c, s, 0);
    }
  }

  lemma QueueIs(c: Config, s: State)
    requires CountsOk(c, s)
    ensures s.rindexes + s.shown <= Counted(s) <= |s.pushed|
    ensures Queue(s) == s.pushed[s.rindexes + s.shown..Counted(s)]
  {
  }

  lemma PeekIsPushed(c: Config, s: State, d: nat)
    requires Shape(c, s) && SlotsOk(c, s) && d < c.max
    requires FirstLive(s) == s.rindexes && s.rindexes + d < |s.pushed|
    ensures Peek(c, s, d) == Some(s.pushed[s.rindexes + d])
  {
    SlotModulo(c, s.rindexes, d);
    assert Some(s.pushed[s.rindexes + d]) == s.slots[Slot(c, s.rindexes + d)];
  }

  /** What a step may do to the queue. */
  ghost predicate QueueChanged(c: Config, s: State, s': State, step: Step) {
    if step.WriterStep? && s.w.PushCount? then
      s.pushed != [] && Queue(s') == Queue(s) + [s.pushed[|s.pushed| - 1]]
    else if step.ReaderStep? && Dequeues(c, s) then
      Queue(s) != [] && Queue(s') == Queue(s)[1..]
    else
      Queue(s') == Queue(s)
  }

  /**
   * The ring refines a queue: the writer's count-up step appends the frame it
   * filled in, the consumer's frame_queue_next removes the head at one step,
   * and no other step changes the queue.
   */
  lemma RefinesQueue(c: Config, s: State, step: Step)
    requires c.max >= 1 && Reachable(c, s) && Shape(c, s) && Apply(c, s, step).Some?
    ensures QueueChanged(c, s, Apply(c, s, step).value, step)
  {
    ReachableInv(c, s);
    StepKeepsInv(c, s, step);
    var s' := Apply(c, s, step).value;
    hide SlotsOk, LocksOk, QueueChanged, StepWriter, StepReader, StepAborter, Moves;
    match step
    case WriterStep(frame, more, wake) =>
      WriterMoves(c, s, frame, more, wake);
      MovesChangeQueue(c, s, s', step, if s.w.PushCount? then 1 else 0, 0);
    case ReaderStep(more, wake) =>
      ReaderMoves(c, s, more, wake);
      MovesChangeQueue(c, s, s', step, 0, if Dequeues(c, s) then 1 else 0);
    case _ =>
      OthersMove(c, s, step);
      MovesChangeQueue(c, s, s', step, 0, 0);
  }

  predicate Dequeues(c: Config, s: State) {
    s.r.NextIndex? || (s.r.Next? && c.keep && s.shown == 0)
  }

  /** How far a step moves the end and the beginning of the queue; frames are only added to `pushed`. */
  ghost predicate Moves(s: State, s': State, end: nat, begin: nat) {
    && s.pushed <= s'.pushed && Counted(s') == Counted(s) + end
    && s'.rindexes + s'.shown == s.rindexes + s.shown + begin
  }

  lemma MovesChangeQueue(c: Config, s: State, s': State, step: Step, end: nat, begin: nat)
    requires CountsOk(c, s) && CountsOk(c, s') && Moves(s, s', end, begin)
    requires step.WriterStep? ==> end == (if s.w.PushCount? then 1 else 0) && begin == 0
    requires step.ReaderStep? ==> end == 0 && begin == (if Dequeues(c, s) then 1 else 0)
    requires !step.WriterStep? && !step.ReaderStep? ==> end == begin == 0
    ensures QueueChanged(c, s, s', step)
  {
    assert end == 1 ==> Counted(s') == |s.pushed|;
    QueueIs(c, s);
    QueueIs(c, s');
    var i, n := s.rindexes + s.shown, Counted(s);
    hide CountsOk, Counted, Queue, Dequeues;
    SliceMoved(s.pushed, s'.pushed, i, n, end, begin);
  }

  /** One more element at the end of a slice, or one less at its beginning, or neither. */
  lemma SliceMoved(p: seq<Frame>, p': seq<Frame>, i: nat, n: nat, end: nat, begin: nat)
    requires p <= p' && i + begin <= n <= |p| && n + end <= |p'| && end + begin <= 1
    ensures end == 1 ==> p'[i..n + 1] == p[i..n] + [p'[n]]
    ensures begin == 1 ==> i < n && p'[i + 1..n] == p[i..n][1..]
    ensures end + begin == 0 ==> p'[i..n] == p[i..n]
  {
    assert forall k :: 0 <= k < |p| ==> p[k] == p'[k];
  }

  lemma WriterMoves(c: Config, s: State, frame: Frame, more: bool, wake: bool)
    requires Shape(c, s) && StepWriter(c, s, frame, more, wake).Some?
    ensures Moves(s, StepWriter(c, s, frame, more, wake).value, if s.w.PushCount? then 1 else 0, 0)
  {
    hide StepGet, StepPeekWritable, StepPush;
    if StepGet(s).Some? { GetMoves(s); }
    if StepPeekWritable(c, s).Some? { PeekWritableMoves(c, s); }
    if StepPush(c, s, frame, wake).Some? { PushMoves(c, s, frame, wake); }
  }

  lemma GetMoves(s: State)
    requires StepGet(s).Some?
    ensures Moves(s, StepGet(s).value, 0, 0) && !s.w.PushCount?
  {
  }

  lemma PeekWritableMoves(c: Config, s: State)
    requires StepPeekWritable(c, s).Some?
    ensures Moves(s, StepPeekWritable(c, s).value, 0, 0) && !s.w.PushCount?
  {
  }

  lemma PushMoves(c: Config, s: State, frame: Frame, wake: bool)
    requires Shape(c, s) && StepPush(c, s, frame, wake).Some?
    ensures Moves(s, StepPush(c, s, frame, wake).value, if s.w.PushCount? then 1 else 0, 0)
  {
    assert s.pushed <= s.pushed + [frame];
  }

  lemma ReaderMoves(c: Config, s: State, more: bool, wake: bool)
    requires Shape(c, s) && StepReader(c, s, more, wake).Some?
    ensures Moves(s, StepReader(c, s, more, wake).value, 0, if Dequeues(c, s) then 1 else 0)
  {
    hide StepPeekReadable, StepNext;
    if StepPeekReadable(s).Some? { PeekReadableMoves(c, s); }
    if StepNext(c, s, wake).Some? { NextMoves(c, s, wake); }
  }

  lemma PeekReadableMoves(c: Config, s: State)
    requires StepPeekReadable(s).Some?
    ensures Moves(s, StepPeekReadable(s).value, 0, 0) && !Dequeues(c, s)
  {
  }

  lemma NextMoves(c: Config, s: State, wake: bool)
    requires Shape(c, s) && StepNext(c, s, wake).Some?
    ensures Moves(s, StepNext(c, s, wake).value, 0, if Dequeues(c, s) then 1 else 0)
  {
    hide SignalRing, Advance;
    if s.r.NextCount? {
      SignalMoves(s.(r := NextUnlock, size := s.size - 1), wake);
    }
  }

  lemma SignalMoves(s: State, wake: bool)
    ensures Moves(s, SignalRing(s, wake), 0, 0)
  {
  }

  lemma OthersMove(c: Config, s: State, step: Step)
    requires Shape(c, s) && !step.WriterStep? && !step.ReaderStep? && Apply(c, s, step).Some?
    ensures Moves(s, Apply(c, s, step).value, 0, 0)
  {
    hide StepWriter, StepReader, SameSlots, Moves;
    OthersSameSlots(c, s, step);
    OthersStay(c, s, step);
    SameSlotsMove(s, Apply(c, s, step).value);
  }

  lemma OthersStay(c: Config, s: State, step: Step)
    requires Shape(c, s) && !step.WriterStep? && !step.ReaderStep? && Apply(c, s, step).Some?
    ensures var s' := Apply(c, s, step).value; s'.w == s.w && s'.shown == s.shown
  {
    hide StepWriter, StepReader;
  }

  lemma SameSlotsMove(s: State, s': State)
    requires SameSlots(s, s') && WriterPending(s') == WriterPending(s) && s'.shown == s.shown
    ensures Moves(s, s', 0, 0)
  {
  }

  // ---- no lost wake-up on abort ------------------------------------------------------------

  /**
   * Once packet_queue_abort and frame_queue_signal are through, the decoder
   * thread sleeps on neither queue, and neither does the consumer.
   */
  lemma NoLostWakeup(c: Config, s: State)
    requires c.max >= 1 && (c.max >= 2 || !c.keep) && Reachable(c, s) && (s.a.AUnlockRing? || s.a.AJoin?)
    ensures !s.writerSleeps && !s.readerSleeps && !s.getSleeps
  {
    ReachableInv(c, s);
  }

  // ---- the wait for the decoder thread ends ----------------------------------------------

  /** The steps that the decoder thread has at most before it, once abort is set. */
  function StepsLeft(w: WriterAt): (n: nat)
    ensures n <= 10 && (n == 0 <==> w.WDone?)
  {
    match w
    case WDone => 0
    case GetCheck | WPeekTest => 1
    case GetLock | GetWait | WPeekUnlock => 2
    case WPeekCheck => 3
    case WPeekLock | WPeekWait => 4
    case WIdle | WPeekSleep => 5
    case PushUnlock => 6
    case PushCount => 7
    case PushLock => 8
    case PushIndex => 9
    case Write => 10
  }

  /** The consumer's steps until it gives up the ring's lock, if it holds it. */
  function HoldLeft(r: ReaderAt): (n: nat)
    ensures n <= 2
  {
    match r
    case RPeekCheck | NextCount => 2
    case RPeekSleep | RPeekUnlock | NextUnlock => 1
    case _ => 0
  }

  /** From s to t the decoder thread has come closer to its end, and the others are where they were. */
  predicate Closer(s: State, t: State) {
    StepsLeft(t.w) < StepsLeft(s.w) && t.abort && t.a == s.a && t.r == s.r
  }

  /** After the abort every step of the decoder thread brings it closer to its end. */
  lemma WriterComesCloser(c: Config, s: State, frame: Frame, more: bool, wake: bool)
    requires Shape(c, s) && s.abort && StepWriter(c, s, frame, more, wake).Some?
    ensures Closer(s, StepWriter(c, s, frame, more, wake).value)
  {
    hide StepGet, StepPeekWritable, StepPush;
    if StepGet(s).Some? { GetComesCloser(s); }
    if StepPeekWritable(c, s).Some? { PeekComesCloser(c, s); }
    if StepPush(c, s, frame, wake).Some? { PushComesCloser(c, s, frame, wake); }
  }

  lemma GetComesCloser(s: State)
    requires s.abort && StepGet(s).Some?
    ensures Closer(s, StepGet(s).value)
  {
  }

  lemma PeekComesCloser(c: Config, s: State)
    requires s.abort && StepPeekWritable(c, s).Some?
    ensures Closer(s, StepPeekWritable(c, s).value)
  {
  }

  lemma PushComesCloser(c: Config, s: State, frame: Frame, wake: bool)
    requires Shape(c, s) && s.abort && StepPush(c, s, frame, wake).Some?
    ensures Closer(s, StepPush(c, s, frame, wake).value)
  {
    hide Advance, SignalRing;
    if s.w.PushCount? {
      SignalLeaves(s.(w := PushUnlock, size := s.size + 1), wake);
    }
  }

  /** From s to t the decoder thread has not moved, and the abort has not been taken back. */
  predicate Left(s: State, t: State) {
    t.w == s.w && (s.abort ==> t.abort) && (s.a.AJoin? ==> t.a.AJoin?)
  }

  lemma SignalLeaves(s: State, wake: bool)
    ensures var t := SignalRing(s, wake); Left(s, t) && t.abort == s.abort && t.a == s.a && t.r == s.r
  {
  }

  /** No other thread changes where the decoder thread is, or takes the abort back. */
  lemma OthersLeaveWriter(c: Config, s: State, step: Step)
    requires Shape(c, s) && !step.WriterStep? && Apply(c, s, step).Some?
    ensures Left(s, Apply(c, s, step).value)
  {
    hide StepWriter, StepReader, StepAborter;
    match step
    case ReaderStep(more, wake) => ReaderLeaves(c, s, more, wake);
    case AborterStep(wake) => AborterLeaves(s, wake);
    case _ =>
  }

  lemma ReaderLeaves(c: Config, s: State, more: bool, wake: bool)
    requires Shape(c, s) && StepReader(c, s, more, wake).Some?
    ensures Left(s, StepReader(c, s, more, wake).value)
  {
    hide StepPeekReadable, StepNext;
    if StepPeekReadable(s).Some? { PeekReadableLeaves(s); }
    if StepNext(c, s, wake).Some? { NextLeaves(c, s, wake); }
  }

  lemma PeekReadableLeaves(s: State)
    requires StepPeekReadable(s).Some?
    ensures Left(s, StepPeekReadable(s).value)
  {
  }

  lemma NextLeaves(c: Config, s: State, wake: bool)
    requires Shape(c, s) && StepNext(c, s, wake).Some?
    ensures Left(s, StepNext(c, s, wake).value)
  {
    hide Advance, SignalRing;
    if s.r.NextCount? {
      SignalLeaves(s.(r := NextUnlock, size := s.size - 1), wake);
    }
  }

  lemma AborterLeaves(s: State, wake: bool)
    requires StepAborter(s, wake).Some?
    ensures Left(s, StepAborter(s, wake).value)
  {
    hide SignalRing;
    if s.a.ASignal? {
      SignalLeaves(s.(a := AUnlockRing), wake);
    }
  }

  function WriterSteps(steps: seq<Step>): (n: nat) {
    if steps == [] then 0 else (if steps[0].WriterStep? then 1 else 0) + WriterSteps(steps[1..])
  }

  /** Over any run after the abort, the decoder thread takes at most the steps that it has left; ten in all. */
  lemma {:induction false} DecoderStepsBounded(c: Config, s: State, steps: seq<Step>)
    requires s.abort && Run(c, s, steps).Some?
    ensures WriterSteps(steps) + StepsLeft(Run(c, s, steps).value.w) <= StepsLeft(s.w) <= 10
    decreases steps
  {
    if steps != [] {
      hide StepWriter, StepReader, StepAborter, StepPacketPut, StepSpurious, StepsLeft;
      match steps[0] {
        case WriterStep(frame, more, wake) => WriterComesCloser(c, s, frame, more, wake);
        case _ => OthersLeaveWriter(c, s, steps[0]);
      }
      hide Apply;
      DecoderStepsBounded(c, Apply(c, s, steps[0]).value, steps[1..]);
    }
  }

  /** The thread in decoder_abort waits for the decoder thread, in a ring where no signal is lost. */
  ghost predicate Joining(c: Config, s: State) {
    Inv(c, s) && s.a.AJoin? && (c.max >= 2 || !c.keep)
  }

  /** The decoder thread can take its next step, unless the consumer holds the ring's lock. */
  lemma WriterMayStep(c: Config, s: State, frame: Frame, more: bool, wake: bool)
    requires Joining(c, s) && !s.w.WDone? && !s.ringMutex.Reader?
    ensures StepWriter(c, s, frame, more, wake).Some?
  {
    hide SlotsOk, SignalRing, Advance;
  }

  /** The consumer can go on from where it holds the lock, and gives it up in two steps. */
  lemma ReaderLetsGo(c: Config, s: State, more: bool, wake: bool)
    requires Joining(c, s) && s.ringMutex.Reader?
    ensures Shape(c, s) && HoldLeft(s.r) > 0
    ensures var t := StepReader(c, s, more, wake);
            t.Some? && HoldLeft(t.value.r) < HoldLeft(s.r)
  {
    hide SlotsOk, Advance;
  }

  /**
   * In every reachable state in which decoder_abort waits, at most 32 steps of the decoder
   * thread and the consumer bring the decoder thread to its end, and the wait with it.
   */
  lemma {:induction false} DecoderFinishes(c: Config, s: State) returns (steps: seq<Step>)
    requires Joining(c, s)
    ensures |steps| <= 3 * StepsLeft(s.w) + HoldLeft(s.r) <= 32
    ensures forall k :: 0 <= k < |steps| ==> steps[k].WriterStep? || steps[k].ReaderStep?
    ensures Run(c, s, steps).Some? && Run(c, s, steps).value.w.WDone?
    decreases 3 * StepsLeft(s.w) + HoldLeft(s.r)
  {
    assert Shape(c, s) && s.abort;
    if s.w.WDone? {
      steps := [];
    } else {
      var step := if s.ringMutex.Reader? then ReaderStep(false, false) else WriterStep(0, false, false);
      JoiningStep(c, s, step);
      StepKeepsInv(c, s, step);
      hide Inv, Apply, StepsLeft, HoldLeft;
      var rest := DecoderFinishes(c, Apply(c, s, step).value);
      steps := [step] + rest;
      assert steps[1..] == rest;
    }
  }

  lemma JoiningStep(c: Config, s: State, step: Step)
    requires Joining(c, s) && !s.w.WDone?
    requires step == if s.ringMutex.Reader? then ReaderStep(false, false) else WriterStep(0, false, false)
    ensures Shape(c, s) && Apply(c, s, step).Some?
    ensures var t := Apply(c, s, step).value;
            t.a.AJoin? && 3 * StepsLeft(t.w) + HoldLeft(t.r) < 3 * StepsLeft(s.w) + HoldLeft(s.r)
  {
    assert Shape(c, s) && s.abort;
    hide Inv, StepWriter, StepReader, StepsLeft, HoldLeft;
    if s.ringMutex.Reader? {
      ReaderLetsGo(c, s, false, false);
      OthersLeaveWriter(c, s, step);
    } else {
      WriterMayStep(c, s, 0, false, false);
      WriterComesCloser(c, s, 0, false, false);
    }
  }

  lemma ReachableJoining(c: Config, s: State)
    requires c.max >= 1 && (c.max >= 2 || !c.keep) && Reachable(c, s) && s.a.AJoin?
    ensures Joining(c, s)
  {
    ReachableInv(c, s);
    hide Inv;
  }

  lemma {:induction false} RunAppend(c: Config, s: State, steps: seq<Step>, step: Step)
    requires Run(c, s, steps).Some? && Shape(c, Run(c, s, steps).value)
    ensures Run(c, s, steps + [step]) == Apply(c, Run(c, s, steps).value, step)
    decreases steps
  {
    hide Apply;
    if steps == [] {
      assert [step][1..] == [];
    } else {
      RunAppend(c, Apply(c, s, steps[0]).value, steps[1..], step);
      assert (steps + [step])[1..] == steps[1..] + [step];
    }
  }

  /** A step from a reachable state that can be taken leads to one. */
  lemma Take(c: Config, s: State, step: Step) returns (s': State)
    requires Reachable(c, s) && Shape(c, s) && Apply(c, s, step).Some?
    ensures Apply(c, s, step) == Some(s') && Reachable(c, s')
  {
    s' := Apply(c, s, step).value;
    var steps :| Run(c, Init(c), steps) == Some(s);
    RunAppend(c, Init(c), steps, step);
  }

  /** A ring of one kept frame, full, with the frame counted and the consumer yet to look at it. */
  function OneFrame(c: Config): (r: State) {
    Init(c).(size := 1, slots := [Some(7)], pushed := [7], windexes := 1)
  }

  lemma ReachWritten(c: Config)
    requires c == Config(1, true)
    ensures Reachable(c, Init(c).(w := PushIndex, slots := [Some(7)], pushed := [7]))
  {
    var step := WriterStep(7, false, false);
    var s := Init(c);
    assert Run(c, s, []) == Some(s);
    s := Take(c, s, step);
    s := Take(c, s, step);
    s := Take(c, s, step);
    s := Take(c, s, step);
    s := Take(c, s, step);
    s := Take(c, s, step);
    assert s.slots == [Some(7)] && s.pushed == [7];
  }

  lemma ReachOneFrame(c: Config)
    requires c == Config(1, true)
    ensures Reachable(c, OneFrame(c))
  {
    var step := WriterStep(7, false, false);
    ReachWritten(c);
    var s := Init(c).(w := PushIndex, slots := [Some(7)], pushed := [7]);
    s := Take(c, s, step);
    s := Take(c, s, step);
    s := Take(c, s, step);
    s := Take(c, s, step);
  }

  /** The consumer shows the frame and then waits for the next one. */
  function ReaderAsleep(c: Config): (out: State) {
    OneFrame(c).(shown := 1, r := RPeekWait, readerSleeps := true)
  }

  /** The writer waits for room. */
  function BothAsleep(c: Config): (r: State) {
    ReaderAsleep(c).(w := WPeekWait, writerSleeps := true)
  }

  lemma ReachShown(c: Config)
    requires c == Config(1, true)
    ensures Reachable(c, OneFrame(c).(shown := 1))
  {
    ReachOneFrame(c);
    var s := OneFrame(c);
    s := Take(c, s, ReaderStep(false, false));
    s := Take(c, s, ReaderStep(true, false));
    s := Take(c, s, ReaderStep(true, false));
  }

  lemma ReachReaderAsleep(c: Config)
    requires c == Config(1, true)
    ensures Reachable(c, ReaderAsleep(c))
  {
    hide StepWriter, StepAborter, StepPacketPut, StepSpurious, StepNext;
    ReachShown(c);
    var s := OneFrame(c).(shown := 1);
    s := Take(c, s, ReaderStep(true, false));
    s := Take(c, s, ReaderStep(true, false));
    s := Take(c, s, ReaderStep(true, false));
    s := Take(c, s, ReaderStep(true, false));
    assert s == ReaderAsleep(c);
  }

  lemma ReachBothAsleep(c: Config)
    requires c == Config(1, true)
    ensures Reachable(c, BothAsleep(c))
  {
    ReachReaderAsleep(c);
    var s := ReaderAsleep(c);
    s := Take(c, s, WriterStep(0, false, false));
    s := Take(c, s, WriterStep(0, false, false));
    s := Take(c, s, WriterStep(0, false, false));
    s := Take(c, s, WriterStep(0, false, false));
  }

  /** The one signal of decoder_abort wakes the consumer, and the decoder thread sleeps on. */
  lemma ReachLostWakeup(c: Config) returns (s: State)
    requires c == Config(1, true)
    ensures Reachable(c, s) && s.a.AJoin? && s.writerSleeps && Stuck(s)
  {
    ReachBothAsleep(c);
    s := BothAsleep(c);
    s := Take(c, s, AborterStep(true));
    s := Take(c, s, AborterStep(true));
    s := Take(c, s, AborterStep(true));
    s := Take(c, s, AborterStep(true));
    s := Take(c, s, AborterStep(true));
    s := Take(c, s, AborterStep(true));
  }

  /** The decoder thread sleeps with nobody left to wake it: the consumer finds nothing to remove. */
  predicate Stuck(s: State) {
    && s.a.AJoin? && s.abort && s.w.WPeekWait? && s.writerSleeps && s.size == s.shown
    && (s.r.RIdle? || s.r.RPeekLock? || s.r.RPeekCheck? || s.r.RPeekSleep? || s.r.RPeekWait? || s.r.RPeekUnlock?
        || s.r.RPeekTest?)
  }

  lemma StuckStep(c: Config, s: State, step: Step)
    requires Shape(c, s) && Stuck(s) && !step.Spurious? && Apply(c, s, step).Some?
    ensures Stuck(Apply(c, s, step).value)
  {
  }

  /** Without a spurious wake-up it sleeps for ever, and decoder_abort waits for ever. */
  lemma {:induction false} StuckForever(c: Config, s: State, steps: seq<Step>)
    requires Stuck(s) && Run(c, s, steps).Some?
    requires forall k :: 0 <= k < |steps| ==> !steps[k].Spurious?
    ensures Run(c, s, steps).value.writerSleeps && !Run(c, s, steps).value.w.WDone?
    decreases steps
  {
    if steps != [] {
      StuckStep(c, s, steps[0]);
      hide Apply, Stuck;
      StuckForever(c, Apply(c, s, steps[0]).value, steps[1..]);
    }
  }

  /** The shutdown can hang on the decoder thread exactly with a ring of a single, kept slot. */
  lemma LostWakeupIff(c: Config)
    requires c.max >= 1
    ensures (exists s :: Reachable(c, s) && s.a.AJoin? && s.writerSleeps) <==> c.max == 1 && c.keep
  {
    if c.max == 1 && c.keep {
      var s := ReachLostWakeup(c);
    } else {
      forall s | Reachable(c, s) && s.a.AJoin? ensures !s.writerSleeps {
        NoLostWakeup(c, s);
      }
    }
  }

  /** Some run without spurious wake-ups brings the decoder thread to its end. */
  ghost predicate CanFinish(c: Config, s: State) {
    exists steps: seq<Step> :: Unaided(steps) && EndsDone(c, s, steps)
  }

  predicate Unaided(steps: seq<Step>) {
    forall k :: 0 <= k < |steps| ==> !steps[k].Spurious?
  }

  predicate EndsDone(c: Config, s: State, steps: seq<Step>) {
    Run(c, s, steps).Some? && Run(c, s, steps).value.w.WDone?
  }

  /** The wait in decoder_abort can always end exactly with more than one slot, or one that is not kept. */
  lemma FinishesIff(c: Config)
    requires c.max >= 1
    ensures (forall s :: Reachable(c, s) && s.a.AJoin? ==> CanFinish(c, s)) <==> c.max >= 2 || !c.keep
  {
    hide Reachable, Run, Inv, StepsLeft, HoldLeft, Stuck;
    if c.max == 1 && c.keep {
      var s := ReachLostWakeup(c);
      forall steps: seq<Step> | Unaided(steps) ensures !EndsDone(c, s, steps) {
        if Run(c, s, steps).Some? {
          StuckForever(c, s, steps);
        }
      }
    } else {
      forall s | Reachable(c, s) && s.a.AJoin? ensures CanFinish(c, s) {
        ReachableJoining(c, s);
        var steps := DecoderFinishes(c, s);
        assert Unaided(steps) && EndsDone(c, s, steps);
      }
    }
  }
}
