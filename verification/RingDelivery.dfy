/**
 * What ffplay's frame ring delivers (ffplay.c, frame_queue_*): over every run the consumer
 * gets the frames that the decoder thread put in, each once and in order; and any frames can
 * be delivered, unless the ring is a single slot that keeps its frame.
 */
module RingDelivery {
  import opened FrameRing
  import opened Wrappers

  // ---- the observer -------------------------------------------------------------------------

  /** A frame is put in a slot. */
  function Puts(s: State, step: Step): (r: seq<Option<Frame>>) {
    if step.WriterStep? && s.w.Write? then [Some(step.frame)] else []
  }

  /** The consumer has looked at the next frame, and calls frame_queue_next. */
  function Uses(c: Config, s: State, step: Step): (r: seq<Option<Frame>>)
    requires Shape(c, s)
  {
    if step.ReaderStep? && s.r.Look? && step.more then [Peek(c, s, s.shown)] else []
  }

  function AllPut(c: Config, s: State, steps: seq<Step>): (r: seq<Option<Frame>>)
    requires Run(c, s, steps).Some?
    decreases steps
  {
    if steps == [] then [] else Puts(s, steps[0]) + AllPut(c, Apply(c, s, steps[0]).value, steps[1..])
  }

  function AllUsed(c: Config, s: State, steps: seq<Step>): (r: seq<Option<Frame>>)
    requires Run(c, s, steps).Some?
    decreases steps
  {
    if steps == [] then [] else Uses(c, s, steps[0]) + AllUsed(c, Apply(c, s, steps[0]).value, steps[1..])
  }

  // ---- every frame once, in order --------------------------------------------------------------

  /** How many frames the consumer has been through. */
  function Passed(s: State): (n: nat) {
    s.rindexes + s.shown + if s.r.Next? || s.r.NextIndex? then 1 else 0
  }

  function Somes(fs: seq<Frame>): (r: seq<Option<Frame>>)
    ensures |r| == |fs| && forall k :: 0 <= k < |fs| ==> r[k] == Some(fs[k])
  {
    seq(|fs|, k requires 0 <= k < |fs| => Some(fs[k]))
  }

  /** Frames in slots that the consumer has not been through. */
  function Ahead(s: State): (r: seq<Option<Frame>>) {
    if Passed(s) <= |s.pushed| then Somes(s.pushed[Passed(s)..]) else []
  }

  lemma PassedBounds(c: Config, s: State)
    requires CountsOk(c, s)
    ensures Passed(s) <= Counted(s) <= |s.pushed| && Ahead(s) == Somes(s.pushed[Passed(s)..])
  {
  }

  /** One step: a frame is put in, or used, and what is ahead changes accordingly. */
  lemma DeliverStep(c: Config, s: State, step: Step)
    requires Inv(c, s) && Shape(c, s) && Apply(c, s, step).Some?
    ensures Ahead(s) + Puts(s, step) == Uses(c, s, step) + Ahead(Apply(c, s, step).value)
  {
    hide *;
    var t := Apply(c, s, step).value;
    StepKeepsInv(c, s, step);
    InvCounts(c, s);
    InvCounts(c, t);
    PassedBounds(c, s);
    PassedBounds(c, t);
    if |Puts(s, step)| > 0 {
      PutStep(c, s, step);
      AheadMore(s, t, step.frame);
    } else if |Uses(c, s, step)| > 0 {
      UseStep(c, s, step);
      AheadLess(s, t);
    } else {
      OtherStep(c, s, step);
      Beside(Ahead(s));
    }
  }

  lemma InvCounts(c: Config, s: State)
    requires Inv(c, s)
    ensures CountsOk(c, s)
  {
  }

  lemma Beside<T>(a: seq<T>)
    ensures a + [] == a == [] + a
  {
  }

  lemma PutStep(c: Config, s: State, step: Step)
    requires Shape(c, s) && Apply(c, s, step).Some? && |Puts(s, step)| > 0
    ensures var t := Apply(c, s, step).value;
            && step.WriterStep? && Puts(s, step) == [Some(step.frame)] && |Uses(c, s, step)| == 0
            && t.pushed == s.pushed + [step.frame] && Passed(t) == Passed(s)
  {
  }

  lemma AheadMore(s: State, t: State, f: Frame)
    requires t.pushed == s.pushed + [f] && Passed(t) == Passed(s) <= |s.pushed|
    ensures Ahead(t) == Ahead(s) + [Some(f)] == [] + Ahead(t)
  {
    hide Passed;
  }

  lemma UseStep(c: Config, s: State, step: Step)
    requires Inv(c, s) && Shape(c, s) && Apply(c, s, step).Some? && |Uses(c, s, step)| > 0
    ensures var t := Apply(c, s, step).value;
            && Passed(s) < |s.pushed| && Uses(c, s, step) == [Some(s.pushed[Passed(s)])] && |Puts(s, step)| == 0
            && t.pushed == s.pushed && Passed(t) == Passed(s) + 1
  {
    hide LocksOk, SlotsOk, Peek, StepNext, StepPeekReadable;
    assert s.r.Look? && s.shown < c.max && s.rindexes + s.shown < |s.pushed|;
    PeekIsPushed(c, s, s.shown);
  }

  lemma AheadLess(s: State, t: State)
    requires t.pushed == s.pushed && Passed(s) < |s.pushed| && Passed(t) == Passed(s) + 1
    ensures Ahead(s) + [] == [Some(s.pushed[Passed(s)])] + Ahead(t)
  {
    hide Passed;
  }

  lemma OtherStep(c: Config, s: State, step: Step)
    requires Shape(c, s) && Apply(c, s, step).Some? && CountsOk(c, s)
    requires |Puts(s, step)| == 0 && |Uses(c, s, step)| == 0
    ensures Ahead(Apply(c, s, step).value) == Ahead(s) && Puts(s, step) == [] == Uses(c, s, step)
  {
    hide StepWriter, StepReader, StepAborter, Advance, Peek, CountsOk, Passed;
    match step
    case WriterStep(frame, more, wake) => WriterPasses(c, s, frame, more, wake);
    case ReaderStep(more, wake) => ReaderPasses(c, s, more, wake);
    case AborterStep(wake) => AborterPasses(c, s, wake);
    case PacketPut => SamePasses(s, Apply(c, s, step).value);
    case Spurious(_) => SamePasses(s, Apply(c, s, step).value);
  }

  /** Nothing that matters here has changed. */
  predicate Passes(s: State, t: State) {
    t.pushed == s.pushed && Passed(t) == Passed(s)
  }

  lemma SamePasses(s: State, t: State)
    requires t.pushed == s.pushed && t.rindexes == s.rindexes && t.shown == s.shown && t.r == s.r
    ensures Passes(s, t)
  {
  }

  lemma WriterPasses(c: Config, s: State, frame: Frame, more: bool, wake: bool)
    requires Shape(c, s) && StepWriter(c, s, frame, more, wake).Some? && !s.w.Write?
    ensures Passes(s, StepWriter(c, s, frame, more, wake).value)
  {
    hide StepGet, StepPeekWritable, StepPush, Passes;
    if StepGet(s).Some? { GetPasses(s); }
    if StepPeekWritable(c, s).Some? { PeekWritablePasses(c, s); }
    if StepPush(c, s, frame, wake).Some? { PushPasses(c, s, frame, wake); }
    if s.w.WIdle? {
      SamePasses(s, StepWriter(c, s, frame, more, wake).value);
    }
  }

  lemma GetPasses(s: State)
    requires StepGet(s).Some?
    ensures Passes(s, StepGet(s).value)
  {
  }

  lemma PeekWritablePasses(c: Config, s: State)
    requires StepPeekWritable(c, s).Some?
    ensures Passes(s, StepPeekWritable(c, s).value)
  {
  }

  lemma PushPasses(c: Config, s: State, frame: Frame, wake: bool)
    requires Shape(c, s) && StepPush(c, s, frame, wake).Some? && !s.w.Write?
    ensures Passes(s, StepPush(c, s, frame, wake).value)
  {
    hide Advance;
  }

  lemma ReaderPasses(c: Config, s: State, more: bool, wake: bool)
    requires Shape(c, s) && StepReader(c, s, more, wake).Some? && !(s.r.Look? && more) && CountsOk(c, s)
    ensures Passes(s, StepReader(c, s, more, wake).value)
  {
    hide StepPeekReadable, StepNext, Passes, CountsOk;
    if StepPeekReadable(s).Some? { PeekReadablePasses(s); }
    if StepNext(c, s, wake).Some? { NextPasses(c, s, wake); }
    if s.r.RIdle? || s.r.Look? {
      IdlePasses(c, s, more, wake);
    }
  }

  lemma IdlePasses(c: Config, s: State, more: bool, wake: bool)
    requires Shape(c, s) && (s.r.RIdle? || (s.r.Look? && !more))
    ensures StepReader(c, s, more, wake).Some? && Passes(s, StepReader(c, s, more, wake).value)
  {
  }

  lemma PeekReadablePasses(s: State)
    requires StepPeekReadable(s).Some?
    ensures Passes(s, StepPeekReadable(s).value)
  {
    var t := StepPeekReadable(s).value;
    assert t.pushed == s.pushed && t.rindexes == s.rindexes && t.shown == s.shown;
    assert !s.r.Next? && !s.r.NextIndex? && !t.r.Next? && !t.r.NextIndex?;
  }

  lemma NextPasses(c: Config, s: State, wake: bool)
    requires Shape(c, s) && StepNext(c, s, wake).Some?
    ensures Passes(s, StepNext(c, s, wake).value)
  {
    hide Advance, SignalRing;
    if s.r.NextCount? {
      SignalPasses(s.(r := NextUnlock, size := s.size - 1), wake);
    }
  }

  lemma SignalPasses(s: State, wake: bool)
    ensures var t := SignalRing(s, wake);
            t.pushed == s.pushed && t.rindexes == s.rindexes && t.shown == s.shown && t.r == s.r
  {
  }

  lemma AborterPasses(c: Config, s: State, wake: bool)
    requires StepAborter(s, wake).Some?
    ensures Passes(s, StepAborter(s, wake).value)
  {
    hide SignalRing;
    if s.a.ASignal? {
      SignalPasses(s.(a := AUnlockRing), wake);
    }
  }

  lemma Regroup<T>(a: seq<T>, b: seq<T>, c: seq<T>)
    ensures (a + b) + c == a + (b + c)
  {
  }

  /** Over every run: the frames put in are those the consumer has used, in order and each once, and those ahead. */
  lemma {:induction false} DeliveredInOrder(c: Config, s: State, steps: seq<Step>)
    requires Inv(c, s) && Run(c, s, steps).Some?
    ensures Ahead(s) + AllPut(c, s, steps) == AllUsed(c, s, steps) + Ahead(Run(c, s, steps).value)
    decreases steps
  {
    if steps == [] {
      Beside(Ahead(s));
    } else {
      var step, rest := steps[0], steps[1..];
      var t := Apply(c, s, step).value;
      DeliverStep(c, s, step);
      StepKeepsInv(c, s, step);
      hide Inv, Apply, Puts, Uses, Ahead;
      DeliveredInOrder(c, t, rest);
      Regroup(Ahead(s), Puts(s, step), AllPut(c, t, rest));
      Regroup(Uses(c, s, step), Ahead(t), AllPut(c, t, rest));
      Regroup(Uses(c, s, step), AllUsed(c, t, rest), Ahead(Run(c, s, steps).value));
    }
  }

  /** The same from the start: nothing is used that was not put in, nothing twice, and nothing is left out. */
  lemma RingDelivers(c: Config, steps: seq<Step>)
    requires c.max >= 1 && Run(c, Init(c), steps).Some?
    ensures AllPut(c, Init(c), steps) == AllUsed(c, Init(c), steps) + Ahead(Run(c, Init(c), steps).value)
  {
    InitInv(c);
    DeliveredInOrder(c, Init(c), steps);
    assert Ahead(Init(c)) == [];
    Beside(AllPut(c, Init(c), steps));
    hide *;
  }

  // ---- any frames can be delivered ----------------------------------------------------------------

  /** Nobody is under way, and nothing is left to be used. */
  ghost predicate Quiet(c: Config, s: State) {
    && Inv(c, s) && s.w.WIdle? && s.r.RIdle? && s.a.ALockQueue? && s.ringMutex.Nobody?
    && s.size == s.shown && !s.writerSleeps && !s.readerSleeps && !s.abort
  }

  lemma {:induction false} RunThen(c: Config, s: State, a: seq<Step>, b: seq<Step>)
    requires Run(c, s, a).Some? && Run(c, Run(c, s, a).value, b).Some?
    ensures Run(c, s, a + b) == Run(c, Run(c, s, a).value, b)
    ensures AllPut(c, s, a + b) == AllPut(c, s, a) + AllPut(c, Run(c, s, a).value, b)
    ensures AllUsed(c, s, a + b) == AllUsed(c, s, a) + AllUsed(c, Run(c, s, a).value, b)
    decreases a
  {
    var u := Run(c, s, a).value;
    if a == [] {
      assert a + b == b;
      Beside(AllPut(c, s, b));
      Beside(AllUsed(c, s, b));
    } else {
      var t := Apply(c, s, a[0]).value;
      assert (a + b)[0] == a[0] && (a + b)[1..] == a[1..] + b;
      hide Apply, Puts, Uses;
      RunThen(c, t, a[1..], b);
      Regroup(Puts(s, a[0]), AllPut(c, t, a[1..]), AllPut(c, u, b));
      Regroup(Uses(c, s, a[0]), AllUsed(c, t, a[1..]), AllUsed(c, u, b));
    }
  }

  lemma RunOne(c: Config, s: State, step: Step)
    requires Shape(c, s) && Apply(c, s, step).Some?
    ensures Run(c, s, [step]) == Apply(c, s, step)
    ensures AllPut(c, s, [step]) == Puts(s, step) && AllUsed(c, s, [step]) == Uses(c, s, step)
  {
    hide Apply, Puts, Uses;
    assert [step][1..] == [];
    Beside(Puts(s, step));
    Beside(Uses(c, s, step));
  }

  /** A run that has put in and used these frames so far. */
  ghost predicate Has(c: Config, s: State, steps: seq<Step>, t: State,
                      put: seq<Option<Frame>>, used: seq<Option<Frame>>) {
    Run(c, s, steps) == Some(t) && AllPut(c, s, steps) == put && AllUsed(c, s, steps) == used
  }

  lemma HasNothing(c: Config, s: State)
    ensures Has(c, s, [], s, [], [])
  {
  }

  lemma Then(c: Config, s: State, steps: seq<Step>, t: State, step: Step, put: seq<Option<Frame>>,
             used: seq<Option<Frame>>) returns (steps': seq<Step>, t': State)
    requires Has(c, s, steps, t, put, used) && Shape(c, t) && Apply(c, t, step).Some?
    ensures Apply(c, t, step) == Some(t')
    ensures Has(c, s, steps', t', put + Puts(t, step), used + Uses(c, t, step))
    ensures Puts(t, step) == [] == Uses(c, t, step) ==> Has(c, s, steps', t', put, used)
    ensures Puts(t, step) == [] && used == [] ==> Has(c, s, steps', t', put, Uses(c, t, step))
    ensures put == [] && Uses(c, t, step) == [] ==> Has(c, s, steps', t', Puts(t, step), used)
  {
    steps', t' := steps + [step], Apply(c, t, step).value;
    hide Apply, Puts, Uses;
    RunOne(c, t, step);
    RunThen(c, s, steps, [step]);
    Beside(put);
    Beside(used);
    Beside(Puts(t, step));
    Beside(Uses(c, t, step));
  }

  /** The decoder thread finds room. */
  lemma FindsRoom(c: Config, s: State, f: Frame) returns (steps: seq<Step>, t: State)
    requires Quiet(c, s) && s.size < c.max
    ensures Has(c, s, steps, t, [], []) && t == s.(w := Write)
  {
    var w := WriterStep(f, false, false);
    assert Shape(c, s);
    hide Inv, Has;
    HasNothing(c, s);
    steps, t := Then(c, s, [], s, w, [], []);
    steps, t := Then(c, s, steps, t, w, [], []);
    steps, t := Then(c, s, steps, t, w, [], []);
    steps, t := Then(c, s, steps, t, w, [], []);
    steps, t := Then(c, s, steps, t, w, [], []);
  }

  /** With the frame in its slot. */
  function Written(c: Config, s: State, f: Frame): (t: State)
    requires Shape(c, s)
  {
    s.(slots := s.slots[s.windex := Some(f)], pushed := s.pushed + [f], windex := Advance(c, s.windex),
       windexes := s.windexes + 1, size := s.size + 1)
  }

  /** Filling the slot, as far as the ring's lock. */
  function Filled(c: Config, s: State, f: Frame): (t: State)
    requires Shape(c, s)
  {
    s.(w := PushLock, slots := s.slots[s.windex := Some(f)], pushed := s.pushed + [f],
       windex := Advance(c, s.windex), windexes := s.windexes + 1)
  }

  lemma Fills(c: Config, s: State, f: Frame) returns (steps: seq<Step>, t: State)
    requires Shape(c, s) && s.w.Write?
    ensures Has(c, s, steps, t, [Some(f)], []) && t == Filled(c, s, f) && Shape(c, t)
  {
    var w := WriterStep(f, false, false);
    hide Has;
    HasNothing(c, s);
    steps, t := Then(c, s, [], s, w, [], []);
    steps, t := Then(c, s, steps, t, w, [Some(f)], []);
  }

  lemma CountsIn(c: Config, u: State, s: State, f: Frame, before: seq<Step>) returns (steps: seq<Step>, t: State)
    requires Shape(c, s) && s.w.PushLock? && s.ringMutex.Nobody? && !s.readerSleeps && !s.writerSleeps
    requires Has(c, u, before, s, [Some(f)], [])
    ensures Has(c, u, steps, t, [Some(f)], []) && t == s.(w := WIdle, size := s.size + 1)
  {
    var w := WriterStep(f, false, false);
    hide Has;
    steps, t := Then(c, u, before, s, w, [Some(f)], []);
    steps, t := Then(c, u, steps, t, w, [Some(f)], []);
    steps, t := Then(c, u, steps, t, w, [Some(f)], []);
  }

  /** It puts the frame in. */
  lemma PutsIn(c: Config, s: State, f: Frame) returns (steps: seq<Step>, t: State)
    requires Quiet(c, s)
    ensures Shape(c, s) && Has(c, s.(w := Write), steps, t, [Some(f)], []) && t == Written(c, s, f)
  {
    var u := s.(w := Write);
    assert Shape(c, s);
    hide Inv, Has;
    steps, t := Fills(c, u, f);
    steps, t := CountsIn(c, u, t, f, steps);
  }

  /** The consumer looks at it, and goes on. */
  lemma LooksAt(c: Config, s: State) returns (steps: seq<Step>, t: State)
    requires Inv(c, s) && s.r.RIdle? && s.size - s.shown != 0 && Shape(c, s)
    ensures Has(c, s, steps, t, [], [Peek(c, s, s.shown)]) && t == s.(r := Next)
  {
    hide Inv, Has, Peek;
    HasNothing(c, s);
    steps, t := Then(c, s, [], s, ReaderStep(false, false), [], []);
    PeekSame(c, s, t, s.shown);
    steps, t := Then(c, s, steps, t, ReaderStep(true, false), [], []);
  }

  lemma PeekSame(c: Config, s: State, t: State, d: nat)
    requires Shape(c, s) && Shape(c, t) && t.slots == s.slots && t.rindex == s.rindex
    ensures Peek(c, t, d) == Peek(c, s, d)
  {
  }

  /** frame_queue_next. */
  lemma GoesOn(c: Config, s: State) returns (steps: seq<Step>, t: State)
    requires Shape(c, s) && s.r.Next? && s.ringMutex.Nobody? && !s.writerSleeps && !s.readerSleeps
    ensures Has(c, s, steps, t, [], [])
    ensures t == if c.keep && s.shown == 0 then s.(r := RIdle, shown := 1)
                 else s.(r := RIdle, slots := s.slots[s.rindex := None], rindex := Advance(c, s.rindex),
                         rindexes := s.rindexes + 1, size := s.size - 1)
  {
    var u := ReaderStep(false, false);
    hide Has, Peek;
    HasNothing(c, s);
    steps, t := Then(c, s, [], s, u, [], []);
    if !(c.keep && s.shown == 0) {
      steps, t := Then(c, s, steps, t, u, [], []);
      steps, t := Then(c, s, steps, t, u, [], []);
      steps, t := Then(c, s, steps, t, u, [], []);
      steps, t := Then(c, s, steps, t, u, [], []);
    }
  }

  /** Two runs in turn. */
  lemma Both(c: Config, s: State, a: seq<Step>, t: State, p1: seq<Option<Frame>>, u1: seq<Option<Frame>>,
             b: seq<Step>, u: State, p2: seq<Option<Frame>>, u2: seq<Option<Frame>>)
    requires Has(c, s, a, t, p1, u1) && Has(c, t, b, u, p2, u2)
    ensures Has(c, s, a + b, u, p1 + p2, u1 + u2)
  {
    RunThen(c, s, a, b);
  }

  /** One frame goes all the way through the ring. */
  lemma OneThrough(c: Config, s: State, f: Frame) returns (steps: seq<Step>, t: State)
    requires Quiet(c, s) && (c.max >= 2 || !c.keep)
    ensures Quiet(c, t) && exists used :: Has(c, s, steps, t, [Some(f)], used) && |used| == 1
  {
    HasRoom(c, s);
    var a, s1 := FindsRoom(c, s, f);
    var b, s2 := PutsIn(c, s, f);
    StaysInv(c, s, a, s1, [], []);
    StaysInv(c, s1, b, s2, [Some(f)], []);
    AfterWriting(c, s, f);
    var d, s3 := LooksAt(c, s2);
    var x := Peek(c, s2, s2.shown);
    StaysInv(c, s2, d, s3, [], [x]);
    InvCounts(c, s3);
    var e, s4 := GoesOn(c, s3);
    StaysInv(c, s3, e, s4, [], []);
    hide Has, Peek, Inv;
    Both(c, s, a, s1, [], [], b, s2, [Some(f)], []);
    Both(c, s, a + b, s2, [] + [Some(f)], [] + [], d, s3, [], [x]);
    Both(c, s, (a + b) + d, s3, ([] + [Some(f)]) + [], ([] + []) + [x], e, s4, [], []);
    steps, t := ((a + b) + d) + e, s4;
    assert (([] + [Some(f)]) + []) + [] == [Some(f)] && (([] + []) + [x]) + [] == [x];
    assert Has(c, s, steps, t, [Some(f)], [x]);
  }

  lemma HasRoom(c: Config, s: State)
    requires Quiet(c, s) && (c.max >= 2 || !c.keep)
    ensures s.size < c.max && Shape(c, s)
  {
  }

  lemma AfterWriting(c: Config, s: State, f: Frame)
    requires Quiet(c, s)
    ensures var t := Written(c, s, f);
            && Shape(c, t) && t.r.RIdle? && t.size - t.shown == 1 && t.ringMutex.Nobody?
            && !t.writerSleeps && !t.readerSleeps
  {
    hide LocksOk, SlotsOk;
  }

  lemma StaysInv(c: Config, s: State, steps: seq<Step>, t: State, put: seq<Option<Frame>>, used: seq<Option<Frame>>)
    requires Inv(c, s) && Has(c, s, steps, t, put, used)
    ensures Inv(c, t)
  {
    hide Inv;
    RunKeepsInv(c, s, steps);
  }

  lemma QuietInit(c: Config)
    requires c.max >= 1
    ensures Quiet(c, Init(c))
  {
    InitInv(c);
    hide Inv;
  }

  /** Any frames, one after the other. */
  lemma {:induction false} AllThrough(c: Config, s: State, fs: seq<Frame>) returns (steps: seq<Step>, t: State)
    requires Quiet(c, s) && (c.max >= 2 || !c.keep)
    ensures Quiet(c, t) && exists used :: Has(c, s, steps, t, Somes(fs), used) && |used| == |fs|
    decreases |fs|
  {
    if fs == [] {
      steps, t := [], s;
      HasNothing(c, s);
      assert Somes(fs) == [];
    } else {
      hide Quiet, Has;
      var a, u := OneThrough(c, s, fs[0]);
      var b;
      b, t := AllThrough(c, u, fs[1..]);
      var u1 :| Has(c, s, a, u, [Some(fs[0])], u1) && |u1| == 1;
      var u2 :| Has(c, u, b, t, Somes(fs[1..]), u2) && |u2| == |fs[1..]|;
      Both(c, s, a, u, [Some(fs[0])], u1, b, t, Somes(fs[1..]), u2);
      assert Somes(fs) == [Some(fs[0])] + Somes(fs[1..]);
      steps := a + b;
      assert |u1 + u2| == |fs|;
    }
  }

  /** Some run puts in just these frames, and uses them all. */
  ghost predicate Deliverable(c: Config, fs: seq<Frame>) {
    exists steps: seq<Step> :: DeliveredBy(c, fs, steps)
  }

  ghost predicate DeliveredBy(c: Config, fs: seq<Frame>, steps: seq<Step>) {
    && Run(c, Init(c), steps).Some?
    && AllPut(c, Init(c), steps) == Somes(fs) == AllUsed(c, Init(c), steps)
  }

  lemma AllDeliverable(c: Config, fs: seq<Frame>)
    requires c.max >= 2 || (c.max == 1 && !c.keep)
    ensures Deliverable(c, fs)
  {
    QuietInit(c);
    var steps, t := AllThrough(c, Init(c), fs);
    var used :| Has(c, Init(c), steps, t, Somes(fs), used) && |used| == |fs|;
    RingDelivers(c, steps);
    SameLength(Somes(fs), used, Ahead(t));
    assert DeliveredBy(c, fs, steps);
  }

  lemma SameLength(a: seq<Option<Frame>>, b: seq<Option<Frame>>, rest: seq<Option<Frame>>)
    requires a == b + rest && |a| == |b|
    ensures a == b
  {
  }

  // ---- a single slot that keeps its frame -----------------------------------------------------------

  /** The consumer never gets past the first frame. */
  ghost predicate OnlyOne(c: Config, s: State) {
    Inv(c, s) && c.max == 1 && c.keep && s.rindexes == 0
  }

  lemma OnlyOneStep(c: Config, s: State, step: Step)
    requires OnlyOne(c, s) && Shape(c, s) && Apply(c, s, step).Some?
    ensures OnlyOne(c, Apply(c, s, step).value) && Passed(s) <= 1
  {
    StepKeepsInv(c, s, step);
    OnlyOneBound(c, s);
    hide Inv, StepWriter, StepAborter, StepPeekReadable;
    match step
    case WriterStep(frame, more, wake) => WriterAdvances(c, s, frame, more, wake);
    case ReaderStep(more, wake) =>
      if StepPeekReadable(s).Some? { PeekAdvances(s); }
      NextAdvances(c, s, more, wake);
    case AborterStep(wake) => AborterAdvances(c, s, wake);
    case _ =>
  }

  lemma OnlyOneBound(c: Config, s: State)
    requires OnlyOne(c, s)
    ensures !s.r.NextIndex? && Passed(s) <= 1
  {
    hide LocksOk, SlotsOk;
  }

  lemma WriterAdvances(c: Config, s: State, frame: Frame, more: bool, wake: bool)
    requires Shape(c, s) && StepWriter(c, s, frame, more, wake).Some?
    ensures StepWriter(c, s, frame, more, wake).value.rindexes == s.rindexes
  {
  }

  lemma PeekAdvances(s: State)
    requires StepPeekReadable(s).Some?
    ensures StepPeekReadable(s).value.rindexes == s.rindexes
  {
  }

  lemma NextAdvances(c: Config, s: State, more: bool, wake: bool)
    requires Shape(c, s) && StepReader(c, s, more, wake).Some? && !s.r.NextIndex?
    ensures StepReader(c, s, more, wake).value.rindexes == s.rindexes
  {
    hide Advance;
  }

  lemma AborterAdvances(c: Config, s: State, wake: bool)
    requires StepAborter(s, wake).Some?
    ensures StepAborter(s, wake).value.rindexes == s.rindexes
  {
  }

  lemma {:induction false} OnlyOneRun(c: Config, s: State, steps: seq<Step>)
    requires OnlyOne(c, s) && Run(c, s, steps).Some?
    ensures OnlyOne(c, Run(c, s, steps).value)
    decreases steps
  {
    hide OnlyOne, Apply;
    if steps != [] {
      OnlyOneStep(c, s, steps[0]);
      OnlyOneRun(c, Apply(c, s, steps[0]).value, steps[1..]);
    }
  }

  /** Whatever is put in, not more than one frame is ever used. */
  lemma OneSlotUsesOne(c: Config, steps: seq<Step>)
    requires c.max == 1 && c.keep && Run(c, Init(c), steps).Some?
    ensures |AllUsed(c, Init(c), steps)| <= 1
  {
    var t := Run(c, Init(c), steps).value;
    InitInv(c);
    assert OnlyOne(c, Init(c));
    OnlyOneRun(c, Init(c), steps);
    OnlyOneBound(c, t);
    RingDelivers(c, steps);
    AllPutArePushed(c, Init(c), steps);
    hide OnlyOne, Run;
    assert |AllPut(c, Init(c), steps)| == |t.pushed|;
  }

  /** What is put in is what the slots were filled with. */
  lemma {:induction false} AllPutArePushed(c: Config, s: State, steps: seq<Step>)
    requires Inv(c, s) && Run(c, s, steps).Some?
    ensures |s.pushed| + |AllPut(c, s, steps)| == |Run(c, s, steps).value.pushed|
    decreases steps
  {
    if steps != [] {
      PushedStep(c, s, steps[0]);
      StepKeepsInv(c, s, steps[0]);
      hide Inv, Apply, Puts;
      AllPutArePushed(c, Apply(c, s, steps[0]).value, steps[1..]);
    }
  }

  lemma PushedStep(c: Config, s: State, step: Step)
    requires Inv(c, s) && Shape(c, s) && Apply(c, s, step).Some?
    ensures |Apply(c, s, step).value.pushed| == |s.pushed| + |Puts(s, step)|
  {
    hide *;
    InvCounts(c, s);
    if |Puts(s, step)| > 0 {
      PutStep(c, s, step);
    } else if |Uses(c, s, step)| > 0 {
      UseStep(c, s, step);
    } else {
      OtherPushed(c, s, step);
    }
  }

  lemma OtherPushed(c: Config, s: State, step: Step)
    requires Shape(c, s) && Apply(c, s, step).Some? && CountsOk(c, s)
    requires |Puts(s, step)| == 0 && |Uses(c, s, step)| == 0
    ensures Apply(c, s, step).value.pushed == s.pushed
  {
    hide StepWriter, StepReader, StepAborter, Advance, Peek, CountsOk, Passed;
    match step
    case WriterStep(frame, more, wake) => WriterPasses(c, s, frame, more, wake);
    case ReaderStep(more, wake) => ReaderPasses(c, s, more, wake);
    case AborterStep(wake) => AborterPasses(c, s, wake);
    case PacketPut =>
    case Spurious(_) =>
  }

  /** Any frames can be delivered exactly if the ring is not a single slot that keeps its frame. */
  lemma DeliverableIff(c: Config)
    requires c.max >= 1
    ensures (forall fs :: Deliverable(c, fs)) <==> c.max >= 2 || !c.keep
  {
    if c.max >= 2 || !c.keep {
      forall fs ensures Deliverable(c, fs) {
        AllDeliverable(c, fs);
      }
    } else {
      hide DeliveredBy;
      forall steps ensures !DeliveredBy(c, [1, 2], steps) {
        if DeliveredBy(c, [1, 2], steps) {
          NotTwo(c, steps);
        }
      }
      assert !Deliverable(c, [1, 2]);
    }
  }

  lemma NotTwo(c: Config, steps: seq<Step>)
    requires c.max == 1 && c.keep
    ensures !DeliveredBy(c, [1, 2], steps)
  {
    if Run(c, Init(c), steps).Some? {
      OneSlotUsesOne(c, steps);
    }
  }
}
