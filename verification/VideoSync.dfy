/**
 * Duplicating and dropping pictures to keep video in step with its timestamps
 * (ffmpeg.c, do_video_out): how often the picture at hand and the one before it are
 * encoded, and the counts of duplicated and dropped frames in the final report.
 *
 * Times are real numbers, in ticks of the encoder's time base.
 */
module VideoSync {
  import opened Arithmetic
  import opened Wrappers

  datatype Format = Passthrough | Cfr | Vfr | VsCfr | DropTimes

  /** A picture from the filter graph. */
  datatype Picture = Picture(id: int)

  /** What was given to the encoder. */
  datatype Encoded = Encoded(picture: Picture, pts: int)

  datatype Config = Config(
    format: Format,
    dropThreshold: real,     // -frame_drop_threshold, 0 for none
    maxFrames: int,          // -frames
    dupLimit: real,          // more frames than this for one picture are too many
    cutoff: Option<int>)     // the first tick after the recording time

  datatype State = State(
    syncOpts: int, frameNumber: int,
    lastNb0: (int, int, int), lastDropped: bool, lastFrame: Option<Picture>,
    encoded: seq<Encoded>,
    dup: int, drop: int)

  /** A picture with its time and its duration, or the end of the stream. */
  datatype Call =
    | Frame(picture: Picture, ipts: real, duration: real)
    | Flush

  /** lrint: the nearest integer, halves to the even one. */
  function Lrint(x: real): (r: int)
    ensures -0.5 <= x - r as real <= 0.5
  {
    var f := x.Floor;
    var rest := x - f as real;
    if rest < 0.5 || (rest == 0.5 && f % 2 == 0) then f else f + 1
  }

  function MidPred(a: int, b: int, c: int): (r: int) {
    if a > b then
      if c > b then (if c > a then a else c) else b
    else
      if b > c then (if c > a then c else a) else b
  }

  function One(b: bool): (r: int) {
    if b then 1 else 0
  }

  // ---- the decision -----------------------------------------------------------------

  /** How often to encode; how many of these are the previous picture; and the next timestamp. */
  datatype Plan = Plan(nb: int, nb0: int, syncOpts: int)

  function PlanCfr(cfg: Config, s: State, delta0: real, delta: real, syncOpts: int): (r: Plan) {
    if cfg.dropThreshold != 0.0 && delta < cfg.dropThreshold && s.frameNumber != 0 then Plan(0, 0, syncOpts)
    else if delta < -1.1 then Plan(0, 0, syncOpts)
    else if delta > 1.1 then Plan(Lrint(delta), if delta0 > 1.1 then Lrint(delta0 - 0.6) else 0, syncOpts)
    else Plan(1, 0, syncOpts)
  }

  function PlanFrame(cfg: Config, s: State, ipts: real, duration: real): (r: Plan) {
    var delta0 := ipts - s.syncOpts as real;
    var delta := delta0 + duration;
    var clip := delta0 < 0.0 && delta > 0.0 && !cfg.format.Passthrough? && !cfg.format.DropTimes?;
    var ipts' := if clip then s.syncOpts as real else ipts;
    var duration' := if clip then duration + delta0 else duration;
    var delta0' := if clip then 0.0 else delta0;
    match cfg.format
    case VsCfr =>
      if s.frameNumber == 0 && delta0' >= 0.5 then PlanCfr(cfg, s, 0.0, duration', Lrint(ipts'))
      else PlanCfr(cfg, s, delta0', delta, s.syncOpts)
    case Cfr => PlanCfr(cfg, s, delta0', delta, s.syncOpts)
    case Vfr =>
      if delta <= -0.6 then Plan(0, 0, s.syncOpts)
      else Plan(1, 0, if delta > 0.6 then Lrint(ipts') else s.syncOpts)
    case _ => Plan(1, 0, Lrint(ipts'))
  }

  function Limited(cfg: Config, s: State, p: Plan): (r: Plan) {
    var nb := Min(p.nb, cfg.maxFrames - s.frameNumber);
    Plan(nb, Min(p.nb0, nb), p.syncOpts)
  }

  function PlanOf(cfg: Config, s: State, call: Call): (r: Plan) {
    Limited(cfg, s,
            match call
            case Frame(_, ipts, duration) => PlanFrame(cfg, s, ipts, duration)
            case Flush =>
              var n := MidPred(s.lastNb0.0, s.lastNb0.1, s.lastNb0.2);
              Plan(n, n, s.syncOpts))
  }

  /** The frames that neither stand for the dropped previous picture nor are the new picture itself. */
  function Extra(s: State, p: Plan): (r: int) {
    p.nb - One(p.nb0 != 0 && s.lastDropped) - One(p.nb > p.nb0)
  }

  predicate TooMany(cfg: Config, s: State, p: Plan) {
    Extra(s, p) > 0 && p.nb as real > cfg.dupLimit
  }

  predicate Skipped(cfg: Config, s: State, call: Call) {
    TooMany(cfg, s, PlanOf(cfg, s, call))
  }

  // ---- encoding --------------------------------------------------------------------------

  function NextPicture(call: Call): (r: Option<Picture>) {
    if call.Frame? then Some(call.picture) else None
  }

  predicate Recording(cfg: Config, syncOpts: int) {
    cfg.cutoff.Some? ==> syncOpts < cfg.cutoff.value
  }

  /** Frames i to nb; false if encoding stopped before. */
  function Encode(cfg: Config, s: State, i: int, p: Plan, next: Option<Picture>): (r: (State, bool))
    decreases p.nb - i
  {
    if i >= p.nb then (s, true)
    else
      var picture := if i < p.nb0 && s.lastFrame.Some? then s.lastFrame else next;
      if picture.None? || !Recording(cfg, s.syncOpts) then (s, false)
      else
        Encode(cfg, s.(encoded := s.encoded + [Encoded(picture.value, s.syncOpts)],
                       syncOpts := s.syncOpts + 1, frameNumber := s.frameNumber + 1), i + 1, p, next)
  }

  lemma EncodeNext(cfg: Config, s: State, i: int, p: Plan, next: Option<Picture>)
    ensures var picture := if i < p.nb0 && s.lastFrame.Some? then s.lastFrame else next;
            Encode(cfg, s, i, p, next) ==
            if i >= p.nb then (s, true)
            else if picture.None? || !Recording(cfg, s.syncOpts) then (s, false)
            else Encode(cfg, s.(encoded := s.encoded + [Encoded(picture.value, s.syncOpts)],
                                syncOpts := s.syncOpts + 1, frameNumber := s.frameNumber + 1), i + 1, p, next)
  {
  }

  /** The state and the counts when the number of frames has been settled. */
  function Settled(s: State, call: Call, p: Plan): (r: State) {
    s.(syncOpts := p.syncOpts,
       lastNb0 := (p.nb0, s.lastNb0.0, s.lastNb0.1),
       drop := s.drop + One(p.nb0 == 0 && s.lastDropped),
       dup := s.dup + if Extra(s, p) > 0 then Extra(s, p) else 0,
       lastDropped := p.nb == p.nb0 && call.Frame?)
  }

  function Step(cfg: Config, s: State, call: Call): (r: State) {
    var p := PlanOf(cfg, s, call);
    if TooMany(cfg, s, p) then
      s.(syncOpts := p.syncOpts,
         lastNb0 := (p.nb0, s.lastNb0.0, s.lastNb0.1),
         drop := s.drop + One(p.nb0 == 0 && s.lastDropped) + 1)
    else
      var (t, done) := Encode(cfg, Settled(s, call, p), 0, p, NextPicture(call));
      if done then t.(lastFrame := NextPicture(call)) else t
  }

  // ---- the program -----------------------------------------------------------------------

  class OutputStream {
    const cfg: Config
    var syncOpts: int
    var frameNumber: int
    var lastNb0: array<int>
    var lastDropped: bool
    var lastFrame: Option<Picture>
    var encoded: seq<Encoded>
    var nbFramesDup: int
    var nbFramesDrop: int

    predicate Valid()
      reads this
    {
      lastNb0.Length == 3
    }

    function Contents(): (r: State)
      reads this, lastNb0
      requires Valid()
    {
      State(syncOpts, frameNumber, (lastNb0[0], lastNb0[1], lastNb0[2]), lastDropped, lastFrame,
            encoded, nbFramesDup, nbFramesDrop)
    }

    constructor (cfg: Config)
      ensures Valid() && fresh(lastNb0) && this.cfg == cfg && Contents() == Fresh()
    {
      this.cfg := cfg;
      syncOpts, frameNumber, lastDropped, lastFrame := 0, 0, false, None;
      encoded, nbFramesDup, nbFramesDrop := [], 0, 0;
      lastNb0 := new int[3](_ => 0);
    }

    method DoVideoOut(call: Call)
      requires Valid()
      modifies this, lastNb0
      ensures Valid() && lastNb0 == old(lastNb0)
      ensures Contents() == Step(cfg, old(Contents()), call)
    {
      hide PlanFrame, MidPred, Encode, Lrint;
      ghost var s := Contents();
      var next := NextPicture(call);
      var nb, nb0: int;
      match call {
        case Flush =>
          nb := MidPred(lastNb0[0], lastNb0[1], lastNb0[2]);
          nb0 := nb;
        case Frame(_, ipts, duration) =>
          nb, nb0 := Decide(ipts, duration);
      }
      nb := Min(nb, cfg.maxFrames - frameNumber);
      nb0 := Min(nb0, nb);
      ghost var p := Plan(nb, nb0, syncOpts);
      assert p == PlanOf(cfg, s, call);
      var skip := CountFrames(nb, nb0, call);
      if skip {
        return;
      }
      assert Contents() == Settled(s, call, p);
      hide PlanOf, Settled, Extra;
      var done := EncodeFrames(nb, nb0, next, p);
      if !done {
        return;
      }
      lastFrame := next;
    }

    /** The counts of drops and duplicates. True if there are too many frames. */
    method CountFrames(nb: int, nb0: int, call: Call) returns (skip: bool)
      requires Valid()
      modifies this`nbFramesDrop, this`nbFramesDup, this`lastDropped, lastNb0
      ensures Valid()
      ensures var s, p := old(Contents()), Plan(nb, nb0, syncOpts);
              && skip == TooMany(cfg, s, p)
              && Contents() == if skip then s.(lastNb0 := (nb0, s.lastNb0.0, s.lastNb0.1),
                                               drop := s.drop + One(nb0 == 0 && s.lastDropped) + 1)
                               else Settled(s, call, p)
    {
      lastNb0[2] := lastNb0[1];
      lastNb0[1] := lastNb0[0];
      lastNb0[0] := nb0;
      if nb0 == 0 && lastDropped {
        nbFramesDrop := nbFramesDrop + 1;
      }
      var expected := One(nb0 != 0 && lastDropped) + One(nb > nb0);
      if nb > expected {
        if nb as real > cfg.dupLimit {
          nbFramesDrop := nbFramesDrop + 1;
          return true;
        }
        nbFramesDup := nbFramesDup + nb - expected;
      }
      lastDropped := nb == nb0 && call.Frame?;
      return false;
    }

    /** The loop of do_video_out. False if it stops early. */
    method EncodeFrames(nb: int, nb0: int, next: Option<Picture>, ghost p: Plan) returns (done: bool)
      requires Valid() && p.nb == nb && p.nb0 == nb0
      modifies this`encoded, this`syncOpts, this`frameNumber
      ensures (Contents(), done) == Encode(cfg, old(Contents()), 0, p, next)
    {
      hide Encode;
      var i := 0;
      while i < nb
        invariant i >= 0
        invariant Encode(cfg, Contents(), i, p, next) == Encode(cfg, old(Contents()), 0, p, next)
        decreases nb - i
      {
        EncodeNext(cfg, Contents(), i, p, next);
        var picture := if i < nb0 && lastFrame.Some? then lastFrame else next;
        if picture.None? {
          return false;
        }
        if !Recording(cfg, syncOpts) {
          return false;
        }
        encoded := encoded + [Encoded(picture.value, syncOpts)];
        syncOpts := syncOpts + 1;
        frameNumber := frameNumber + 1;
        i := i + 1;
      }
      EncodeNext(cfg, Contents(), i, p, next);
      return true;
    }

    /** The number of frames for a picture, before the limit on their number; may move the next timestamp. */
    method Decide(ipts: real, duration: real) returns (nb: int, nb0: int)
      requires Valid()
      modifies this`syncOpts
      ensures Plan(nb, nb0, syncOpts) == PlanFrame(cfg, old(Contents()), ipts, duration)
    {
      var delta0 := ipts - syncOpts as real;
      var delta := delta0 + duration;
      var ipts', duration' := ipts, duration;
      nb0, nb := 0, 1;
      if delta0 < 0.0 && delta > 0.0 && cfg.format != Passthrough && cfg.format != DropTimes {
        ipts' := syncOpts as real;
        duration' := duration' + delta0;
        delta0 := 0.0;
      }
      if cfg.format == VsCfr && frameNumber == 0 && delta0 >= 0.5 {
        delta := duration';
        delta0 := 0.0;
        syncOpts := Lrint(ipts');
      }
      match cfg.format {
        case VsCfr | Cfr =>
          if cfg.dropThreshold != 0.0 && delta < cfg.dropThreshold && frameNumber != 0 {
            nb := 0;
          } else if delta < -1.1 {
            nb := 0;
          } else if delta > 1.1 {
            nb := Lrint(delta);
            if delta0 > 1.1 {
              nb0 := Lrint(delta0 - 0.6);
            }
          }
        case Vfr =>
          if delta <= -0.6 {
            nb := 0;
          } else if delta > 0.6 {
            syncOpts := Lrint(ipts');
          }
        case DropTimes | Passthrough =>
          syncOpts := Lrint(ipts');
      }
    }
  }

  function Fresh(): (r: State) {
    State(0, 0, (0, 0, 0), false, None, [], 0, 0)
  }

  // ---- conservation of frames ----------------------------------------------------------

  /** No more frames than allowed, and the previous picture is repeated at most as often as frames are planned. */
  predicate Bounded(cfg: Config, s: State) {
    && |s.encoded| == s.frameNumber <= cfg.maxFrames
    && s.lastNb0.0 >= 0 && s.lastNb0.1 >= 0 && s.lastNb0.2 >= 0
  }

  lemma PlanBounds(cfg: Config, s: State, call: Call)
    requires Bounded(cfg, s)
    ensures var p := PlanOf(cfg, s, call);
            && 0 <= p.nb0 <= p.nb <= cfg.maxFrames - s.frameNumber
            && Extra(s, p) >= 0
            && (call.Flush? ==> p.nb0 == p.nb && p.syncOpts == s.syncOpts)
  {
  }

  /** The planned frames that come before the end of the recording time. */
  function InTime(cfg: Config, syncOpts: int, nb: int): (n: int)
    ensures nb >= 0 ==> 0 <= n <= nb
  {
    if cfg.cutoff.None? then nb else Max(0, Min(nb, cfg.cutoff.value - syncOpts))
  }

  /** Encoding adds one frame, one tick and one to the frame number at a time, and stops early only for a reason. */
  lemma {:induction false} EncodeCounts(cfg: Config, s: State, i: int, p: Plan, next: Option<Picture>)
    requires i <= p.nb
    ensures var (t, done) := Encode(cfg, s, i, p, next);
            var n := |t.encoded| - |s.encoded|;
            && 0 <= n <= p.nb - i
            && (done <==> n == p.nb - i)
            && (next.Some? || (s.lastFrame.Some? && p.nb == p.nb0) ==> n == InTime(cfg, s.syncOpts, p.nb - i))
            && (next.None? && s.lastFrame.None? ==> n == 0)
            && t == s.(encoded := t.encoded, syncOpts := s.syncOpts + n, frameNumber := s.frameNumber + n)
    decreases p.nb - i
  {
    if i < p.nb {
      var picture := if i < p.nb0 && s.lastFrame.Some? then s.lastFrame else next;
      if picture.Some? && Recording(cfg, s.syncOpts) {
        EncodeCounts(cfg, s.(encoded := s.encoded + [Encoded(picture.value, s.syncOpts)],
                             syncOpts := s.syncOpts + 1, frameNumber := s.frameNumber + 1), i + 1, p, next);
      }
    }
  }

  /**
   * The drops that a skipped call counts too much: the one of the picture before, which
   * stays to be counted again, and its own if there is no picture to drop.
   */
  function Surplus(cfg: Config, s: State, call: Call): (n: int)
    ensures n >= 0
  {
    if !Skipped(cfg, s, call) then 0
    else One(PlanOf(cfg, s, call).nb0 == 0 && s.lastDropped) + One(call.Flush?)
  }

  /** The planned frames that cannot be encoded: past the recording time, or of no picture at a flush. */
  function Cut(cfg: Config, s: State, call: Call): (n: int) {
    var p := PlanOf(cfg, s, call);
    if TooMany(cfg, s, p) then 0
    else if call.Flush? && s.lastFrame.None? then p.nb
    else p.nb - InTime(cfg, p.syncOpts, p.nb)
  }

  /** Exactly the frames that the guards leave are encoded. */
  lemma StepEncodes(cfg: Config, s: State, call: Call)
    requires Bounded(cfg, s)
    ensures var p := PlanOf(cfg, s, call);
            |Step(cfg, s, call).encoded| - |s.encoded| == if TooMany(cfg, s, p) then 0 else p.nb - Cut(cfg, s, call)
    ensures Cut(cfg, s, call) >= 0
  {
    var p := PlanOf(cfg, s, call);
    PlanBounds(cfg, s, call);
    if !TooMany(cfg, s, p) {
      EncodeCounts(cfg, Settled(s, call, p), 0, p, NextPicture(call));
    }
    hide PlanOf, Encode, InTime, Bounded;
  }

  /** Pictures in, plus duplicates, minus drops (with the one that is still to be counted), minus frames encoded. */
  function Balance(s: State, pictures: int): (r: int) {
    pictures + s.dup - s.drop - One(s.lastDropped) - |s.encoded|
  }

  lemma StepBalance(cfg: Config, s: State, call: Call, pictures: int)
    requires Bounded(cfg, s)
    ensures Bounded(cfg, Step(cfg, s, call))
    ensures Balance(Step(cfg, s, call), pictures + One(call.Frame?)) ==
            Balance(s, pictures) + Cut(cfg, s, call) - Surplus(cfg, s, call)
  {
    var p := PlanOf(cfg, s, call);
    PlanBounds(cfg, s, call);
    StepEncodes(cfg, s, call);
    if !TooMany(cfg, s, p) {
      EncodeCounts(cfg, Settled(s, call, p), 0, p, NextPicture(call));
    }
    hide PlanOf, Encode, InTime, Cut;
  }

  function Run(cfg: Config, s: State, calls: seq<Call>): (r: State) {
    if calls == [] then s else Step(cfg, Run(cfg, s, calls[..|calls| - 1]), calls[|calls| - 1])
  }

  function Pictures(calls: seq<Call>): (r: int) {
    if calls == [] then 0 else Pictures(calls[..|calls| - 1]) + One(calls[|calls| - 1].Frame?)
  }

  /** Frames cut off, and drops counted too much, over a run. */
  function Lost(cfg: Config, s: State, calls: seq<Call>): (r: int) {
    if calls == [] then 0
    else
      var before, call := calls[..|calls| - 1], calls[|calls| - 1];
      Lost(cfg, s, before) + Cut(cfg, Run(cfg, s, before), call)
  }

  function Recounted(cfg: Config, s: State, calls: seq<Call>): (r: int) {
    if calls == [] then 0
    else
      var before, call := calls[..|calls| - 1], calls[|calls| - 1];
      Recounted(cfg, s, before) + Surplus(cfg, Run(cfg, s, before), call)
  }

  lemma {:induction false} RunBalance(cfg: Config, s: State, calls: seq<Call>, pictures: int)
    requires Bounded(cfg, s)
    ensures Bounded(cfg, Run(cfg, s, calls))
    ensures Balance(Run(cfg, s, calls), pictures + Pictures(calls)) ==
            Balance(s, pictures) + Lost(cfg, s, calls) - Recounted(cfg, s, calls)
    decreases |calls|
  {
    hide Bounded, Balance, Cut, Surplus, Step;
    if calls != [] {
      var before := calls[..|calls| - 1];
      RunBalance(cfg, s, before, pictures);
      StepBalance(cfg, Run(cfg, s, before), calls[|calls| - 1], pictures + Pictures(before));
    }
  }

  /** The drop count of the final report: print_report adds the drop still to be counted. */
  function ReportedDrops(s: State): (r: int) {
    s.drop + One(s.lastDropped)
  }

  /**
   * The report balances, pictures in plus duplicates minus drops being the frames
   * encoded, exactly when as many planned frames fall to the recording time or to a
   * flush without a picture as drops are counted too much by calls that are skipped for
   * too large a duplication.
   */
  lemma ReportBalancesIff(cfg: Config, calls: seq<Call>)
    requires cfg.maxFrames >= 0
    ensures var t := Run(cfg, Fresh(), calls);
            |t.encoded| == Pictures(calls) + t.dup - ReportedDrops(t) <==>
            Lost(cfg, Fresh(), calls) == Recounted(cfg, Fresh(), calls)
  {
    assert Bounded(cfg, Fresh()) && Balance(Fresh(), 0) == 0;
    hide *;
    ReportOf(cfg, Fresh(), calls);
  }

  lemma ReportOf(cfg: Config, s: State, calls: seq<Call>)
    requires Bounded(cfg, s) && Balance(s, 0) == 0
    ensures var t := Run(cfg, s, calls);
            |t.encoded| == Pictures(calls) + t.dup - ReportedDrops(t) <==>
              Lost(cfg, s, calls) == Recounted(cfg, s, calls)
  {
    hide Run, Pictures, Lost, Recounted, Bounded, Step;
    RunBalance(cfg, s, calls, 0);
  }

  /** No call of the run takes a planned frame away. */
  predicate NoneCut(cfg: Config, calls: seq<Call>) {
    calls != [] ==>
      var before, call := calls[..|calls| - 1], calls[|calls| - 1];
      NoneCut(cfg, before) && Cut(cfg, Run(cfg, Fresh(), before), call) == 0
  }

  /** Over a run, a sum of what the guards take is zero only if they never take anything. */
  lemma {:induction false} NothingLostIff(cfg: Config, calls: seq<Call>)
    requires cfg.maxFrames >= 0
    ensures Lost(cfg, Fresh(), calls) >= 0
    ensures Lost(cfg, Fresh(), calls) == 0 <==> NoneCut(cfg, calls)
    decreases |calls|
  {
    if calls != [] {
      var before := calls[..|calls| - 1];
      NothingLostIff(cfg, before);
      RunBalance(cfg, Fresh(), before, 0);
      hide Bounded, Cut, Run, Fresh;
      StepEncodes(cfg, Run(cfg, Fresh(), before), calls[|calls| - 1]);
    }
  }

  /** Where no call is skipped, the report balances exactly when no call takes a planned frame away. */
  lemma UnskippedBalancesIff(cfg: Config, calls: seq<Call>)
    requires cfg.maxFrames >= 0 && NeverSkips(cfg, calls)
    ensures var t := Run(cfg, Fresh(), calls);
            |t.encoded| == Pictures(calls) + t.dup - ReportedDrops(t) <==> NoneCut(cfg, calls)
  {
    NothingLostIff(cfg, calls);
    ReportBalancesIff(cfg, calls);
    NothingRecounted(cfg, calls);
    hide Run, Fresh, NoneCut, Lost, Recounted, Pictures;
  }

  lemma {:induction false} NothingRecounted(cfg: Config, calls: seq<Call>)
    requires NeverSkips(cfg, calls)
    ensures Recounted(cfg, Fresh(), calls) == 0
    decreases |calls|
  {
    if calls != [] {
      NeverSkipsBefore(cfg, calls);
      hide NeverSkips, Run, Fresh;
      NothingRecounted(cfg, calls[..|calls| - 1]);
    }
  }

  // ---- runs whose report does not balance ------------------------------------------------

  predicate Balanced(cfg: Config, calls: seq<Call>) {
    var t := Run(cfg, Fresh(), calls);
    |t.encoded| == Pictures(calls) + t.dup - ReportedDrops(t)
  }

  lemma RunNone(cfg: Config)
    requires cfg.maxFrames >= 0
    ensures Run(cfg, Fresh(), []) == Fresh() && Pictures([]) == 0
    ensures Bounded(cfg, Fresh()) && Balance(Fresh(), 0) == 0
  {
  }

  lemma RunOne(cfg: Config, calls: seq<Call>, call: Call)
    ensures Run(cfg, Fresh(), calls + [call]) == Step(cfg, Run(cfg, Fresh(), calls), call)
    ensures Pictures(calls + [call]) == Pictures(calls) + One(call.Frame?)
  {
    assert (calls + [call])[..|calls|] == calls;
  }

  /** A constant frame rate with room for a thousand frames, of which so many are too many for one picture. */
  predicate Strict(cfg: Config) {
    cfg.format.Cfr? && cfg.dropThreshold == 0.0 && cfg.maxFrames >= 1000 && cfg.dupLimit < 900.0
  }

  /** A single call, of which the frames cut off are not the drops counted too much. */
  lemma OneUnbalanced(cfg: Config, call: Call)
    requires cfg.maxFrames >= 0 && Cut(cfg, Fresh(), call) != Surplus(cfg, Fresh(), call)
    ensures !Balanced(cfg, [call])
  {
    hide Run, Pictures, Step, Cut, Surplus;
    RunNone(cfg);
    RunOne(cfg, [], call);
    assert [] + [call] == [call];
    StepBalance(cfg, Fresh(), call, 0);
  }

  /** A picture when the recording time is over. */
  lemma CutOffUnbalanced(cfg: Config, id: int)
    requires Strict(cfg) && cfg.cutoff == Some(0)
    ensures !Balanced(cfg, [Frame(Picture(id), 0.0, 1.0)])
  {
    var call := Frame(Picture(id), 0.0, 1.0);
    assert cfg.maxFrames >= 0 && !Fresh().lastDropped && Fresh().syncOpts == 0 && Fresh().frameNumber == 0;
    hide *;
    FirstPlan(cfg, Fresh(), id);
    CutOne(cfg, Fresh(), call);
    OneUnbalanced(cfg, call);
  }

  /** One frame is planned, and it comes too late. */
  lemma CutOne(cfg: Config, s: State, call: Call)
    requires call.Frame? && PlanOf(cfg, s, call) == Plan(1, 0, 0) && !s.lastDropped && cfg.cutoff == Some(0)
    ensures Cut(cfg, s, call) == 1 && Surplus(cfg, s, call) == 0
  {
    hide PlanOf;
  }

  /** A dropped picture, and then one that is skipped for its duration: the first drop is counted twice. */
  lemma SkipUnbalanced(cfg: Config, id: int)
    requires Strict(cfg)
    ensures !Balanced(cfg, [Frame(Picture(id), -5.0, 0.0), Frame(Picture(id), 0.0, 1000.0)])
  {
    var call1, call2 := Frame(Picture(id), -5.0, 0.0), Frame(Picture(id), 0.0, 1000.0);
    hide Run, Pictures, Step, PlanFrame;
    RunNone(cfg);
    RunOne(cfg, [], call1);
    RunOne(cfg, [call1], call2);
    assert [] + [call1] == [call1] && [call1] + [call2] == [call1, call2];
    EarlyPlan(cfg, Fresh(), id);
    StepDrops(cfg, Fresh(), call1, Plan(0, 0, 0));
    var s := Step(cfg, Fresh(), call1);
    LongPlan(cfg, s, id);
    StepSkips(cfg, s, call2, Plan(1000, 0, 0));
  }

  /** Two pictures that are skipped for their late time, and then a flush that is skipped: a drop without a picture. */
  lemma FlushSkipUnbalanced(cfg: Config, id: int)
    requires Strict(cfg)
    ensures !Balanced(cfg, [Frame(Picture(id), 1000.0, 0.0), Frame(Picture(id), 1000.0, 0.0), Flush])
  {
    var call := Frame(Picture(id), 1000.0, 0.0);
    hide Run, Pictures, Step, PlanFrame;
    RunNone(cfg);
    RunOne(cfg, [], call);
    RunOne(cfg, [call], call);
    RunOne(cfg, [call, call], Flush);
    assert [] + [call] == [call] && [call] + [call] == [call, call] && [call, call] + [Flush] == [call, call, Flush];
    LatePlan(cfg, Fresh(), id);
    StepSkips(cfg, Fresh(), call, Plan(1000, 999, 0));
    var s := Step(cfg, Fresh(), call);
    LatePlan(cfg, s, id);
    StepSkips(cfg, s, call, Plan(1000, 999, 0));
    var s' := Step(cfg, s, call);
    StepSkips(cfg, s', Flush, Plan(999, 999, 0));
  }

  /** A call without frames drops its picture. */
  lemma StepDrops(cfg: Config, s: State, call: Call, p: Plan)
    requires PlanOf(cfg, s, call) == p && p.nb == p.nb0 == 0
    ensures Step(cfg, s, call) ==
            s.(syncOpts := p.syncOpts, lastNb0 := (0, s.lastNb0.0, s.lastNb0.1),
               drop := s.drop + One(s.lastDropped), lastDropped := call.Frame?, lastFrame := NextPicture(call))
  {
  }

  /** A picture that lasts from the start for one frame. */
  lemma FirstPlan(cfg: Config, s: State, id: int)
    requires Strict(cfg) && s.syncOpts == 0 && s.frameNumber == 0
    ensures PlanOf(cfg, s, Frame(Picture(id), 0.0, 1.0)) == Plan(1, 0, 0)
  {
    hide Lrint;
  }

  /** A picture that is over before the output begins. */
  lemma EarlyPlan(cfg: Config, s: State, id: int)
    requires Strict(cfg) && s.syncOpts == 0 && s.frameNumber == 0
    ensures PlanOf(cfg, s, Frame(Picture(id), -5.0, 0.0)) == Plan(0, 0, 0)
  {
    hide Lrint;
  }

  /** A picture that lasts a thousand frames. */
  lemma LongPlan(cfg: Config, s: State, id: int)
    requires Strict(cfg) && s.syncOpts == 0 && s.frameNumber == 0
    ensures PlanOf(cfg, s, Frame(Picture(id), 0.0, 1000.0)) == Plan(1000, 0, 0)
  {
    assert Lrint(1000.0) == 1000;
    hide Lrint;
  }

  /** A picture that is a thousand frames late. */
  lemma LatePlan(cfg: Config, s: State, id: int)
    requires Strict(cfg) && s.syncOpts == 0 && s.frameNumber == 0
    ensures PlanOf(cfg, s, Frame(Picture(id), 1000.0, 0.0)) == Plan(1000, 999, 0)
  {
    assert Lrint(1000.0) == 1000 && Lrint(999.4) == 999;
    hide Lrint;
  }

  /** A call that is skipped. */
  lemma StepSkips(cfg: Config, s: State, call: Call, p: Plan)
    requires PlanOf(cfg, s, call) == p && TooMany(cfg, s, p)
    ensures Step(cfg, s, call) ==
            s.(syncOpts := p.syncOpts, lastNb0 := (p.nb0, s.lastNb0.0, s.lastNb0.1),
               drop := s.drop + One(p.nb0 == 0 && s.lastDropped) + 1)
  {
  }

  // ---- the drop that is noted without a frame ----------------------------------------------

  /** A drop is still to be counted, but the dropped picture has not been kept. */
  predicate Unnamed(s: State) {
    s.lastDropped && s.lastFrame.None?
  }

  /** The message about the drop reads the timestamp of a picture that is not there. */
  predicate ReadsMissing(cfg: Config, s: State, call: Call) {
    PlanOf(cfg, s, call).nb0 == 0 && Unnamed(s)
  }

  /** All frames for a picture stand for one before it that there is not, and recording ends among them. */
  predicate Unnames(cfg: Config, s: State, call: Call) {
    && call.Frame? && !Skipped(cfg, s, call) && s.lastFrame.None?
    && PlanOf(cfg, s, call).nb == PlanOf(cfg, s, call).nb0 && Cut(cfg, s, call) > 0
  }

  lemma StepUnnamed(cfg: Config, s: State, call: Call)
    requires Bounded(cfg, s)
    ensures Unnamed(Step(cfg, s, call)) <==> if Skipped(cfg, s, call) then Unnamed(s) else Unnames(cfg, s, call)
  {
    var p := PlanOf(cfg, s, call);
    PlanBounds(cfg, s, call);
    if !Skipped(cfg, s, call) {
      EncodeCounts(cfg, Settled(s, call, p), 0, p, NextPicture(call));
    }
    hide PlanOf, Encode, InTime, Bounded;
  }

  /** Some call of the run has left a drop without its picture, and those after it were skipped. */
  ghost predicate LeftUnnamed(cfg: Config, calls: seq<Call>) {
    exists i: nat :: i < |calls| && UnnamedSince(cfg, calls, i)
  }

  ghost predicate UnnamedSince(cfg: Config, calls: seq<Call>, i: nat)
    requires i < |calls|
  {
    && Unnames(cfg, Run(cfg, Fresh(), calls[..i]), calls[i])
    && forall k :: i < k < |calls| ==> Skipped(cfg, Run(cfg, Fresh(), calls[..k]), calls[k])
  }

  lemma {:induction false} UnnamedIff(cfg: Config, calls: seq<Call>)
    requires cfg.maxFrames >= 0
    ensures Unnamed(Run(cfg, Fresh(), calls)) <==> LeftUnnamed(cfg, calls)
    decreases |calls|
  {
    if calls != [] {
      var n := |calls| - 1;
      var before, call := calls[..n], calls[n];
      var s := Run(cfg, Fresh(), before);
      assert calls == before + [call];
      hide Run, Unnamed, Unnames, Skipped, Bounded, Step, Balance, LeftUnnamed, UnnamedSince;
      RunNone(cfg);
      RunBalance(cfg, Fresh(), before, 0);
      RunOne(cfg, before, call);
      StepUnnamed(cfg, s, call);
      UnnamedIff(cfg, before);
      LeftUnnamedNext(cfg, before, call);
    }
  }

  lemma LeftUnnamedNext(cfg: Config, before: seq<Call>, call: Call)
    ensures var s := Run(cfg, Fresh(), before);
            LeftUnnamed(cfg, before + [call]) <==>
              Unnames(cfg, s, call) || (Skipped(cfg, s, call) && LeftUnnamed(cfg, before))
  {
    var n, calls, s := |before|, before + [call], Run(cfg, Fresh(), before);
    hide Run, Unnames, Skipped;
    assert calls[..n] == before;
    assert UnnamedSince(cfg, calls, n) <==> Unnames(cfg, s, call);
    forall i: nat | i < n
      ensures UnnamedSince(cfg, calls, i) <==> UnnamedSince(cfg, before, i) && Skipped(cfg, s, call)
    {
      assert calls[..i] == before[..i];
      assert forall k :: i < k < n ==> calls[..k] == before[..k];
    }
  }

  /**
   * do_video_out reads a picture that has not been kept exactly if it notes a drop with
   * its first frame to encode being the new one, and an earlier call, with nothing but
   * skipped calls since, had only frames of a picture that there was not and ran into the
   * end of the recording time.
   */
  lemma ReadsMissingIff(cfg: Config, calls: seq<Call>, call: Call)
    requires cfg.maxFrames >= 0
    ensures var s := Run(cfg, Fresh(), calls);
            ReadsMissing(cfg, s, call) <==> PlanOf(cfg, s, call).nb0 == 0 && LeftUnnamed(cfg, calls)
  {
    hide Run, Unnamed, LeftUnnamed, PlanOf;
    UnnamedIff(cfg, calls);
  }

  /** Without a recording time it never does. */
  lemma NeverReadsMissing(cfg: Config, calls: seq<Call>, call: Call)
    requires cfg.maxFrames >= 0 && cfg.cutoff.None?
    ensures !ReadsMissing(cfg, Run(cfg, Fresh(), calls), call)
  {
    UnnamedIff(cfg, calls);
    hide Run, PlanOf, Skipped, Unnames;
    forall i: nat | i < |calls| ensures !UnnamedSince(cfg, calls, i) {
      NothingCut(cfg, Run(cfg, Fresh(), calls[..i]), calls[i]);
    }
  }

  lemma NothingCut(cfg: Config, s: State, call: Call)
    requires cfg.cutoff.None?
    ensures !Unnames(cfg, s, call)
  {
    hide PlanOf;
  }

  /** A late first picture, five frames at most and two of them recorded: then the flush reads it. */
  lemma FlushReadsMissing(cfg: Config, id: int)
    requires cfg.format.Cfr? && cfg.dropThreshold == 0.0 && cfg.maxFrames == 5 && cfg.dupLimit >= 5.0
    requires cfg.cutoff == Some(2)
    ensures ReadsMissing(cfg, Run(cfg, Fresh(), [Frame(Picture(id), 10.0, 1.0)]), Flush)
  {
    var call := Frame(Picture(id), 10.0, 1.0);
    hide Run, Pictures, PlanFrame, Step;
    RunNone(cfg);
    RunOne(cfg, [], call);
    assert [] + [call] == [call];
    ElevenPlan(cfg, Fresh(), id);
    assert Unnames(cfg, Fresh(), call);
    hide PlanOf, Unnames, Skipped;
    StepUnnamed(cfg, Fresh(), call);
    StepLastNb0(cfg, Fresh(), call);
    FlushPlan(cfg, Step(cfg, Fresh(), call));
  }

  /** Eleven frames for the picture, nine of them for the one before; five are left to be encoded. */
  lemma ElevenPlan(cfg: Config, s: State, id: int)
    requires cfg.format.Cfr? && cfg.dropThreshold == 0.0 && cfg.maxFrames == 5
    requires s.syncOpts == 0 && s.frameNumber == 0
    ensures PlanOf(cfg, s, Frame(Picture(id), 10.0, 1.0)) == Plan(5, 5, 0)
  {
    assert Lrint(11.0) == 11 && Lrint(9.4) == 9;
    hide Lrint;
  }

  lemma FlushPlan(cfg: Config, s: State)
    requires s.lastNb0.1 == s.lastNb0.2 == 0 <= s.lastNb0.0 && s.frameNumber <= cfg.maxFrames
    ensures PlanOf(cfg, s, Flush).nb0 == 0
  {
  }

  lemma StepLastNb0(cfg: Config, s: State, call: Call)
    requires Bounded(cfg, s)
    ensures Step(cfg, s, call).lastNb0 == (PlanOf(cfg, s, call).nb0, s.lastNb0.0, s.lastNb0.1)
    ensures Step(cfg, s, call).frameNumber <= Max(s.frameNumber, cfg.maxFrames)
  {
    var p := PlanOf(cfg, s, call);
    PlanBounds(cfg, s, call);
    EncodeCounts(cfg, Settled(s, call, p), 0, p, NextPicture(call));
    hide PlanOf, Encode, InTime, Bounded;
  }

  predicate AllPictures(calls: seq<Call>) {
    forall k :: 0 <= k < |calls| ==> calls[k].Frame?
  }

  ghost predicate NeverSkips(cfg: Config, calls: seq<Call>) {
    forall k :: 0 <= k < |calls| ==> !Skipped(cfg, Run(cfg, Fresh(), calls[..k]), calls[k])
  }

  /** Without a recording time, and with no call skipped, nothing is lost and nothing recounted. */
  lemma {:induction false} NothingLost(cfg: Config, calls: seq<Call>)
    requires cfg.maxFrames >= 0 && cfg.cutoff.None?
    requires AllPictures(calls) && NeverSkips(cfg, calls)
    ensures Lost(cfg, Fresh(), calls) == 0 == Recounted(cfg, Fresh(), calls)
    ensures Bounded(cfg, Run(cfg, Fresh(), calls))
    ensures calls != [] ==> Run(cfg, Fresh(), calls).lastFrame.Some?
    decreases |calls|
  {
    if calls != [] {
      var n := |calls| - 1;
      var before, call := calls[..n], calls[n];
      var s := Run(cfg, Fresh(), before);
      hide Bounded, Step, Skipped, Cut, Surplus;
      NeverSkipsBefore(cfg, calls);
      NothingLost(cfg, before);
      assert !Skipped(cfg, s, call);
      assert before == [] ==> s == Fresh();
      hide NeverSkips, Fresh;
      StepComplete(cfg, s, call);
      StepBalance(cfg, s, call, 0);
    }
  }

  lemma NeverSkipsBefore(cfg: Config, calls: seq<Call>)
    requires calls != [] && NeverSkips(cfg, calls)
    ensures NeverSkips(cfg, calls[..|calls| - 1])
    ensures !Skipped(cfg, Run(cfg, Fresh(), calls[..|calls| - 1]), calls[|calls| - 1])
  {
    var before := calls[..|calls| - 1];
    forall k | 0 <= k < |before| ensures !Skipped(cfg, Run(cfg, Fresh(), before[..k]), before[k]) {
      assert before[..k] == calls[..k] && before[k] == calls[k];
    }
  }

  lemma StepComplete(cfg: Config, s: State, call: Call)
    requires Bounded(cfg, s) && cfg.cutoff.None? && !Skipped(cfg, s, call)
    requires call.Frame? || s.lastFrame.Some? || s == Fresh()
    ensures Cut(cfg, s, call) == 0 == Surplus(cfg, s, call)
    ensures Step(cfg, s, call).lastFrame == NextPicture(call)
  {
    hide PlanOf, Extra, Bounded, Fresh, Encode, Lrint;
    var p := PlanOf(cfg, s, call);
    PlanBounds(cfg, s, call);
    var settled, next := Settled(s, call, p), NextPicture(call);
    EncodeCounts(cfg, settled, 0, p, next);
    if s == Fresh() && call.Flush? {
      FreshFlush(cfg);
    }
  }

  lemma FreshFlush(cfg: Config)
    requires Bounded(cfg, Fresh())
    ensures PlanOf(cfg, Fresh(), Flush).nb == 0
  {
  }

  /**
   * For any pictures: frames encoded are pictures in, plus duplicates, minus drops, minus
   * the last picture if it was dropped and is still to be counted. The flush after them
   * counts it.
   */
  lemma FrameConservation(cfg: Config, calls: seq<Call>)
    requires cfg.maxFrames >= 0 && cfg.cutoff.None?
    requires AllPictures(calls) && NeverSkips(cfg, calls + [Flush])
    ensures var t := Run(cfg, Fresh(), calls);
            |t.encoded| == |calls| + t.dup - t.drop - One(t.lastDropped)
    ensures var t := Run(cfg, Fresh(), calls + [Flush]);
            !t.lastDropped && |t.encoded| == |calls| + t.dup - t.drop
  {
    var all := calls + [Flush];
    assert all[..|calls|] == calls;
    NeverSkipsBefore(cfg, all);
    PicturesBalance(cfg, calls);
    RunOne(cfg, calls, Flush);
    hide Step, Skipped, NeverSkips, Bounded, Run, Fresh, Cut, Surplus;
    var s := Run(cfg, Fresh(), calls);
    StepComplete(cfg, s, Flush);
    FlushForgets(cfg, s);
    StepBalance(cfg, s, Flush, |calls|);
  }

  lemma PicturesBalance(cfg: Config, calls: seq<Call>)
    requires cfg.maxFrames >= 0 && cfg.cutoff.None? && AllPictures(calls) && NeverSkips(cfg, calls)
    ensures var s := Run(cfg, Fresh(), calls);
            Bounded(cfg, s) && Balance(s, |calls|) == 0 && (s.lastFrame.Some? || s == Fresh())
  {
    hide Run, Fresh, Lost, Recounted, Pictures, Bounded;
    RunNone(cfg);
    NothingLost(cfg, calls);
    CountPictures(calls);
    RunBalance(cfg, Fresh(), calls, 0);
  }

  lemma FlushForgets(cfg: Config, s: State)
    requires Bounded(cfg, s) && !Skipped(cfg, s, Flush)
    ensures !Step(cfg, s, Flush).lastDropped
  {
    var p := PlanOf(cfg, s, Flush);
    PlanBounds(cfg, s, Flush);
    EncodeCounts(cfg, Settled(s, Flush, p), 0, p, None);
  }

  lemma {:induction false} CountPictures(calls: seq<Call>)
    requires AllPictures(calls)
    ensures Pictures(calls) == |calls|
    decreases |calls|
  {
    if calls != [] {
      CountPictures(calls[..|calls| - 1]);
    }
  }

  /** The limit on the number of frames holds over every run. */
  lemma FrameLimit(cfg: Config, calls: seq<Call>)
    requires cfg.maxFrames >= 0
    ensures |Run(cfg, Fresh(), calls).encoded| == Run(cfg, Fresh(), calls).frameNumber <= cfg.maxFrames
  {
    RunBalance(cfg, Fresh(), calls, 0);
  }

  // ---- constant frame rate -----------------------------------------------------------------

  /** When the picture of a call ends. */
  function EndTime(call: Call): (r: real)
    requires call.Frame?
  {
    call.ipts + call.duration
  }

  /** Neither the limit on the frames, nor the recording time, nor the skip comes into it. */
  predicate Unhindered(cfg: Config, s: State, call: Call) {
    && call.Frame? && cfg.cutoff.None? && !Skipped(cfg, s, call)
    && PlanFrame(cfg, s, call.ipts, call.duration).nb <= cfg.maxFrames - s.frameNumber
  }

  function Drift(s: State, end: real): (r: real) {
    end - s.syncOpts as real
  }

  function Ceiling(cfg: Config): (r: real) {
    if cfg.dropThreshold > 0.5 then cfg.dropThreshold else 0.5
  }

  /** One picture: no frame, one frame, or the number nearest to what is missing. */
  lemma StepDrift(cfg: Config, s: State, call: Call)
    requires cfg.format.Cfr? && Bounded(cfg, s) && Unhindered(cfg, s, call)
    ensures var t := Step(cfg, s, call);
            && t.syncOpts - s.syncOpts == |t.encoded| - |s.encoded| == t.frameNumber - s.frameNumber
            && Drift(t, EndTime(call)) <= Ceiling(cfg)
            && (Drift(t, EndTime(call)) >= -2.1 <==> Drift(s, EndTime(call)) >= -2.1)
  {
    var p := PlanFrame(cfg, s, call.ipts, call.duration);
    PlanBounds(cfg, s, call);
    assert PlanOf(cfg, s, call).nb == p.nb && PlanOf(cfg, s, call).syncOpts == s.syncOpts;
    EncodeCounts(cfg, Settled(s, call, PlanOf(cfg, s, call)), 0, PlanOf(cfg, s, call), NextPicture(call));
    hide Encode, PlanOf, Lrint;
  }

  ghost predicate UnhinderedRun(cfg: Config, calls: seq<Call>) {
    forall k :: 0 <= k < |calls| ==> Unhindered(cfg, Run(cfg, Fresh(), calls[..k]), calls[k])
  }

  /** The end times never fall, and the first is not more than 2.1 frames before the start. */
  predicate EndsInOrder(calls: seq<Call>) {
    && AllPictures(calls)
    && (calls != [] ==> EndTime(calls[0]) >= -2.1)
    && forall k :: 0 < k < |calls| ==> EndTime(calls[k - 1]) <= EndTime(calls[k])
  }

  /**
   * At a constant frame rate the output never runs away from the input: after every
   * picture of the run, its end and the number of frames encoded so far differ by at
   * most 2.1 one way and by 0.5 (or the drop threshold) the other.
   */
  lemma {:induction false} CfrDrift(cfg: Config, calls: seq<Call>)
    requires cfg.format.Cfr? && cfg.maxFrames >= 0 && calls != []
    requires EndsInOrder(calls) && UnhinderedRun(cfg, calls)
    ensures var t := Run(cfg, Fresh(), calls);
            && t.syncOpts == |t.encoded|
            && -2.1 <= EndTime(calls[|calls| - 1]) - |t.encoded| as real <= Ceiling(cfg)
    decreases |calls|
  {
    var n := |calls| - 1;
    var before, call := calls[..n], calls[n];
    var s := Run(cfg, Fresh(), before);
    hide *;
    EndsBefore(calls);
    RunNone(cfg);
    RunBalance(cfg, Fresh(), before, 0);
    RunOne(cfg, before, call);
    UnhinderedBefore(cfg, calls);
    if n > 0 {
      CfrDrift(cfg, before);
    }
    NextDrift(cfg, s, call, if n > 0 then EndTime(before[n - 1]) else -2.1);
  }

  /** A picture that does not end earlier than another that is within the bounds is within them too. */
  lemma NextDrift(cfg: Config, s: State, call: Call, last: real)
    requires cfg.format.Cfr? && Bounded(cfg, s) && Unhindered(cfg, s, call)
    requires s.syncOpts == |s.encoded| && Drift(s, last) >= -2.1 && EndTime(call) >= last
    ensures var t := Step(cfg, s, call);
            t.syncOpts == |t.encoded| && -2.1 <= EndTime(call) - |t.encoded| as real <= Ceiling(cfg)
  {
    hide Unhindered, Bounded, Step, Ceiling;
    StepDrift(cfg, s, call);
  }

  lemma EndsBefore(calls: seq<Call>)
    requires calls != [] && EndsInOrder(calls)
    ensures var n := |calls| - 1;
            && calls == calls[..n] + [calls[n]] && calls[n].Frame?
            && (if n == 0 then calls[..n] == [] && EndTime(calls[n]) >= -2.1
                else EndsInOrder(calls[..n]) && EndTime(calls[n - 1]) <= EndTime(calls[n]))
  {
  }

  lemma UnhinderedBefore(cfg: Config, calls: seq<Call>)
    requires calls != [] && UnhinderedRun(cfg, calls)
    ensures UnhinderedRun(cfg, calls[..|calls| - 1])
    ensures Unhindered(cfg, Run(cfg, Fresh(), calls[..|calls| - 1]), calls[|calls| - 1])
  {
    var before := calls[..|calls| - 1];
    forall k | 0 <= k < |before| ensures Unhindered(cfg, Run(cfg, Fresh(), before[..k]), before[k]) {
      assert before[..k] == calls[..k] && before[k] == calls[k];
    }
  }
}
