/**
 * Timestamps under -stream_loop (ffmpeg.c, duration_max, seek_to_start and the
 * timestamp part of process_input). Each time the input file is played again, the
 * timestamps of its packets are shifted by the greatest length seen of a stream,
 * held in that stream's time base and rounded to the time base of each other one.
 *
 * A packet's own timestamp is the one after the file's offset and the stream's
 * scale, which do not change here.
 */
module LoopTiming {
  import opened Timestamps
  import opened Wrappers

  // ---- an input file and its streams --------------------------------------------------

  /** An input stream, with what seek_to_start reads of its decoder and of the demuxer. */
  datatype Stream = Stream(
    audio: bool, sampleRate: int, timeBase: Rational,
    forcedRate: Rational, averageRate: Rational,  // frames per second, or num == 0
    nbSamples: int,                               // of the last decoded audio frame
    minPts: int, maxPts: int)
  {
    predicate Valid() {
      && timeBase.Positive()
      && nbSamples >= 0 && (nbSamples > 0 ==> sampleRate > 0)
      && forcedRate.num >= 0 && forcedRate.den > 0 && averageRate.num >= 0 && averageRate.den > 0
    }

    predicate HeardAudio() {
      audio && nbSamples != 0
    }

    /** Does seek_to_start look at this stream? */
    predicate Counted(hasAudio: bool) {
      hasAudio ==> HeardAudio()
    }

    /** The length of the last frame, in ticks. */
    function LastFrame(hasAudio: bool): (r: int)
      requires Valid() && Counted(hasAudio)
    {
      if hasAudio then Rescale(nbSamples, Rational(1, sampleRate), timeBase)
      else if forcedRate.num != 0 then Rescale(1, forcedRate.Inverse(), timeBase)
      else if averageRate.num != 0 then Rescale(1, averageRate.Inverse(), timeBase)
      else 1
    }

    /** The length of the stream so far. */
    function Length(hasAudio: bool): (r: int)
      requires Valid() && Counted(hasAudio)
    {
      LastFrame(hasAudio) + (maxPts - minPts)
    }

    /** The stream after a packet with this timestamp, shifted by the length of what was played. */
    function Seen(pts: int): (r: Stream) {
      this.(maxPts := if pts > maxPts then pts else maxPts, minPts := if pts < minPts then pts else minPts)
    }
  }

  predicate ValidStreams(streams: seq<Stream>) {
    forall i :: 0 <= i < |streams| ==> streams[i].Valid()
  }

  predicate HasAudio(streams: seq<Stream>) {
    exists i :: 0 <= i < |streams| && streams[i].HeardAudio()
  }

  /** A length of time in a time base. */
  datatype Span = Span(ticks: int, timeBase: Rational)

  /** duration_max. */
  function DurationMax(tmp: Span, duration: Span): (r: Span) {
    if duration.ticks == 0 then tmp
    else if CompareTs(duration.ticks, duration.timeBase, tmp.ticks, tmp.timeBase) < 0 then tmp
    else duration
  }

  /** The longest of the counted streams among the first n, and of what was longest before. */
  function Longest(streams: seq<Stream>, n: nat, before: Span): (r: Span)
    requires n <= |streams| && ValidStreams(streams)
  {
    if n == 0 then before
    else
      var r := Longest(streams, n - 1, before);
      var s := streams[n - 1];
      var hasAudio := HasAudio(streams);
      if s.Counted(hasAudio) then DurationMax(Span(s.Length(hasAudio), s.timeBase), r) else r
  }

  function Shifted(duration: Span, s: Stream, own: Option<int>): (r: Option<int>)
    requires duration.timeBase.Positive() && s.timeBase.Positive()
  {
    if own.Some? then Some(own.value + Rescale(duration.ticks, duration.timeBase, s.timeBase)) else None
  }

  function After(streams: seq<Stream>, i: nat, pts: Option<int>): (r: seq<Stream>)
    requires i < |streams|
  {
    if pts.Some? then streams[i := streams[i].Seen(pts.value)] else streams
  }

  // ---- playing the file again and again -------------------------------------------------

  datatype File = File(streams: seq<Stream>, duration: Span) {
    predicate Valid() {
      ValidStreams(streams) && duration.timeBase.Positive()
    }
  }

  /** One packet of a playing, or one decoded audio frame. */
  datatype Event =
    | Read(stream: nat, own: Option<int>)
    | Heard(stream: nat, samples: nat)

  /** A packet's timestamp as it goes on to the decoder or the output. */
  datatype Stamp = Stamp(stream: nat, pts: int)

  predicate Possible(f: File, e: Event) {
    e.stream < |f.streams| && (e.Heard? ==> f.streams[e.stream].sampleRate > 0)
  }

  function Play1(f: File, e: Event): (r: (File, seq<Stamp>))
    requires f.Valid() && Possible(f, e)
    ensures r.0.Valid() && r.0.duration == f.duration && SameMake(f, r.0)
  {
    match e
    case Read(i, own) =>
      var pts := Shifted(f.duration, f.streams[i], own);
      (f.(streams := After(f.streams, i, pts)), if pts.Some? then [Stamp(i, pts.value)] else [])
    case Heard(i, samples) =>
      (f.(streams := f.streams[i := f.streams[i].(nbSamples := samples)]), [])
  }

  /** The same streams, but for what has been seen of them. */
  predicate SameMake(f: File, g: File) {
    && |f.streams| == |g.streams|
    && forall i :: 0 <= i < |f.streams| ==>
         && g.streams[i].timeBase == f.streams[i].timeBase
         && g.streams[i].sampleRate == f.streams[i].sampleRate
  }

  predicate AllPossible(f: File, events: seq<Event>) {
    forall k :: 0 <= k < |events| ==> Possible(f, events[k])
  }

  /** The file after the first n events, and the timestamps that went on. */
  function Play(f: File, events: seq<Event>, n: nat): (r: (File, seq<Stamp>))
    requires n <= |events| && f.Valid() && AllPossible(f, events)
    ensures r.0.Valid() && r.0.duration == f.duration && SameMake(f, r.0)
  {
    if n == 0 then (f, [])
    else
      var (g, stamps) := Play(f, events, n - 1);
      assert Possible(f, events[n - 1]);
      var (h, more) := Play1(g, events[n - 1]);
      (h, stamps + more)
  }

  function Rewound(f: File): (g: File)
    requires f.Valid()
    ensures g.Valid() && SameMake(f, g)
  {
    LongestValid(f.streams, |f.streams|, f.duration);
    File(f.streams, Longest(f.streams, |f.streams|, f.duration))
  }

  lemma {:induction false} LongestValid(streams: seq<Stream>, n: nat, before: Span)
    requires n <= |streams| && ValidStreams(streams) && before.timeBase.Positive()
    ensures Longest(streams, n, before).timeBase.Positive()
  {
    if n > 0 {
      LongestValid(streams, n - 1, before);
    }
  }

  predicate PossibleRun(f: File, playings: seq<seq<Event>>) {
    f.Valid() && forall k :: 0 <= k < |playings| ==> AllPossible(f, playings[k])
  }

  /** The file when playing k begins. */
  function Begin(f: File, playings: seq<seq<Event>>, k: nat): (g: File)
    requires k <= |playings| && PossibleRun(f, playings)
    ensures g.Valid() && SameMake(f, g)
    decreases k, 0
  {
    if k == 0 then f else Rewound(End(f, playings, k - 1))
  }

  /** The file when playing k ends, just before seek_to_start. */
  function End(f: File, playings: seq<seq<Event>>, k: nat): (g: File)
    requires k < |playings| && PossibleRun(f, playings)
    ensures g.Valid() && SameMake(f, g)
    decreases k, 1
  {
    Play(Begin(f, playings, k), playings[k], |playings[k]|).0
  }

  /** The timestamps of playing k. */
  function Stamps(f: File, playings: seq<seq<Event>>, k: nat): (r: seq<Stamp>)
    requires k < |playings| && PossibleRun(f, playings)
  {
    Play(Begin(f, playings, k), playings[k], |playings[k]|).1
  }

  // ---- the program -----------------------------------------------------------------------

  class InputFile {
    var streams: seq<Stream>
    var duration: Span
    var loop: int

    function Contents(): (r: File)
      reads this
    {
      File(streams, duration)
    }

    predicate Valid()
      reads this
    {
      Contents().Valid()
    }

    /** The time from one playing of the file to the next becomes that of its longest stream. */
    method SeekToStart(seekOk: bool) returns (ok: bool)
      requires Valid()
      modifies this
      ensures Valid() && ok == seekOk
      ensures Contents() == if ok then Rewound(old(Contents())) else old(Contents())
      ensures loop == if ok && old(loop) > 0 then old(loop) - 1 else old(loop)
    {
      if !seekOk {
        return false;
      }
      var hasAudio := false;
      for i := 0 to |streams|
        invariant hasAudio == exists k :: 0 <= k < i && streams[k].HeardAudio()
        invariant unchanged(this)
      {
        if streams[i].audio && streams[i].nbSamples != 0 {
          hasAudio := true;
        }
      }
      for i := 0 to |streams|
        invariant Valid() && streams == old(streams) && loop == old(loop)
        invariant duration == Longest(streams, i, old(duration))
      {
        var ist := streams[i];
        var length: int;
        if hasAudio {
          if ist.audio && ist.nbSamples != 0 {
            length := Rescale(ist.nbSamples, Rational(1, ist.sampleRate), ist.timeBase);
          } else {
            continue;
          }
        } else {
          if ist.forcedRate.num != 0 {
            length := Rescale(1, ist.forcedRate.Inverse(), ist.timeBase);
          } else if ist.averageRate.num != 0 {
            length := Rescale(1, ist.averageRate.Inverse(), ist.timeBase);
          } else {
            length := 1;
          }
        }
        if duration.ticks == 0 {
          duration := duration.(timeBase := ist.timeBase);
        }
        length := length + (ist.maxPts - ist.minPts);
        duration := DurationMax(Span(length, ist.timeBase), duration);
      }
      if loop > 0 {
        loop := loop - 1;
      }
      return true;
    }

    /** A packet of stream i with its own timestamp, if it has one; gives the shifted timestamp. */
    method ProcessInput(i: nat, own: Option<int>) returns (pts: Option<int>)
      requires Valid() && i < |streams|
      modifies this`streams
      ensures Valid()
      ensures (Contents(), if pts.Some? then [Stamp(i, pts.value)] else []) == Play1(old(Contents()), Read(i, own))
    {
      var shift := Rescale(duration.ticks, duration.timeBase, streams[i].timeBase);
      pts := None;
      if own.Some? {
        pts := Some(own.value + shift);
        streams := streams[i := streams[i].Seen(pts.value)];
      }
    }

    /** decode_audio notes the number of samples of the frame. */
    method Decoded(i: nat, samples: nat)
      requires Valid() && i < |streams| && streams[i].sampleRate > 0
      modifies this`streams
      ensures Valid() && Contents() == Play1(old(Contents()), Heard(i, samples)).0
    {
      streams := streams[i := streams[i].(nbSamples := samples)];
    }
  }

  // ---- lengths and shifts in seconds --------------------------------------------------------

  /**
   * The last frame, to the nearest tick: as many samples as were decoded last, if some
   * stream has been heard; otherwise one picture at the frame rate, or one tick if it has none.
   */
  lemma LastFrameLasts(s: Stream, hasAudio: bool)
    requires s.Valid() && s.Counted(hasAudio)
    ensures hasAudio ==>
              WithinHalfTick(s.LastFrame(true), s.timeBase, s.nbSamples as real / s.sampleRate as real)
    ensures !hasAudio && s.forcedRate.num != 0 ==>
              WithinHalfTick(s.LastFrame(false), s.timeBase, s.forcedRate.den as real / s.forcedRate.num as real)
    ensures !hasAudio && s.forcedRate.num == 0 && s.averageRate.num != 0 ==>
              WithinHalfTick(s.LastFrame(false), s.timeBase, s.averageRate.den as real / s.averageRate.num as real)
    ensures !hasAudio && s.forcedRate.num == 0 && s.averageRate.num == 0 ==> s.LastFrame(false) == 1
  {
    if hasAudio {
      RescaleNearest(s.nbSamples, Rational(1, s.sampleRate), s.timeBase);
    } else if s.forcedRate.num != 0 {
      RescaleNearest(1, s.forcedRate.Inverse(), s.timeBase);
    } else if s.averageRate.num != 0 {
      RescaleNearest(1, s.averageRate.Inverse(), s.timeBase);
    }
    hide Rescale, WithinHalfTick;
  }

  /** The duration is the length of some counted stream, or the one before. */
  lemma {:induction false} LongestIsOne(streams: seq<Stream>, n: nat, before: Span)
    requires n <= |streams| && ValidStreams(streams)
    ensures var d := Longest(streams, n, before);
            || d == before
            || exists i :: 0 <= i < n && streams[i].Counted(HasAudio(streams))
                           && d == Span(streams[i].Length(HasAudio(streams)), streams[i].timeBase)
  {
    if n > 0 {
      LongestIsOne(streams, n - 1, before);
    }
  }

  /** A packet's own timestamp, if it has one. */
  function OwnStamp(e: Event): (r: seq<Stamp>) {
    if e.Read? && e.own.Some? then [Stamp(e.stream, e.own.value)] else []
  }

  function OwnStamps(events: seq<Event>, n: nat): (r: seq<Stamp>)
    requires n <= |events|
  {
    if n == 0 then [] else OwnStamps(events, n - 1) + OwnStamp(events[n - 1])
  }

  /** A timestamp that went on is the packet's own, later by the time at which the playing began. */
  predicate ShiftedStamp(f: File, own: Stamp, y: Stamp)
    requires f.Valid()
  {
    && own.stream == y.stream < |f.streams|
    && WithinHalfTick(y.pts - own.pts, f.streams[y.stream].timeBase, Seconds(f.duration.ticks, f.duration.timeBase))
  }

  ghost predicate ShiftedStamps(f: File, own: seq<Stamp>, stamps: seq<Stamp>)
    requires f.Valid()
  {
    |stamps| == |own| && forall k :: 0 <= k < |own| ==> ShiftedStamp(f, own[k], stamps[k])
  }

  lemma ShiftedMore(f: File, own: seq<Stamp>, stamps: seq<Stamp>, more: seq<Stamp>, moreStamps: seq<Stamp>)
    requires f.Valid() && ShiftedStamps(f, own, stamps) && ShiftedStamps(f, more, moreStamps)
    ensures ShiftedStamps(f, own + more, stamps + moreStamps)
  {
  }

  lemma ShiftedOne(f: File, g: File, e: Event)
    requires f.Valid() && g.Valid() && SameMake(f, g) && g.duration == f.duration && Possible(g, e)
    ensures ShiftedStamps(f, OwnStamp(e), Play1(g, e).1)
  {
    RescaleNearest(f.duration.ticks, f.duration.timeBase, f.streams[e.stream].timeBase);
    hide Rescale, WithinHalfTick, Seconds;
  }

  lemma PlayNext(f: File, events: seq<Event>, n: nat)
    requires 0 < n <= |events| && f.Valid() && AllPossible(f, events)
    ensures var g := Play(f, events, n - 1).0;
            && g.Valid() && SameMake(f, g) && g.duration == f.duration && Possible(g, events[n - 1])
            && Play(f, events, n).0 == Play1(g, events[n - 1]).0
            && Play(f, events, n).1 == Play(f, events, n - 1).1 + Play1(g, events[n - 1]).1
  {
    hide Play1;
    assert Possible(f, events[n - 1]);
  }

  /** Every packet's timestamp goes on, in order, shifted by the time at which the playing began. */
  lemma {:induction false} PlayShiftsAll(f: File, events: seq<Event>, n: nat)
    requires n <= |events| && f.Valid() && AllPossible(f, events)
    ensures ShiftedStamps(f, OwnStamps(events, n), Play(f, events, n).1)
  {
    hide *;
    if n == 0 {
      NothingShifted(f, events);
    } else {
      PlayShiftsAll(f, events, n - 1);
      PlayNext(f, events, n);
      var g, e := Play(f, events, n - 1).0, events[n - 1];
      ShiftedOne(f, g, e);
      ShiftedMore(f, OwnStamps(events, n - 1), Play(f, events, n - 1).1, OwnStamp(e), Play1(g, e).1);
      OwnNext(events, n);
    }
  }

  lemma NothingShifted(f: File, events: seq<Event>)
    requires f.Valid() && AllPossible(f, events)
    ensures ShiftedStamps(f, OwnStamps(events, 0), Play(f, events, 0).1)
  {
  }

  lemma OwnNext(events: seq<Event>, n: nat)
    requires 0 < n <= |events|
    ensures OwnStamps(events, n) == OwnStamps(events, n - 1) + OwnStamp(events[n - 1])
  {
    hide OwnStamp;
  }

  // ---- no time is played twice -----------------------------------------------------------

  /** What has been seen of a stream spans all its timestamps. */
  predicate Spans(s: Stream, pts: int) {
    s.minPts <= pts <= s.maxPts
  }

  predicate Wider(s: Stream, t: Stream) {
    t.minPts <= s.minPts && s.maxPts <= t.maxPts
  }

  /** What has been seen of stream i only grows, and spans the stream's timestamps. */
  lemma {:induction false} PlaySeen(f: File, events: seq<Event>, n: nat, i: nat)
    requires n <= |events| && f.Valid() && AllPossible(f, events) && i < |f.streams|
    ensures var (g, stamps) := Play(f, events, n);
            && Wider(f.streams[i], g.streams[i])
            && (forall x :: x in stamps && x.stream == i ==> Spans(g.streams[i], x.pts))
  {
    if n > 0 {
      PlaySeen(f, events, n - 1, i);
      assert Possible(f, events[n - 1]);
      var g, stamps := Play(f, events, n - 1).0, Play(f, events, n - 1).1;
      var h, more := Play1(g, events[n - 1]).0, Play1(g, events[n - 1]).1;
      assert Play(f, events, n) == (h, stamps + more);
      Play1Seen(g, events[n - 1], i);
      hide Wider, Spans, Play1, Rescale, Play;
      forall pts | Spans(g.streams[i], pts) ensures Spans(h.streams[i], pts) {
        WiderSpans(g.streams[i], h.streams[i], pts);
      }
      WiderWider(f.streams[i], g.streams[i], h.streams[i]);
    }
  }

  /** Every packet of stream i leaves its shifted timestamp, which the stream spans from then on. */
  lemma {:induction false} OwnSeen(f: File, events: seq<Event>, n: nat, i: nat, k: nat, own: int)
    requires k < n <= |events| && f.Valid() && AllPossible(f, events)
    requires i < |f.streams| && events[k] == Read(i, Some(own))
    ensures Spans(Play(f, events, n).0.streams[i],
                  own + Rescale(f.duration.ticks, f.duration.timeBase, f.streams[i].timeBase))
  {
    assert Possible(f, events[n - 1]);
    var g := Play(f, events, n - 1).0;
    Play1Seen(g, events[n - 1], i);
    hide Rescale;
    if k < n - 1 {
      OwnSeen(f, events, n - 1, i, k, own);
    }
  }

  lemma Play1Seen(f: File, e: Event, i: nat)
    requires f.Valid() && Possible(f, e) && i < |f.streams|
    ensures var (g, stamps) := Play1(f, e);
            && Wider(f.streams[i], g.streams[i])
            && (forall x :: x in stamps && x.stream == i ==> Spans(g.streams[i], x.pts))
            && (e.Read? && e.stream == i && e.own.Some? ==>
                  Spans(g.streams[i],
                        e.own.value + Rescale(f.duration.ticks, f.duration.timeBase, f.streams[i].timeBase)))
  {
  }

  lemma WiderSpans(s: Stream, t: Stream, pts: int)
    requires Wider(s, t) && Spans(s, pts)
    ensures Spans(t, pts)
  {
  }

  lemma WiderWider(s: Stream, t: Stream, u: Stream)
    requires Wider(s, t) && Wider(t, u)
    ensures Wider(s, u)
  {
  }

  predicate OwnAtLeast(events: seq<Event>, i: nat, least: int) {
    forall k :: 0 <= k < |events| && events[k].Read? && events[k].stream == i && events[k].own.Some? ==>
                  least <= events[k].own.value
  }

  /** Every timestamp of stream i that went on was some packet's own one, shifted. */
  lemma {:induction false} PlayShifts(f: File, events: seq<Event>, n: nat, x: Stamp, least: int)
    requires n <= |events| && f.Valid() && AllPossible(f, events)
    requires x in Play(f, events, n).1
    requires OwnAtLeast(events, x.stream, least)
    ensures x.stream < |f.streams|
    ensures x.pts >= least + Rescale(f.duration.ticks, f.duration.timeBase, f.streams[x.stream].timeBase)
  {
    if n > 0 {
      assert Possible(f, events[n - 1]);
      if x in Play(f, events, n - 1).1 {
        PlayShifts(f, events, n - 1, x, least);
      }
    }
  }

  function Time(s: Span): (r: real)
    requires s.timeBase.Positive()
  {
    Seconds(s.ticks, s.timeBase)
  }

  lemma SecondsSign(a: int, tb: Rational)
    requires tb.Positive()
    ensures Seconds(a, tb) > 0.0 <==> a > 0
    ensures Seconds(a, tb) == 0.0 <==> a == 0
  {
    if a > 0 {
      MulPositive(a, tb.num);
    } else if a < 0 {
      MulPositive(-a, tb.num);
      assert (-a) * tb.num == -(a * tb.num);
    }
  }

  lemma DurationMaxIsMax(tmp: Span, duration: Span)
    requires tmp.timeBase.Positive() && duration.timeBase.Positive()
    ensures tmp.ticks > 0 || duration.ticks != 0 ==> Time(DurationMax(tmp, duration)) >= Time(tmp)
    ensures duration.ticks > 0 ==> Time(DurationMax(tmp, duration)) >= Time(duration)
  {
    CompareIsExact(duration.ticks, duration.timeBase, tmp.ticks, tmp.timeBase);
  }

  /** seek_to_start never shortens the time, and makes it at least the length of each counted stream. */
  lemma {:induction false} LongestIsLongest(streams: seq<Stream>, n: nat, before: Span, floor: real)
    requires n <= |streams| && ValidStreams(streams) && before.timeBase.Positive() && floor > 0.0
    requires Time(before) >= floor
             || exists i :: 0 <= i < n && CountedLength(streams, i, floor)
    ensures Longest(streams, n, before).timeBase.Positive()
    ensures Time(Longest(streams, n, before)) >= floor
  {
    LongestValid(streams, n, before);
    if n > 0 {
      LongestValid(streams, n - 1, before);
      var r := Longest(streams, n - 1, before);
      var s, hasAudio := streams[n - 1], HasAudio(streams);
      if Time(before) >= floor || exists i :: 0 <= i < n - 1 && CountedLength(streams, i, floor) {
        LongestIsLongest(streams, n - 1, before, floor);
        SecondsSign(r.ticks, r.timeBase);
      }
      if s.Counted(hasAudio) {
        SecondsSign(s.Length(hasAudio), s.timeBase);
        DurationMaxIsMax(Span(s.Length(hasAudio), s.timeBase), r);
      }
    }
  }

  predicate CountedLength(streams: seq<Stream>, i: nat, floor: real)
    requires i < |streams| && ValidStreams(streams)
  {
    var hasAudio := HasAudio(streams);
    streams[i].Counted(hasAudio) && Seconds(streams[i].Length(hasAudio), streams[i].timeBase) >= floor
  }

  /** The time at which a playing begins never becomes earlier, once it is positive. */
  lemma {:induction false} TimeNeverFalls(f: File, playings: seq<seq<Event>>, k: nat, l: nat, floor: real)
    requires PossibleRun(f, playings) && k <= l <= |playings| && floor > 0.0
    requires Time(Begin(f, playings, k).duration) >= floor
    ensures Time(Begin(f, playings, l).duration) >= floor
    decreases l
  {
    hide *;
    if k < l {
      TimeNeverFalls(f, playings, k, l - 1, floor);
      TimeAfterPlaying(f, playings, l - 1, floor);
    }
  }

  lemma TimeAfterPlaying(f: File, playings: seq<seq<Event>>, k: nat, floor: real)
    requires PossibleRun(f, playings) && k < |playings| && floor > 0.0
    requires Time(Begin(f, playings, k).duration) >= floor
    ensures Time(Begin(f, playings, k + 1).duration) >= floor
  {
    var g := End(f, playings, k);
    assert g.duration == Begin(f, playings, k).duration && Begin(f, playings, k + 1) == Rewound(g);
    hide Begin, End;
    RewoundNotBefore(g, floor);
  }

  lemma RewoundNotBefore(g: File, floor: real)
    requires g.Valid() && floor > 0.0 && Time(g.duration) >= floor
    ensures Time(Rewound(g).duration) >= floor
  {
    hide Longest, Seconds;
    LongestIsLongest(g.streams, |g.streams|, g.duration, floor);
  }

  /** The first playing is not shifted, so that what is seen of stream i begins no later than its least timestamp. */
  lemma {:induction false} LeastIsSeen(f: File, playings: seq<seq<Event>>, k: nat, i: nat, least: int)
    requires PossibleRun(f, playings) && k < |playings| && i < |f.streams|
    requires f.duration.ticks == 0 && Read(i, Some(least)) in playings[0]
    ensures Spans(End(f, playings, k).streams[i], least)
  {
    var events := playings[k];
    if k == 0 {
      LeastIsSeenFirst(f, events, i, least);
    } else {
      hide Begin, End, Spans;
      LeastIsSeen(f, playings, k - 1, i, least);
      StillSpanned(f, playings, k, i, least);
    }
  }

  /** What was spanned after a playing is spanned after the next. */
  lemma StillSpanned(f: File, playings: seq<seq<Event>>, k: nat, i: nat, pts: int)
    requires PossibleRun(f, playings) && 0 < k < |playings| && i < |f.streams|
    requires Spans(End(f, playings, k - 1).streams[i], pts)
    ensures Spans(End(f, playings, k).streams[i], pts)
  {
    PlaySeen(Begin(f, playings, k), playings[k], |playings[k]|, i);
    hide Play, Longest, Wider, Spans;
    WiderSpans(End(f, playings, k - 1).streams[i], End(f, playings, k).streams[i], pts);
  }

  lemma LeastIsSeenFirst(f: File, events: seq<Event>, i: nat, least: int)
    requires f.Valid() && AllPossible(f, events) && i < |f.streams|
    requires f.duration.ticks == 0 && Read(i, Some(least)) in events
    ensures Spans(Play(f, events, |events|).0.streams[i], least)
  {
    assert Rescale(0, f.duration.timeBase, f.streams[i].timeBase) == 0;
    hide Play, Rescale, Spans;
    var m :| 0 <= m < |events| && events[m] == Read(i, Some(least));
    OwnSeen(f, events, |events|, i, m, least);
  }

  /**
   * Take a stream that seek_to_start counts after playing k, with a last frame of at
   * least one tick, and least the smallest of its own timestamps. Then all its
   * timestamps in every later playing are greater than all those of playing k,
   * whatever the time bases of the other streams and however long they are.
   */
  lemma LoopsInOrder(f: File, playings: seq<seq<Event>>, k: nat, l: nat, i: nat, least: int, x: Stamp, y: Stamp)
    requires PossibleRun(f, playings) && k < l < |playings| && i < |f.streams|
    requires f.duration.ticks == 0 && Read(i, Some(least)) in playings[0]
    requires OwnAtLeast(playings[l], i, least)
    requires var streams := End(f, playings, k).streams;
             streams[i].Counted(HasAudio(streams)) && streams[i].LastFrame(HasAudio(streams)) >= 1
    requires x in Stamps(f, playings, k) && x.stream == i
    requires y in Stamps(f, playings, l) && y.stream == i
    ensures x.pts < y.pts
  {
    var streams := End(f, playings, k).streams;
    var s := streams[i];
    var length := s.Length(HasAudio(streams));
    LeastIsSeen(f, playings, k, i, least);
    StampsSpanned(f, playings, k, x);
    ShiftedByLength(f, playings, k, l, i);
    StampsShifted(f, playings, l, y, least);
    hide PossibleRun, OwnAtLeast, HasAudio, Rescale, Begin, End, Stamps;
    assert length >= 1 + (s.maxPts - s.minPts);
  }

  lemma StampsSpanned(f: File, playings: seq<seq<Event>>, k: nat, x: Stamp)
    requires PossibleRun(f, playings) && k < |playings| && x in Stamps(f, playings, k) && x.stream < |f.streams|
    ensures Spans(End(f, playings, k).streams[x.stream], x.pts)
  {
    PlaySeen(Begin(f, playings, k), playings[k], |playings[k]|, x.stream);
  }

  function Shift(f: File, playings: seq<seq<Event>>, l: nat, i: nat): (r: int)
    requires PossibleRun(f, playings) && l <= |playings| && i < |f.streams|
  {
    var d := Begin(f, playings, l).duration;
    Rescale(d.ticks, d.timeBase, f.streams[i].timeBase)
  }

  lemma StampsShifted(f: File, playings: seq<seq<Event>>, l: nat, y: Stamp, least: int)
    requires PossibleRun(f, playings) && l < |playings| && y in Stamps(f, playings, l) && y.stream < |f.streams|
    requires OwnAtLeast(playings[l], y.stream, least)
    ensures y.pts >= least + Shift(f, playings, l, y.stream)
  {
    PlayShifts(Begin(f, playings, l), playings[l], |playings[l]|, y, least);
  }

  /** Over every run: each packet of a playing goes on, in order, shifted by the time at which the playing begins. */
  lemma AllShifted(f: File, playings: seq<seq<Event>>, l: nat)
    requires PossibleRun(f, playings) && l < |playings|
    ensures ShiftedStamps(Begin(f, playings, l), OwnStamps(playings[l], |playings[l]|), Stamps(f, playings, l))
  {
    hide Begin, ShiftedStamps, Play;
    PlayShiftsAll(Begin(f, playings, l), playings[l], |playings[l]|);
  }

  /** From the seek after playing k on, stream i is shifted by at least its length at that seek. */
  lemma ShiftedByLength(f: File, playings: seq<seq<Event>>, k: nat, l: nat, i: nat)
    requires PossibleRun(f, playings) && k < l <= |playings| && i < |f.streams|
    requires var streams := End(f, playings, k).streams;
             streams[i].Counted(HasAudio(streams)) && streams[i].Length(HasAudio(streams)) > 0
    ensures var streams := End(f, playings, k).streams;
            Shift(f, playings, l, i) >= streams[i].Length(HasAudio(streams))
  {
    var g := End(f, playings, k);
    var s := g.streams[i];
    var length := s.Length(HasAudio(g.streams));
    var floor := Seconds(length, s.timeBase);
    SecondsSign(length, s.timeBase);
    assert CountedLength(g.streams, i, floor);
    LongestIsLongest(g.streams, |g.streams|, g.duration, floor);
    assert Begin(f, playings, k + 1) == Rewound(g);
    TimeNeverFalls(f, playings, k + 1, l, floor);
    var d := Begin(f, playings, l).duration;
    RescaleAtLeast(d.ticks, d.timeBase, length, s.timeBase);
  }

  /** What has been seen of stream i reaches from one of its timestamps to one, or to the bounds it began with. */
  lemma {:induction false} PlayReaches(f: File, events: seq<Event>, n: nat, i: nat)
    requires n <= |events| && f.Valid() && AllPossible(f, events) && i < |f.streams|
    ensures var (g, stamps) := Play(f, events, n);
            && (g.streams[i].maxPts == f.streams[i].maxPts || Stamp(i, g.streams[i].maxPts) in stamps)
            && (g.streams[i].minPts == f.streams[i].minPts || Stamp(i, g.streams[i].minPts) in stamps)
  {
    if n > 0 {
      PlayReaches(f, events, n - 1, i);
      PlayNext(f, events, n);
      Play1Reaches(Play(f, events, n - 1).0, events[n - 1], i);
      hide Play, Play1;
    }
  }

  lemma Play1Reaches(f: File, e: Event, i: nat)
    requires f.Valid() && Possible(f, e) && i < |f.streams|
    ensures var (g, stamps) := Play1(f, e);
            && (g.streams[i].maxPts == f.streams[i].maxPts || Stamp(i, g.streams[i].maxPts) in stamps)
            && (g.streams[i].minPts == f.streams[i].minPts || Stamp(i, g.streams[i].minPts) in stamps)
  {
  }

  /** Going back to the start does not change what has been seen. */
  lemma BeginKeeps(f: File, playings: seq<seq<Event>>, k: nat)
    requires PossibleRun(f, playings) && k <= |playings|
    ensures Begin(f, playings, k).streams == if k == 0 then f.streams else End(f, playings, k - 1).streams
  {
    hide Longest, End;
  }

  /** After playing k the greatest timestamp of stream i is one of an earlier playing, or of this one. */
  lemma {:induction false} GreatestPlayed(f: File, playings: seq<seq<Event>>, k: nat, i: nat) returns (j: nat)
    requires PossibleRun(f, playings) && k < |playings| && i < |f.streams|
    requires End(f, playings, k).streams[i].maxPts > f.streams[i].maxPts
    ensures j <= k && Stamp(i, End(f, playings, k).streams[i].maxPts) in Stamps(f, playings, j)
  {
    hide *;
    PlayedHere(f, playings, k, i);
    if Stamp(i, End(f, playings, k).streams[i].maxPts) in Stamps(f, playings, k) {
      j := k;
    } else {
      j := GreatestPlayed(f, playings, k - 1, i);
    }
  }

  lemma PlayedHere(f: File, playings: seq<seq<Event>>, k: nat, i: nat)
    requires PossibleRun(f, playings) && k < |playings| && i < |f.streams|
    ensures |End(f, playings, k).streams| == |f.streams| && (k > 0 ==> |End(f, playings, k - 1).streams| == |f.streams|)
    ensures var greatest := End(f, playings, k).streams[i].maxPts;
            || Stamp(i, greatest) in Stamps(f, playings, k)
            || greatest == if k == 0 then f.streams[i].maxPts else End(f, playings, k - 1).streams[i].maxPts
  {
    PlayReaches(Begin(f, playings, k), playings[k], |playings[k]|, i);
    BeginKeeps(f, playings, k);
    hide Play, Begin;
  }

  /** A packet's timestamp goes on, shifted. */
  lemma {:induction false} PlayStamps(f: File, events: seq<Event>, n: nat, k: nat)
    requires k < n <= |events| && f.Valid() && AllPossible(f, events) && events[k].Read? && events[k].own.Some?
    ensures var i := events[k].stream;
            && i < |f.streams|
            && Stamp(i, events[k].own.value + Rescale(f.duration.ticks, f.duration.timeBase, f.streams[i].timeBase))
               in Play(f, events, n).1
  {
    assert Possible(f, events[n - 1]) && Possible(f, events[k]);
    hide Rescale;
    if k < n - 1 {
      PlayStamps(f, events, n - 1, k);
    }
  }

  /** All timestamps of stream i up to playing k are less than all those of the next playing. */
  ghost predicate NextInOrder(f: File, playings: seq<seq<Event>>, k: nat, i: nat)
    requires PossibleRun(f, playings) && k + 1 < |playings|
  {
    forall j: nat, x, y | j <= k && x in Stamps(f, playings, j) && y in Stamps(f, playings, k + 1) ::
      x.stream == y.stream == i ==> x.pts < y.pts
  }

  /** All timestamps up to playing k are in what was seen of their stream. */
  lemma {:induction false} EarlierSpanned(f: File, playings: seq<seq<Event>>, j: nat, k: nat, x: Stamp)
    requires PossibleRun(f, playings) && j <= k < |playings| && x in Stamps(f, playings, j) && x.stream < |f.streams|
    ensures Spans(End(f, playings, k).streams[x.stream], x.pts)
    decreases k
  {
    hide Begin, End, Stamps, Spans;
    if j == k {
      StampsSpanned(f, playings, k, x);
    } else {
      EarlierSpanned(f, playings, j, k - 1, x);
      StillSpanned(f, playings, k, x.stream, x.pts);
    }
  }

  /**
   * Take a stream of which a timestamp has been seen by playing k, and whose next playing
   * begins where its first began. The next playing is in order exactly if the shift is
   * more than the distance of the greatest timestamp from the least.
   */
  lemma NextInOrderIff(f: File, playings: seq<seq<Event>>, k: nat, i: nat)
    requires PossibleRun(f, playings) && k + 1 < |playings| && i < |f.streams|
    requires var s := End(f, playings, k).streams[i];
             && s.maxPts > f.streams[i].maxPts
             && OwnAtLeast(playings[k + 1], i, s.minPts) && Read(i, Some(s.minPts)) in playings[k + 1]
    ensures var s := End(f, playings, k).streams[i];
            NextInOrder(f, playings, k, i) <==> Shift(f, playings, k + 1, i) >= s.maxPts - s.minPts + 1
  {
    var s := End(f, playings, k).streams[i];
    var shift := Shift(f, playings, k + 1, i);
    var j := GreatestPlayed(f, playings, k, i);
    var y := LeastAgain(f, playings, k + 1, i, s.minPts);
    hide PossibleRun, Begin, End, Stamps, Shift, OwnAtLeast;
    if NextInOrder(f, playings, k, i) {
      assert Stamp(i, s.maxPts).pts < y.pts;
    }
    forall j: nat, x, y | j <= k && x in Stamps(f, playings, j) && y in Stamps(f, playings, k + 1) &&
                          x.stream == y.stream == i && shift >= s.maxPts - s.minPts + 1
      ensures x.pts < y.pts
    {
      EarlierSpanned(f, playings, j, k, x);
      StampsShifted(f, playings, k + 1, y, s.minPts);
    }
  }

  /** A packet with the least own timestamp leaves the shifted one. */
  lemma LeastAgain(f: File, playings: seq<seq<Event>>, l: nat, i: nat, own: int) returns (y: Stamp)
    requires PossibleRun(f, playings) && l < |playings| && i < |f.streams| && Read(i, Some(own)) in playings[l]
    ensures y in Stamps(f, playings, l) && y == Stamp(i, own + Shift(f, playings, l, i))
  {
    var m: nat :| m < |playings[l]| && playings[l][m] == Read(i, Some(own));
    y := Stamp(i, own + Shift(f, playings, l, i));
    hide Begin, Play;
    PlayStamps(Begin(f, playings, l), playings[l], |playings[l]|, m);
  }

  /** For a stream whose length is the longest: exactly if its last frame is at least one tick long. */
  lemma LongestInOrderIff(f: File, playings: seq<seq<Event>>, k: nat, i: nat)
    requires PossibleRun(f, playings) && k + 1 < |playings| && i < |f.streams|
    requires var g := End(f, playings, k);
             var s := g.streams[i];
             && s.maxPts > f.streams[i].maxPts
             && OwnAtLeast(playings[k + 1], i, s.minPts) && Read(i, Some(s.minPts)) in playings[k + 1]
             && s.Counted(HasAudio(g.streams))
             && Begin(f, playings, k + 1).duration == Span(s.Length(HasAudio(g.streams)), s.timeBase)
    ensures var g := End(f, playings, k);
            NextInOrder(f, playings, k, i) <==> g.streams[i].LastFrame(HasAudio(g.streams)) >= 1
  {
    var g := End(f, playings, k);
    assert Begin(f, playings, k + 1) == Rewound(g);
    NextInOrderIff(f, playings, k, i);
    LongestIsGapless(g, i);
  }

  lemma ZeroTicks(from: Rational, to: Rational)
    requires from.Positive() && to.Positive()
    ensures Rescale(0, from, to) == 0
  {
    MulPositive(to.num, from.den);
  }

  lemma PlayOne(f: File, events: seq<Event>)
    requires f.Valid() && |events| == 1 && Possible(f, events[0])
    ensures AllPossible(f, events) && Play(f, events, |events|) == Play1(f, events[0])
  {
    hide Play1;
    assert Play(f, events, 0) == (f, []);
    var (h, more) := Play1(f, events[0]);
    assert [] + more == more;
  }

  lemma OneRead(f: File, own: int)
    requires f.Valid() && |f.streams| == 1
    ensures var events := [Read(0, Some(own))];
            var pts := own + Rescale(f.duration.ticks, f.duration.timeBase, f.streams[0].timeBase);
            && AllPossible(f, events)
            && Play(f, events, |events|) == (f.(streams := [f.streams[0].Seen(pts)]), [Stamp(0, pts)])
  {
    hide Play, Rescale;
    var pts := own + Rescale(f.duration.ticks, f.duration.timeBase, f.streams[0].timeBase);
    PlayOne(f, [Read(0, Some(own))]);
    assert f.streams[0 := f.streams[0].Seen(pts)] == [f.streams[0].Seen(pts)];
  }

  /** The only stream has no length, and so the file none. */
  lemma NothingPlayed(f: File)
    requires f.Valid() && |f.streams| == 1 && f.duration.ticks == 0 && f.streams[0].HeardAudio()
    requires f.streams[0].Length(true) == 0
    ensures Rewound(f) == f.(duration := Span(0, f.streams[0].timeBase))
  {
    assert Longest(f.streams, 0, f.duration) == f.duration;
    assert HasAudio(f.streams);
  }

  /** Where one packet leaves its stream without length, playing it again repeats its timestamp. */
  lemma SecondRepeats(f: File, own: int)
    requires f.Valid() && |f.streams| == 1 && f.duration.ticks == 0 && f.streams[0].HeardAudio()
    requires f.streams[0].Seen(own).Length(true) == 0
    ensures var playings := [[Read(0, Some(own))], [Read(0, Some(own))]];
            && PossibleRun(f, playings)
            && Stamps(f, playings, 0) == Stamps(f, playings, 1) == [Stamp(0, own)]
            && !NextInOrder(f, playings, 0, 0)
  {
    var playings := [[Read(0, Some(own))], [Read(0, Some(own))]];
    ZeroTicks(f.duration.timeBase, f.streams[0].timeBase);
    OneRead(f, own);
    var g := f.(streams := [f.streams[0].Seen(own)]);
    assert End(f, playings, 0) == g;
    NothingPlayed(g);
    var h := g.(duration := Span(0, g.streams[0].timeBase));
    assert Begin(f, playings, 1) == h;
    ZeroTicks(h.duration.timeBase, h.streams[0].timeBase);
    OneRead(h, own);
    hide Play, Rewound, Rescale;
    var x := Stamp(0, own);
    assert x in Stamps(f, playings, 0) && x in Stamps(f, playings, 1);
  }

  /** A last frame of one sample at 48000 per second counts for no millisecond: the next playing is not in order. */
  lemma ZeroLengthRepeats(least: int)
    requires -0x8000_0000_0000_0000 < least < 0x7fff_ffff_ffff_ffff
    ensures var tb, none := Rational(1, 1000), Rational(0, 1);
            var s := Stream(true, 48000, tb, none, none, 1, 0x7fff_ffff_ffff_ffff, -0x8000_0000_0000_0000);
            var f := File([s], Span(0, Rational(1, 1)));
            var playings := [[Read(0, Some(least))], [Read(0, Some(least))]];
            && PossibleRun(f, playings)
            && Stamps(f, playings, 0) == Stamps(f, playings, 1) == [Stamp(0, least)]
            && !NextInOrder(f, playings, 0, 0)
  {
    var tb, none := Rational(1, 1000), Rational(0, 1);
    var s := Stream(true, 48000, tb, none, none, 1, 0x7fff_ffff_ffff_ffff, -0x8000_0000_0000_0000);
    hide Play, Rewound, NextInOrder;
    assert s.Seen(least).Length(true) == 0;
    SecondRepeats(File([s], Span(0, Rational(1, 1))), least);
  }

  /** Where the stream's own length was the longest, the next playing begins right after its last frame. */
  lemma LongestIsGapless(f: File, i: nat)
    requires f.Valid() && i < |f.streams| && f.streams[i].Counted(HasAudio(f.streams))
    requires var s := f.streams[i];
             Rewound(f).duration == Span(s.Length(HasAudio(f.streams)), s.timeBase)
    ensures var s := f.streams[i];
            var d := Rewound(f).duration;
            && Rescale(d.ticks, d.timeBase, s.timeBase) == s.Length(HasAudio(f.streams))
            && Shifted(d, s, Some(s.minPts)) == Some(s.maxPts + s.LastFrame(HasAudio(f.streams)))
  {
    var s := f.streams[i];
    RescaleSame(s.Length(HasAudio(f.streams)), s.timeBase);
  }

  lemma RescaleSame(a: int, tb: Rational)
    requires tb.Positive()
    ensures Rescale(a, tb, tb) == a
  {
    MulPositive(tb.num, tb.den);
    RoundDivAtLeast(a * (tb.num * tb.den), tb.num * tb.den, a);
    RoundDivAtLeast(-a * (tb.num * tb.den), tb.num * tb.den, -a);
    RoundDivOdd(a, tb.num * tb.den);
  }

  lemma RoundDivOdd(a: int, c: int)
    requires c > 0
    ensures RoundDiv(-a * c, c) == -RoundDiv(a * c, c)
  {
    assert -a * c == -(a * c);
  }
}
