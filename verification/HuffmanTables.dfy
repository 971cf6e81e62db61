/**
 * read_huffman_tables of the 4X Movie decoder (4xm.c): reading the frequency
 * table, growing the tree in flat arrays and walking it to emit the code table,
 * and what the resulting table promises to the variable-length decoder.
 */
module HuffmanTables {
  import opened Arithmetic
  import opened Binary
  import opened Sums
  import opened Wrappers
  import opened HuffmanLengths
  import opened HuffmanTree
  import opened Vlc
  import VlcBuild

  // ---- reading the frequency table -------------------------------------------

  datatype Segments = Segments(freq: seq<int>, ptr: nat)

  /** Bytes past the end are padding; a read there never decides anything. */
  function ByteAt(buf: seq<byte>, i: nat): (r: byte) {
    if i < |buf| then buf[i] else 0
  }

  function SegmentSize(start: byte, end: byte): (n: nat)
    ensures start + n <= 256
  {
    if end >= start then (end as int) - start + 1 else 0
  }

  /** The frequencies once the segments from `ptr` on are read; the first covers start..end. */
  function ParseSegments(buf: seq<byte>, ptr: nat, start: byte, end: byte, freq: seq<int>): (r: Option<Segments>)
    requires |freq| == NODES
    ensures r.Some? ==> |r.value.freq| == NODES
    decreases if ptr <= |buf| then |buf| + 1 - ptr else 0
  {
    var n := SegmentSize(start, end);
    if |buf| - ptr < n + 1 then None
    else
      var freq' := freq[..start] + buf[ptr..ptr + n] + freq[start + n..];
      var next := buf[ptr + n];
      if next == 0 then Some(Segments(freq', ptr + n + 1))
      else ParseSegments(buf, ptr + n + 2, next, ByteAt(buf, ptr + n + 1), freq')
  }

  /** Up to three more bytes, to a multiple of four. */
  function Aligned(ptr: nat): (r: nat) {
    (ptr + 3) / 4 * 4
  }

  /** The frequencies a buffer holds, and where the data after them starts. */
  function ParseTable(buf: seq<byte>): (r: Option<Segments>)
  {
    match ParseSegments(buf, 2, ByteAt(buf, 0), ByteAt(buf, 1), seq(NODES, _ => 0))
    case None => None
    case Some(t) =>
      if Aligned(t.ptr) > |buf| then None else Some(Segments(t.freq[256 := 1], Aligned(t.ptr)))
  }

  ghost predicate ByteFrequencies(freq: seq<int>) {
    && |freq| == NODES
    && (forall i :: 0 <= i < 256 ==> 0 <= freq[i] < 256)
    && (forall i :: 256 <= i < NODES ==> freq[i] == 0)
  }

  lemma {:induction false} SegmentsAreBytes(buf: seq<byte>, ptr: nat, start: byte, end: byte, freq: seq<int>)
    requires ByteFrequencies(freq)
    ensures var r := ParseSegments(buf, ptr, start, end, freq); r.Some? ==> ByteFrequencies(r.value.freq)
    decreases if ptr <= |buf| then |buf| + 1 - ptr else 0
  {
    var n := SegmentSize(start, end);
    if |buf| - ptr >= n + 1 {
      var freq' := freq[..start] + buf[ptr..ptr + n] + freq[start + n..];
      assert ByteFrequencies(freq');
      if buf[ptr + n] != 0 {
        SegmentsAreBytes(buf, ptr + n + 2, buf[ptr + n], ByteAt(buf, ptr + n + 1), freq');
      }
    }
  }

  /** The encoder's side: one segment for all 256 symbols. */
  function PrintTable(symbols: seq<byte>): (r: seq<byte>) {
    [0, 255] + symbols + [0, 0]
  }

  /** Every table of 256 byte frequencies can be transmitted. */
  lemma PrintedTableRead(symbols: seq<byte>, rest: seq<byte>)
    requires |symbols| == 256
    ensures ParseTable(PrintTable(symbols) + rest)
         == Some(Segments(symbols + [1] + seq(NODES - SYMBOLS, _ => 0), 260))
  {
    var buf := PrintTable(symbols) + rest;
    var zero := seq(NODES, _ => 0);
    assert buf[2..2 + 256] == symbols;
    var freq := zero[..0] + symbols + zero[256..];
    assert ParseSegments(buf, 2, 0, 255, zero) == Some(Segments(freq, 259));
    assert freq[256 := 1] == symbols + [1] + seq(NODES - SYMBOLS, _ => 0);
  }

  /** One segment of a header: the frequencies start to end, or none if end is before start. */
  datatype Segment = Segment(start: byte, end: byte, bytes: seq<byte>) {
    predicate Valid() {
      |bytes| == if start <= end then end - start + 1 else 0
    }

    predicate Covers(symbol: int) {
      start <= symbol <= end
    }
  }

  ghost predicate AllValid(ss: seq<Segment>) {
    forall k :: 0 <= k < |ss| ==> ss[k].Valid()
  }

  /** At least one segment; a start of 0 ends the header, except for the first. */
  ghost predicate ValidSegments(ss: seq<Segment>) {
    ss != [] && AllValid(ss) && forall k :: 0 < k < |ss| ==> ss[k].start != 0
  }

  function PrintSegments(ss: seq<Segment>): (r: seq<byte>) {
    if ss == [] then [0] else [ss[0].start, ss[0].end] + ss[0].bytes + PrintSegments(ss[1..])
  }

  /** The buffer goes on with these segments. */
  ghost predicate Stand(buf: seq<byte>, from: nat, ss: seq<Segment>) {
    from <= |buf| && PrintSegments(ss) <= buf[from..]
  }

  /** Segment k is the last one that covers the symbol. */
  ghost predicate LastCover(ss: seq<Segment>, k: int, symbol: int) {
    0 <= k < |ss| && ss[k].Covers(symbol) && forall m :: k < m < |ss| ==> !ss[m].Covers(symbol)
  }

  /** Each symbol has the byte of the last segment that covers it, or what it had if there is none. */
  ghost predicate LastCovers(ss: seq<Segment>, was: seq<int>, freq: seq<int>)
    requires |was| == |freq| && AllValid(ss)
  {
    forall i :: 0 <= i < |freq| ==>
      && ((forall k :: 0 <= k < |ss| ==> !ss[k].Covers(i)) ==> freq[i] == was[i])
      && (forall k :: LastCover(ss, k, i) ==> freq[i] == ss[k].bytes[i - ss[k].start])
  }

  function Overwrite(freq: seq<int>, s: Segment): (r: seq<int>)
    requires |freq| == NODES && s.Valid()
    ensures |r| == NODES
  {
    freq[..s.start] + s.bytes + freq[s.start + |s.bytes|..]
  }

  lemma OverwriteCovers(ss: seq<Segment>, was: seq<int>, freq: seq<int>)
    requires ss != [] && |was| == |freq| == NODES && AllValid(ss) && AllValid(ss[1..])
    requires LastCovers(ss[1..], Overwrite(was, ss[0]), freq)
    ensures LastCovers(ss, was, freq)
  {
    var rest, next := ss[1..], Overwrite(was, ss[0]);
    forall i | 0 <= i < |freq|
      ensures (forall k :: 0 <= k < |ss| ==> !ss[k].Covers(i)) ==> freq[i] == was[i]
      ensures forall k :: LastCover(ss, k, i) ==> freq[i] == ss[k].bytes[i - ss[k].start]
    {
      assert forall k :: 0 < k < |ss| ==> ss[k] == rest[k - 1];
      assert forall k :: 0 <= k < |rest| ==> rest[k] == ss[k + 1];
      assert next[i] == if ss[0].Covers(i) then ss[0].bytes[i - ss[0].start] else was[i];
      forall k | LastCover(ss, k, i) ensures freq[i] == ss[k].bytes[i - ss[k].start] {
        if k > 0 {
          assert LastCover(rest, k - 1, i);
        }
      }
    }
  }

  lemma NothingCovers(freq: seq<int>)
    ensures |PrintSegments([])| == 1 && AllValid([]) && LastCovers([], freq, freq)
  {
  }

  lemma SegmentsAfter(ss: seq<Segment>)
    requires ValidSegments(ss)
    ensures ss != [] && ss[0].Valid() && AllValid(ss) && AllValid(ss[1..])
    ensures |ss| > 1 ==> ValidSegments(ss[1..]) && ss[1].start != 0 && ss[1..][0] == ss[1]
  {
  }

  /** Segments that stand in a buffer are parsed one after the other. */
  lemma {:induction false} SegmentsParsed(buf: seq<byte>, ptr: nat, ss: seq<Segment>, was: seq<int>)
    returns (freq: seq<int>)
    requires ValidSegments(ss) && AllValid(ss) && |was| == NODES && 2 <= ptr && Stand(buf, ptr - 2, ss)
    ensures |freq| == NODES && LastCovers(ss, was, freq)
    ensures ParseSegments(buf, ptr, ss[0].start, ss[0].end, was)
         == Some(Segments(freq, ptr - 2 + |PrintSegments(ss)|))
    decreases |ss|
  {
    hide *;
    SegmentsAfter(ss);
    var n, next := |ss[0].bytes|, Overwrite(was, ss[0]);
    FirstParsed(buf, ptr, ss, was);
    if |ss| == 1 {
      NothingCovers(next);
      assert ss[1..] == [];
      freq := next;
    } else {
      freq := SegmentsParsed(buf, ptr + n + 2, ss[1..], next);
    }
    OverwriteCovers(ss, was, freq);
  }

  lemma FirstParsed(buf: seq<byte>, ptr: nat, ss: seq<Segment>, was: seq<int>)
    requires ValidSegments(ss) && |ss| >= 1 && ss[0].Valid() && |was| == NODES && 2 <= ptr && Stand(buf, ptr - 2, ss)
    ensures var s, n := ss[0], |ss[0].bytes|;
            && |PrintSegments(ss)| == n + 2 + |PrintSegments(ss[1..])| && Stand(buf, ptr + n, ss[1..])
            && ParseSegments(buf, ptr, s.start, s.end, was)
               == (if |ss| == 1 then Some(Segments(Overwrite(was, s), ptr + n + 1))
                   else ParseSegments(buf, ptr + n + 2, ss[1].start, ss[1].end, Overwrite(was, s)))
  {
    hide *;
    SegmentsAfter(ss);
    FirstPrinted(buf, ptr, ss);
    NextPrinted(buf, ptr + |ss[0].bytes|, ss[1..]);
    SegmentParsed(buf, ptr, ss[0], was, if |ss| == 1 then None else Some(ss[1]));
  }

  lemma SegmentParsed(buf: seq<byte>, ptr: nat, s: Segment, was: seq<int>, next: Option<Segment>)
    requires s.Valid() && |was| == NODES && ptr + |s.bytes| < |buf| && buf[ptr..ptr + |s.bytes|] == s.bytes
    requires buf[ptr + |s.bytes|] == if next.None? then 0 else next.value.start
    requires next.Some? ==>
               next.value.start != 0 && ptr + |s.bytes| + 1 < |buf| && buf[ptr + |s.bytes| + 1] == next.value.end
    ensures ParseSegments(buf, ptr, s.start, s.end, was)
         == (if next.None? then Some(Segments(Overwrite(was, s), ptr + |s.bytes| + 1))
             else ParseSegments(buf, ptr + |s.bytes| + 2, next.value.start, next.value.end, Overwrite(was, s)))
  {
  }

  lemma FirstPrinted(buf: seq<byte>, ptr: nat, ss: seq<Segment>)
    requires ss != [] && 2 <= ptr && Stand(buf, ptr - 2, ss)
    ensures var n := |ss[0].bytes|;
            && |PrintSegments(ss)| == n + 2 + |PrintSegments(ss[1..])|
            && ptr + n <= |buf| && buf[ptr..ptr + n] == ss[0].bytes
            && Stand(buf, ptr + n, ss[1..])
  {
    var s, n, after := ss[0], |ss[0].bytes|, PrintSegments(ss[1..]);
    var printed, tail := PrintSegments(ss), buf[ptr - 2..];
    assert printed == [s.start, s.end] + s.bytes + after;
    hide PrintSegments;
    assert printed[2..2 + n] == s.bytes && printed[2 + n..] == after;
    assert tail[2..2 + n] == printed[2..2 + n] && tail[2 + n..2 + n + |after|] == printed[2 + n..];
    assert tail[2..2 + n] == buf[ptr..ptr + n] && tail[2 + n..] == buf[ptr + n..];
  }

  lemma NextPrinted(buf: seq<byte>, from: nat, ss: seq<Segment>)
    requires Stand(buf, from, ss)
    ensures from < |buf| && buf[from] == if ss == [] then 0 else ss[0].start
    ensures ss != [] ==> from + 1 < |buf| && buf[from + 1] == ss[0].end
  {
    var printed := PrintSegments(ss);
    assert buf[from] == buf[from..][0] == printed[0];
    if ss != [] {
      assert buf[from + 1] == buf[from..][1] == printed[1];
    }
  }

  /**
   * Any segments, printed, are read back: each symbol gets the byte of the last segment
   * that covers it, and 0 where there is none, and the data goes on at the next multiple of
   * four; reading fails exactly if the buffer ends before.
   */
  lemma PrintedSegmentsRead(ss: seq<Segment>, rest: seq<byte>, ptr: nat)
    requires ValidSegments(ss) && AllValid(ss)
    requires ptr % 4 == 0 && |PrintSegments(ss)| <= ptr < |PrintSegments(ss)| + 4
    ensures var buf := PrintSegments(ss) + rest;
            var r := ParseTable(buf);
            && (r.Some? <==> ptr <= |buf|)
            && (r.Some? ==> && r.value.ptr == ptr && |r.value.freq| == NODES
                            && r.value.freq[256] == 1 && (forall i :: 257 <= i < NODES ==> r.value.freq[i] == 0)
                            && LastCovers(ss, seq(256, _ => 0), r.value.freq[..256]))
  {
    var printed := PrintSegments(ss);
    var buf, zero := printed + rest, seq(NODES, _ => 0);
    assert buf[0..] == buf && Stand(buf, 2 - 2, ss) && printed[0] == ss[0].start && printed[1] == ss[0].end;
    var freq := SegmentsParsed(buf, 2, ss, zero);
    AlignedIs(|printed|, ptr);
    hide ParseSegments, PrintSegments;
    SymbolsCovered(ss, freq);
  }

  lemma AlignedIs(from: nat, ptr: nat)
    requires ptr % 4 == 0 && from <= ptr < from + 4
    ensures Aligned(from) == ptr
  {
  }

  /** Segments cover symbols below 256 only. */
  lemma SymbolsCovered(ss: seq<Segment>, freq: seq<int>)
    requires AllValid(ss) && |freq| == NODES && LastCovers(ss, seq(NODES, _ => 0), freq)
    ensures LastCovers(ss, seq(256, _ => 0), freq[256 := 1][..256])
    ensures forall i :: 257 <= i < NODES ==> freq[i] == 0
  {
    var symbols := freq[256 := 1][..256];
    assert forall i :: 0 <= i < 256 ==> symbols[i] == freq[i];
  }

  /** Whatever is read is such a list of segments, followed by padding. */
  lemma {:induction false} ReadSegmentsPrinted(buf: seq<byte>, ptr: nat, start: byte, end: byte, freq: seq<int>)
    returns (ss: seq<Segment>)
    requires |freq| == NODES && 2 <= ptr && ParseSegments(buf, ptr, start, end, freq).Some?
    requires start == ByteAt(buf, ptr - 2) && end == ByteAt(buf, ptr - 1)
    ensures ValidSegments(ss) && ss[0].start == start && Stand(buf, ptr - 2, ss)
    decreases |buf| + 1 - ptr
  {
    hide *;
    var s, after := SegmentRead(buf, ptr, start, end, freq);
    var at := ptr + |s.bytes|;
    var next := buf[at];
    var rest: seq<Segment>;
    if next == 0 {
      LastPrinted(buf, at);
      rest := [];
    } else {
      rest := ReadSegmentsPrinted(buf, at + 2, next, ByteAt(buf, at + 1), after);
    }
    ss := PrintedBefore(buf, ptr, s, rest);
  }

  /** The buffer goes on with this segment; its bytes begin at ptr. */
  predicate SegmentStands(buf: seq<byte>, ptr: nat, s: Segment) {
    && 2 <= ptr && ptr + |s.bytes| <= |buf|
    && buf[ptr - 2..] == [s.start, s.end] + s.bytes + buf[ptr + |s.bytes|..]
  }

  /** The segment that is read first, and the frequencies after it. */
  lemma SegmentRead(buf: seq<byte>, ptr: nat, start: byte, end: byte, freq: seq<int>)
    returns (s: Segment, after: seq<int>)
    requires |freq| == NODES && 2 <= ptr && ParseSegments(buf, ptr, start, end, freq).Some?
    requires start == ByteAt(buf, ptr - 2) && end == ByteAt(buf, ptr - 1)
    ensures s.start == start && s.end == end && s.Valid() && |after| == NODES && ptr + |s.bytes| < |buf|
    ensures SegmentStands(buf, ptr, s)
    ensures buf[ptr + |s.bytes|] == ByteAt(buf, ptr + |s.bytes|)
    ensures var p := ptr + |s.bytes|;
            buf[p] != 0 ==> ParseSegments(buf, p + 2, buf[p], ByteAt(buf, p + 1), after).Some?
  {
    var n := SegmentSize(start, end);
    s, after := Segment(start, end, buf[ptr..ptr + n]), freq[..start] + buf[ptr..ptr + n] + freq[start + n..];
    hide ParseSegments;
    assert buf[ptr - 2..] == [start, end] + s.bytes + buf[ptr + n..];
  }

  lemma LastPrinted(buf: seq<byte>, ptr: nat)
    requires ptr < |buf| && buf[ptr] == 0
    ensures Stand(buf, ptr, [])
  {
    assert buf[ptr..][0] == 0;
  }

  lemma PrintedBefore(buf: seq<byte>, ptr: nat, s: Segment, rest: seq<Segment>) returns (ss: seq<Segment>)
    requires s.Valid() && (rest == [] || (ValidSegments(rest) && rest[0].start != 0))
    requires SegmentStands(buf, ptr, s)
    requires Stand(buf, ptr + |s.bytes|, rest)
    ensures ValidSegments(ss) && |ss| > 0 && ss[0] == s && Stand(buf, ptr - 2, ss)
  {
    ss := [s] + rest;
    assert ss[1..] == rest;
    assert PrintSegments(ss) == [s.start, s.end] + s.bytes + PrintSegments(rest);
    hide PrintSegments;
  }

  ghost predicate BeginsPrinted(buf: seq<byte>, ss: seq<Segment>) {
    ValidSegments(ss) && PrintSegments(ss) <= buf && Aligned(|PrintSegments(ss)|) <= |buf|
  }

  /** A buffer is read exactly if it begins with printed segments and is long enough for their padding. */
  lemma ReadIffPrinted(buf: seq<byte>)
    ensures ParseTable(buf).Some? <==> exists ss :: BeginsPrinted(buf, ss)
  {
    hide BeginsPrinted, ParseTable;
    if ParseTable(buf).Some? {
      var ss := ReadIsPrinted(buf);
    }
    if ss :| BeginsPrinted(buf, ss) {
      PrintedIsRead(buf, ss);
    }
  }

  lemma PrintedIsRead(buf: seq<byte>, ss: seq<Segment>)
    requires BeginsPrinted(buf, ss)
    ensures ParseTable(buf).Some? && ParseTable(buf).value.ptr == Aligned(|PrintSegments(ss)|)
  {
    var printed := PrintSegments(ss);
    assert printed + buf[|printed|..] == buf;
    hide PrintSegments, ParseTable;
    PrintedSegmentsRead(ss, buf[|printed|..], Aligned(|printed|));
  }

  lemma ReadIsPrinted(buf: seq<byte>) returns (ss: seq<Segment>)
    requires ParseTable(buf).Some?
    ensures BeginsPrinted(buf, ss)
  {
    ss := ReadSegmentsPrinted(buf, 2, ByteAt(buf, 0), ByteAt(buf, 1), seq(NODES, _ => 0));
    var printed := PrintSegments(ss);
    assert buf[2 - 2..] == buf && printed + buf[|printed|..] == buf;
    hide PrintSegments, ParseSegments;
    PrintedSegmentsRead(ss, buf[|printed|..], Aligned(|printed|));
  }

  /** The inner loop: the frequencies start..end are read from `from` on. */
  method ReadSegment(buf: seq<byte>, from: nat, start: byte, end: byte, frequency: array<int>) returns (ptr: nat)
    requires frequency.Length == NODES
    requires from + SegmentSize(start, end) <= |buf|
    modifies frequency
    ensures ptr == from + SegmentSize(start, end)
    ensures frequency[..] ==
            old(frequency[..start]) + buf[from..ptr] + old(frequency[start + SegmentSize(start, end)..])
  {
    ptr := from;
    var i: int := start;
    while i <= end
      invariant start <= i <= start + SegmentSize(start, end)
      invariant ptr == from + i - start
      invariant forall k :: 0 <= k < NODES ==>
          frequency[k] == if start <= k < i then buf[from + k - start] else old(frequency[k])
    {
      frequency[i] := buf[ptr];
      ptr := ptr + 1;
      i := i + 1;
    }
  }

  method Align(from: nat) returns (ptr: nat)
    ensures ptr == Aligned(from)
    ensures from <= ptr < from + 4 && ptr % 4 == 0
  {
    ptr := from;
    while ptr % 4 != 0
      invariant from <= ptr && Aligned(ptr) == Aligned(from)
      decreases Aligned(from) - ptr
    {
      ptr := ptr + 1;
    }
  }

  method ReadSegments(buf: seq<byte>, frequency: array<int>) returns (ok: bool, ptr: nat)
    requires frequency.Length == NODES
    modifies frequency
    ensures var r := ParseSegments(buf, 2, ByteAt(buf, 0), ByteAt(buf, 1), old(frequency[..]));
            (ok <==> r.Some?) && (ok ==> r.value == Segments(frequency[..], ptr))
  {
    var start, end := ByteAt(buf, 0), ByteAt(buf, 1);
    ptr := 2;
    ghost var want := ParseSegments(buf, 2, start, end, frequency[..]);
    while true
      invariant want == ParseSegments(buf, ptr, start, end, frequency[..])
      decreases if ptr <= |buf| then |buf| + 1 - ptr else 0
    {
      if |buf| - ptr < SegmentSize(start, end) + 1 {
        return false, ptr;
      }
      ptr := ReadSegment(buf, ptr, start, end, frequency);
      start := buf[ptr];
      ptr := ptr + 1;
      if start == 0 {
        return true, ptr;
      }
      end := ByteAt(buf, ptr);
      ptr := ptr + 1;
    }
  }

  method ReadFrequencies(buf: seq<byte>, frequency: array<int>) returns (ok: bool, ptr: nat)
    requires frequency.Length == NODES && frequency[..] == seq(NODES, _ => 0)
    modifies frequency
    ensures ok <==> ParseTable(buf).Some?
    ensures ok ==> frequency[..] == ParseTable(buf).value.freq && ptr == ParseTable(buf).value.ptr
  {
    ok, ptr := ReadSegments(buf, frequency);
    if ok {
      frequency[256] := 1;
      ptr := Align(ptr);
      ok := ptr <= |buf|;
    }
  }

  // ---- growing the tree ---------------------------------------------------------

  /** The scan for the two smallest live frequencies. */
  method TwoSmallest(frequency: array<int>, j: nat) returns (found: bool, s0: nat, s1: nat)
    requires j <= frequency.Length == NODES
    requires forall i :: 0 <= i < NODES ==> 0 <= frequency[i] < SENTINEL
    requires forall i :: j <= i < NODES ==> frequency[i] == 0
    ensures found ==> IsTwoSmallest(frequency[..], s0, s1)
    ensures found ==> s0 < NODES && s1 < NODES && s0 != s1 && 0 < frequency[s0] <= frequency[s1]
    ensures found ==> frequency[s0] == frequency[s1] ==> s0 < s1
    ensures found ==> forall k :: 0 <= k < NODES && k != s0 && k != s1 && frequency[k] > 0 ==>
              frequency[s1] < frequency[k] || (frequency[s1] == frequency[k] && s1 < k)
    ensures !found ==> forall k, m :: 0 <= k < m < NODES ==> frequency[k] == 0 || frequency[m] == 0
    ensures !found ==> !HasTwo(frequency[..])
  {
    var min0, min1 := SENTINEL, SENTINEL;
    s0, s1 := 0, 0;
    for i := 0 to j
      invariant min0 == SENTINEL ==> forall k :: 0 <= k < i ==> frequency[k] == 0
      invariant min0 <= SENTINEL && min1 <= SENTINEL && (min0 == SENTINEL ==> min1 == SENTINEL)
      invariant min0 < SENTINEL ==> s0 < i && frequency[s0] == min0 > 0
      invariant min0 < min1 == SENTINEL ==> forall k :: 0 <= k < i && k != s0 ==> frequency[k] == 0
      invariant min1 < SENTINEL ==> s1 < i && s1 != s0 && frequency[s1] == min1 > 0 && Before(frequency[..], s0, s1)
      invariant min1 < SENTINEL ==>
          forall k :: 0 <= k < i && k != s0 && k != s1 && frequency[k] > 0 ==> Before(frequency[..], s1, k)
    {
      if frequency[i] != 0 && frequency[i] < min1 {
        if frequency[i] < min0 {
          min1, s1 := min0, s0;
          min0, s0 := frequency[i], i;
        } else {
          min1, s1 := frequency[i], i;
        }
      }
    }
    found := min1 != SENTINEL;
  }

  /** `f` is the state of the arrays before the first merge. */
  ghost predicate Starts(f: Forest, freq: seq<int>) {
    && |freq| == |f.freq| == |f.flag| == NODES && f.freq == freq && NoLinks(f)
    && freq[256] == 1
    && (forall i :: 0 <= i < 256 ==> 0 <= freq[i] < 256)
    && (forall i :: SYMBOLS <= i < NODES ==> freq[i] == 0)
  }

  /** Some run of the merge loop leads from the frequencies to `z`. */
  ghost predicate TreeOf(freq: seq<int>, z: Forest) {
    exists f, ms :: Starts(f, freq) && Ready(f, SYMBOLS) && Run(f, SYMBOLS, z, ms)
  }

  lemma {:induction false} SumOfBytes(s: seq<int>, m: int)
    requires forall i :: 0 <= i < |s| ==> s[i] <= m
    ensures Sum(s) <= m * |s|
  {
    if s != [] {
      SumOfBytes(s[1..], m);
    }
  }

  lemma {:induction false} SumAppend(s: seq<int>, t: seq<int>)
    ensures Sum(s + t) == Sum(s) + Sum(t)
  {
    if s == [] {
      assert s + t == t;
    } else {
      assert (s + t)[1..] == s[1..] + t;
      SumAppend(s[1..], t);
    }
  }

  lemma StartTotal(f: Forest, freq: seq<int>)
    requires Starts(f, freq)
    ensures Ready(f, SYMBOLS) && 0 < Sum(f.freq) <= MAX_TOTAL
  {
    SumTerm(freq, 256);
    var low, high := freq[..256], freq[256..];
    assert freq == low + high;
    SumAppend(low, high);
    SumOfBytes(low, 255);
    SumSingle(high, 0);
  }

  lemma BelowSentinel(f: Forest, j: nat)
    requires Ready(f, j) && Sum(f.freq) <= MAX_TOTAL
    ensures forall i :: 0 <= i < NODES ==> f.freq[i] < SENTINEL
  {
    forall i | 0 <= i < NODES ensures f.freq[i] < SENTINEL {
      SumTerm(f.freq, i);
    }
  }

  /** Every end that the loop can reach from `f` is an end it can reach from the start. */
  ghost predicate LeadsOn(freq: seq<int>, f: Forest, j: nat)
    requires Ready(f, j)
  {
    forall z, ms :: Run(f, j, z, ms) ==> TreeOf(freq, z)
  }

  lemma MergeReady(f: Forest, j: nat, a: nat, b: nat)
    requires Ready(f, j) && j < NODES && IsTwoSmallest(f.freq, a, b)
    ensures Ready(Merge(f, j, a, b), j + 1) && Sum(Merge(f, j, a, b).freq) == Sum(f.freq)
  {
    MergeTotal(f.freq, a, b, j);
    hide Sum;
  }

  lemma LeadsOnStep(freq: seq<int>, f: Forest, j: nat, a: nat, b: nat)
    requires Ready(f, j) && j < NODES && IsTwoSmallest(f.freq, a, b) && LeadsOn(freq, f, j)
    ensures Ready(Merge(f, j, a, b), j + 1) && LeadsOn(freq, Merge(f, j, a, b), j + 1)
    ensures Sum(Merge(f, j, a, b).freq) == Sum(f.freq)
  {
    assert a < NODES && b < NODES && |f.freq| == |f.up| == |f.flag| == NODES;
    MergeReady(f, j, a, b);
    hide Ready, Merge, IsTwoSmallest, TreeOf, Sum;
    var g, k := Merge(f, j, a, b), j + 1;
    forall z, ms | Run(g, k, z, ms) ensures TreeOf(freq, z) {
      assert Run(f, j, z, Join(a, b, j, ms));
    }
  }

  method JoinRoots(frequency: array<int>, up: array<int>, flag: array<int>, j: nat, s0: nat, s1: nat)
    requires frequency.Length == up.Length == flag.Length == NODES
    requires frequency != up && up != flag && flag != frequency
    requires j < NODES && s0 < NODES && s1 < NODES && s0 != s1 && s0 != j && s1 != j
    modifies frequency, up, flag
    ensures Forest(frequency[..], up[..], flag[..]) == Merge(old(Forest(frequency[..], up[..], flag[..])), j, s0, s1)
  {
    frequency[j] := frequency[s0] + frequency[s1];
    flag[s0] := 0;
    flag[s1] := 1;
    up[s0] := j;
    up[s1] := j;
    frequency[s0], frequency[s1] := 0, 0;
  }

  method GrowTree(frequency: array<int>, up: array<int>, flag: array<int>)
    requires frequency.Length == up.Length == flag.Length == NODES
    requires frequency != up && up != flag && flag != frequency
    requires Starts(Forest(frequency[..], up[..], flag[..]), frequency[..])
    modifies frequency, up, flag
    ensures TreeOf(old(frequency[..]), Forest(frequency[..], up[..], flag[..]))
  {
    ghost var freq, f := frequency[..], Forest(frequency[..], up[..], flag[..]);
    StartTotal(f, freq);
    var j := SYMBOLS;
    while j < NODES
      invariant SYMBOLS <= j <= NODES
      invariant f == Forest(frequency[..], up[..], flag[..])
      invariant Ready(f, j) && 0 < Sum(f.freq) <= MAX_TOTAL && LeadsOn(freq, f, j)
    {
      BelowSentinel(f, j);
      var found, s0, s1 := TwoSmallest(frequency, j);
      if !found {
        break;
      }
      hide Ready, LeadsOn, Sum;
      LeadsOnStep(freq, f, j, s0, s1);
      f := Merge(f, j, s0, s1);
      JoinRoots(frequency, up, flag, j, s0, s1);
      j := j + 1;
    }
    ghost var r := SomeLive(f.freq);
    assert Run(f, j, f, Done(r));
  }

  // ---- emitting the codes ----------------------------------------------------------

  /** `t` lists the codes of the finished tree for the frequencies. */
  ghost predicate TableOf(freq: seq<int>, t: CodeTable) {
    exists z :: TreeOf(freq, z) && ListsCodes(z, t)
  }

  ghost predicate ListsCodes(z: Forest, t: CodeTable) {
    && WellLinked(z) && |t.lens| == |t.bits| == SYMBOLS
    && forall s :: 0 <= s < SYMBOLS ==> t.lens[s] == |Code(z, s)| && t.bits[s] == Value(Code(z, s))
  }

  lemma TreeWellLinked(freq: seq<int>, z: Forest)
    requires TreeOf(freq, z)
    ensures Ready(z, NODES) && forall i :: 0 <= i < NODES ==> |Code(z, i)| <= MAX_CODE
  {
    var f, ms :| Starts(f, freq) && Ready(f, SYMBOLS) && Run(f, SYMBOLS, z, ms);
    StartTotal(f, freq);
    RunReady(f, SYMBOLS, z, ms);
    forall i | 0 <= i < NODES ensures |Code(z, i)| <= MAX_CODE {
      DepthBound(f, z, ms, i);
    }
  }

  /** One step of the walk puts a bit before those already seen. */
  lemma StepUp(z: Forest, node: nat, low: Bits)
    requires Ready(z, NODES) && node < NODES && z.up[node] != -1
    ensures node < z.up[node] < NODES && 0 <= z.flag[node] <= 1
    ensures var next := [z.flag[node] == 1] + low;
            && Code(z, node) + low == Code(z, z.up[node]) + next
            && Value(next) == Value(low) + z.flag[node] * Pow2(|low|)
  {
    var v := z.flag[node] == 1;
    ValuePrepend(v, low);
    assert Code(z, node) + low == Code(z, z.up[node]) + ([v] + low);
  }

  /** The walk from symbol `j` up to its root; `overflow` is the reported condition. */
  method WalkUp(up: array<int>, flag: array<int>, j: nat, ghost z: Forest)
    returns (bits: nat, len: nat, overflow: bool)
    requires up.Length == flag.Length == NODES && j < NODES
    requires Ready(z, NODES) && up[..] == z.up && flag[..] == z.flag
    requires |Code(z, j)| <= MAX_CODE
    ensures len == |Code(z, j)| && bits == Value(Code(z, j))
    ensures !overflow
  {
    var node := j;
    bits, len, overflow := 0, 0, false;
    ghost var low: Bits := [];
    while up[node] != -1
      invariant 0 <= node < NODES && !overflow
      invariant Code(z, j) == Code(z, node) + low && |low| == len && Value(low) == bits
      decreases NODES - node
    {
      assert up[node] == z.up[node] && flag[node] == z.flag[node];
      hide Ready, Code, Value, Pow2;
      StepUp(z, node, low);
      low := [z.flag[node] == 1] + low;
      bits := bits + flag[node] * Pow2(len);
      len := len + 1;
      if len > 31 {
        overflow := true;
      }
      node := up[node];
    }
    assert Code(z, node) + low == low;
  }

  method EmitCodes(up: array<int>, flag: array<int>, ghost z: Forest) returns (t: CodeTable)
    requires up.Length == flag.Length == NODES
    requires Ready(z, NODES) && up[..] == z.up && flag[..] == z.flag
    requires forall i :: 0 <= i < NODES ==> |Code(z, i)| <= MAX_CODE
    ensures ListsCodes(z, t)
  {
    var lens, bits := [], [];
    for j := 0 to SYMBOLS
      invariant |lens| == |bits| == j
      invariant forall s :: 0 <= s < j ==> lens[s] == |Code(z, s)| && bits[s] == Value(Code(z, s))
    {
      var b, len, overflow := WalkUp(up, flag, j, z);
      lens, bits := lens + [len], bits + [b];
    }
    t := CodeTable(lens, bits);
  }

  /**
   * The whole of read_huffman_tables: leaves the tables for the code that was built, and
   * gives the position of the data after it; None for malformed data, or for codes that
   * init_vlc refuses. It refuses them exactly if all 257 symbols occur and each of them has
   * a codeword.
   */
  method ReadHuffmanTables(buf: seq<byte>, pre_vlc: VlcBuild.VLC) returns (r: Option<nat>)
    modifies pre_vlc
    ensures ParseTable(buf).None? ==> r.None?
    ensures ParseTable(buf).Some? ==>
              var header := ParseTable(buf).value;
              exists t :: && TableOf(header.freq, t)
                          && (r == if AllCodedOf257(header.freq, t) then None else Some(header.ptr))
                          && (r.Some? ==> Sound(t) && pre_vlc.Decodes(t))
  {
    var frequency, up, flag := new int[NODES](_ => 0), new int[NODES](_ => -1), new int[NODES](_ => 0);
    var ok, ptr := ReadFrequencies(buf, frequency);
    if !ok {
      return None;
    }
    SegmentsAreBytes(buf, 2, ByteAt(buf, 0), ByteAt(buf, 1), seq(NODES, _ => 0));
    ghost var freq := frequency[..];
    GrowTree(frequency, up, flag);
    ghost var z := Forest(frequency[..], up[..], flag[..]);
    TreeWellLinked(freq, z);
    var t := EmitCodes(up, flag, z);
    assert TableOf(freq, t);
    TableBuilt(freq, t);
    var built := pre_vlc.InitVlc(t);
    r := if built then Some(ptr) else None;
  }

  /** The table of a tree has a clash, or it is prefix-free, complete and small enough for all indices to fit. */
  lemma TableBuilt(freq: seq<int>, t: CodeTable)
    requires TableOf(freq, t)
    ensures t.Valid() && (Refused(t) <==> AllCodedOf257(freq, t)) && (!Refused(t) ==> Sound(t) && VlcBuild.Small(t))
  {
    AcceptedIff(freq, t);
    CodesShort(freq, t);
    if !Refused(t) {
      AcceptedSound(freq, t);
    }
  }

  // ---- one table for each header ------------------------------------------------------

  lemma TwoSmallestUnique(w: seq<int>, a: nat, b: nat, c: nat, d: nat)
    requires IsTwoSmallest(w, a, b) && IsTwoSmallest(w, c, d)
    ensures a == c && b == d
  {
  }

  /** The same forest but for the flags of the roots, which the source leaves uninitialized. */
  predicate SameLinks(f: Forest, g: Forest) {
    && f.freq == g.freq && f.up == g.up && |f.up| == |f.flag| == |g.flag|
    && forall i :: 0 <= i < |f.up| && f.up[i] != -1 ==> f.flag[i] == g.flag[i]
  }

  lemma MergeSame(f: Forest, g: Forest, j: nat, a: nat, b: nat)
    requires Ready(f, j) && Ready(g, j) && j < NODES && SameLinks(f, g) && IsTwoSmallest(f.freq, a, b)
    ensures Ready(Merge(f, j, a, b), j + 1) && Ready(Merge(g, j, a, b), j + 1)
    ensures SameLinks(Merge(f, j, a, b), Merge(g, j, a, b))
  {
    MergeReady(f, j, a, b);
    MergeReady(g, j, a, b);
    hide Ready, MergeWeights, Sum;
  }

  lemma {:induction false} RunUnique(f: Forest, g: Forest, j: nat, y: Forest, z: Forest, ms: Merges, ns: Merges)
    requires Ready(f, j) && Ready(g, j) && SameLinks(f, g) && Run(f, j, y, ms) && Run(g, j, z, ns)
    ensures SameLinks(y, z)
    decreases ms
  {
    match (ms, ns)
    case (Done(_), Done(_)) =>
    case (Join(a, b, _, rest), Join(c, d, _, rest')) =>
      TwoSmallestUnique(f.freq, a, b, c, d);
      MergeSame(f, g, j, a, b);
      RunUnique(Merge(f, j, a, b), Merge(g, j, a, b), j + 1, y, z, rest, rest');
    case _ =>
  }

  lemma {:induction false} SameCodes(y: Forest, z: Forest, i: nat)
    requires WellLinked(y) && WellLinked(z) && SameLinks(y, z) && i < NODES
    ensures Code(y, i) == Code(z, i)
    decreases NODES - i
  {
    if y.up[i] != -1 {
      SameCodes(y, z, y.up[i]);
    }
  }

  /** Ties go to the smaller index, so that the frequencies decide the table. */
  lemma TableUnique(freq: seq<int>, t: CodeTable, u: CodeTable)
    requires TableOf(freq, t) && TableOf(freq, u)
    ensures t == u
  {
    var y :| TreeOf(freq, y) && ListsCodes(y, t);
    var z :| TreeOf(freq, z) && ListsCodes(z, u);
    hide TreeOf;
    TreesSame(freq, y, z);
    forall s | 0 <= s < SYMBOLS ensures t.lens[s] == u.lens[s] && t.bits[s] == u.bits[s] {
      hide SameLinks;
      SameCodes(y, z, s);
    }
  }

  lemma TreesSame(freq: seq<int>, y: Forest, z: Forest)
    requires TreeOf(freq, y) && TreeOf(freq, z)
    ensures SameLinks(y, z)
  {
    var f, ms :| Starts(f, freq) && Ready(f, SYMBOLS) && Run(f, SYMBOLS, y, ms);
    var g, ns :| Starts(g, freq) && Ready(g, SYMBOLS) && Run(g, SYMBOLS, z, ns);
    assert SameLinks(f, g);
    hide *;
    RunUnique(f, g, SYMBOLS, y, z, ms, ns);
  }

  // ---- what the table promises ------------------------------------------------------

  function Codewords(t: CodeTable): (c: seq<Bits>)
    requires t.Valid()
  {
    seq(|t.lens|, s requires 0 <= s < |t.lens| => t.Codeword(s))
  }

  /** The frequencies of the 257 symbols. */
  function SymbolFreq(freq: seq<int>): (w: seq<int>)
    requires |freq| == NODES
  {
    freq[..SYMBOLS]
  }

  /** All 257 symbols occur, and none of them has been left over as the root of a tree. */
  predicate AllCodedOf257(freq: seq<int>, t: CodeTable) {
    && |freq| == NODES && t.Valid()
    && forall s :: 0 <= s < SYMBOLS ==> freq[s] > 0 && t.Coded(s)
  }

  /** A table comes from a run whose codes it lists. */
  lemma TableRun(freq: seq<int>, t: CodeTable) returns (c: seq<Bits>, ms: Merges)
    requires TableOf(freq, t)
    ensures |freq| == NODES && (forall i :: 0 <= i < NODES ==> freq[i] >= 0)
    ensures forall i :: SYMBOLS <= i < NODES ==> freq[i] == 0
    ensures |t.lens| == |t.bits| == SYMBOLS
    ensures Grown(freq, c, ms) && |c| == NODES && Codewords(t) == c[..SYMBOLS]
    ensures Count(freq) <= SYMBOLS && Count(Left(freq, ms)) == if Count(freq) <= 256 then 1 else 2
    ensures forall i :: 0 <= i < NODES ==> |c[i]| <= MAX_CODE
    ensures forall i :: 0 <= i < SYMBOLS && freq[i] == 0 ==> c[i] == []
  {
    var z :| TreeOf(freq, z) && ListsCodes(z, t);
    TreeWellLinked(freq, z);
    c := Codes(z);
    CodewordsListed(z, t);
    ms := TreeRun(freq, z);
  }

  lemma CodewordsListed(z: Forest, t: CodeTable)
    requires ListsCodes(z, t)
    ensures Codewords(t) == Codes(z)[..SYMBOLS]
  {
    forall s | 0 <= s < SYMBOLS ensures t.Codeword(s) == Codes(z)[s] {
      BitsOfValue(Code(z, s));
    }
  }

  lemma RunCounts(f: Forest, z: Forest, ms: Merges)
    requires Ready(f, SYMBOLS) && Run(f, SYMBOLS, z, ms) && Ready(z, NODES)
    ensures Grown(f.freq, Codes(z), ms)
    ensures Count(f.freq) <= SYMBOLS && Count(Left(f.freq, ms)) == if Count(f.freq) <= 256 then 1 else 2
  {
    RunGrows(f, SYMBOLS, z, ms, Codes(z));
    RootsLeft(f.freq, Codes(z), ms);
    var low, high := Marks(f.freq)[..SYMBOLS], Marks(f.freq)[SYMBOLS..];
    assert Marks(f.freq) == low + high;
    SumAppend(low, high);
    SumOfBytes(low, 1);
    SumZero(high);
  }

  lemma TreeRun(freq: seq<int>, z: Forest) returns (ms: Merges)
    requires TreeOf(freq, z) && Ready(z, NODES)
    ensures |freq| == NODES && (forall i :: 0 <= i < NODES ==> freq[i] >= 0)
    ensures forall i :: SYMBOLS <= i < NODES ==> freq[i] == 0
    ensures Grown(freq, Codes(z), ms)
    ensures Count(freq) <= SYMBOLS && Count(Left(freq, ms)) == if Count(freq) <= 256 then 1 else 2
    ensures forall i :: 0 <= i < SYMBOLS && freq[i] == 0 ==> Codes(z)[i] == []
  {
    var f;
    f, ms :| Starts(f, freq) && Ready(f, SYMBOLS) && Run(f, SYMBOLS, z, ms);
    RunCounts(f, z, ms);
    forall s | 0 <= s < SYMBOLS && freq[s] == 0 ensures Codes(z)[s] == [] {
      DeadNodesKept(f, SYMBOLS, z, ms, s);
    }
  }

  lemma LengthsListed(t: CodeTable, c: seq<Bits>)
    requires |t.lens| == |t.bits| == SYMBOLS <= |c| && Codewords(t) == c[..SYMBOLS]
    ensures Lengths(c)[..SYMBOLS] == t.lens
  {
    forall i | 0 <= i < SYMBOLS ensures Lengths(c)[i] == t.lens[i] {
      assert c[i] == Codewords(t)[i];
    }
  }

  // The tree has 512 nodes, the table 257 symbols: the other nodes are not live.

  lemma SymbolCount(freq: seq<int>)
    requires |freq| == NODES && forall i :: SYMBOLS <= i < NODES ==> freq[i] == 0
    ensures Count(SymbolFreq(freq)) == Count(freq)
  {
    var low, high := Marks(SymbolFreq(freq)), Marks(freq)[SYMBOLS..];
    assert Marks(freq) == low + high;
    SumAppend(low, high);
    SumZero(high);
  }

  lemma SymbolCost(freq: seq<int>, l: seq<nat>)
    requires |freq| == |l| == NODES && forall i :: SYMBOLS <= i < NODES ==> freq[i] == 0
    ensures Cost(SymbolFreq(freq), l[..SYMBOLS]) == Cost(freq, l)
  {
    var low, high := Costs(SymbolFreq(freq), l[..SYMBOLS]), Costs(freq, l)[SYMBOLS..];
    assert Costs(freq, l) == low + high;
    SumAppend(low, high);
    SumZero(high);
  }

  lemma SymbolKraft(freq: seq<int>, l: seq<nat>, m: nat)
    requires |freq| == |l| == NODES && forall i :: SYMBOLS <= i < NODES ==> freq[i] == 0
    requires Bounded(freq, l, m)
    ensures Bounded(SymbolFreq(freq), l[..SYMBOLS], m)
    ensures Kraft(SymbolFreq(freq), l[..SYMBOLS], m) == Kraft(freq, l, m)
  {
    var low, high := KraftTerms(SymbolFreq(freq), l[..SYMBOLS], m), KraftTerms(freq, l, m)[SYMBOLS..];
    assert KraftTerms(freq, l, m) == low + high;
    SumAppend(low, high);
    SumZero(high);
  }

  lemma SymbolPrefixFree(freq: seq<int>, c: seq<Bits>)
    requires |freq| == |c| == NODES && forall i :: SYMBOLS <= i < NODES ==> freq[i] == 0
    ensures PrefixFree(SymbolFreq(freq), c[..SYMBOLS]) <==> PrefixFree(freq, c)
  {
    if PrefixFree(SymbolFreq(freq), c[..SYMBOLS]) {
      var w, d := SymbolFreq(freq), c[..SYMBOLS];
      forall i, k | 0 <= i < NODES && 0 <= k < NODES && i != k && freq[i] > 0 && freq[k] > 0
        ensures !(c[i] <= c[k])
      {
        assert w[i] > 0 && w[k] > 0 && !(d[i] <= d[k]);
      }
    }
  }

  /** For any transmitted frequencies: at most 22 bits a code, and each codeword fits its length. */
  lemma CodesShort(freq: seq<int>, t: CodeTable)
    requires TableOf(freq, t)
    ensures |t.lens| == |t.bits| == SYMBOLS && t.WellFormed()
    ensures forall s :: 0 <= s < SYMBOLS ==> t.lens[s] <= MAX_CODE && t.bits[s] < Pow2(t.lens[s])
  {
    var z :| TreeOf(freq, z) && ListsCodes(z, t);
    TreeWellLinked(freq, z);
  }

  /**
   * The codes of the symbols that occur are prefix-free exactly when at most
   * 256 of the 257 symbols occur. With all of them the inner nodes run out.
   */
  lemma PrefixFreeIff(freq: seq<int>, t: CodeTable)
    requires TableOf(freq, t)
    ensures |freq| == NODES && |t.lens| == |t.bits| == SYMBOLS
    ensures PrefixFree(SymbolFreq(freq), Codewords(t)) <==> Count(SymbolFreq(freq)) <= 256
  {
    var c, ms := TableRun(freq, t);
    SymbolCount(freq);
    SymbolPrefixFree(freq, c);
    if Count(freq) <= 256 {
      CodesPrefixFree(freq, c, ms);
    } else {
      var x, y := TwoTreesClash(freq, c, ms);
    }
  }

  /** The Kraft sum over the symbols that occur is exactly 1, in units of 2^-22. */
  lemma KraftSumOne(freq: seq<int>, t: CodeTable)
    requires TableOf(freq, t) && |freq| == NODES && Count(SymbolFreq(freq)) <= 256
    ensures Bounded(SymbolFreq(freq), t.lens, MAX_CODE)
    ensures Kraft(SymbolFreq(freq), t.lens, MAX_CODE) == Pow2(MAX_CODE)
  {
    var c, ms := TableRun(freq, t);
    SymbolCount(freq);
    KraftEquality(freq, c, ms, MAX_CODE);
    SymbolKraft(freq, Lengths(c), MAX_CODE);
    LengthsListed(t, c);
  }

  /** No prefix-free binary code spends fewer bits on the symbols at these frequencies. */
  lemma HuffmanOptimal(freq: seq<int>, t: CodeTable, other: seq<Bits>)
    requires TableOf(freq, t) && |freq| == NODES && Count(SymbolFreq(freq)) <= 256
    requires PrefixFree(SymbolFreq(freq), other)
    ensures |t.lens| == SYMBOLS
    ensures Cost(SymbolFreq(freq), t.lens) <= Cost(SymbolFreq(freq), Lengths(other))
  {
    var c, ms := TableRun(freq, t);
    var padded: seq<Bits> := other + seq(NODES - SYMBOLS, _ => []);
    assert padded[..SYMBOLS] == other;
    SymbolCount(freq);
    SymbolPrefixFree(freq, padded);
    CodesOptimal(freq, c, ms, padded);
    SymbolCost(freq, Lengths(c));
    SymbolCost(freq, Lengths(padded));
    LengthsListed(t, c);
    assert Lengths(padded)[..SYMBOLS] == Lengths(other);
  }

  // ---- what init_vlc refuses ------------------------------------------------------------

  /** A table's run, symbol by symbol; nodes that are not symbols are not live. */
  lemma SymbolCode(t: CodeTable, c: seq<Bits>, s: nat)
    requires |t.lens| == |t.bits| == SYMBOLS <= |c| && Codewords(t) == c[..SYMBOLS] && s < SYMBOLS
    ensures t.Codeword(s) == c[s] && |c[s]| == t.lens[s]
  {
    assert Codewords(t)[s] == c[s];
  }

  /** No two symbols of one tree clash, so only symbols of different trees can. */
  lemma OneTreeNoClash(freq: seq<int>, t: CodeTable, c: seq<Bits>, ms: Merges, s: nat, x: nat)
    requires |freq| == NODES && |t.lens| == |t.bits| == SYMBOLS && Grown(freq, c, ms) && Codewords(t) == c[..SYMBOLS]
    requires s < SYMBOLS && x < SYMBOLS && s != x && freq[s] > 0 && freq[x] > 0 && Root(ms, s) == Root(ms, x)
    ensures !Comparable(t.Codeword(s), t.Codeword(x))
  {
    SymbolCode(t, c, s);
    SymbolCode(t, c, x);
    TreePrefixFree(freq, c, ms, s, x);
    TreePrefixFree(freq, c, ms, x, s);
  }

  /** With one root, or a symbol as one of two, the symbols with codewords are in one tree. */
  lemma CodedInOneTree(freq: seq<int>, t: CodeTable, c: seq<Bits>, ms: Merges, s: nat, x: nat)
    requires |freq| == NODES && |t.lens| == |t.bits| == SYMBOLS && Grown(freq, c, ms) && Codewords(t) == c[..SYMBOLS]
    requires Count(Left(freq, ms)) == 1
             || (Count(Left(freq, ms)) == 2 && exists r :: 0 <= r < SYMBOLS && freq[r] > 0 && t.lens[r] == 0)
    requires s < SYMBOLS && x < SYMBOLS && freq[s] > 0 && freq[x] > 0 && t.Coded(s) && t.Coded(x)
    ensures Root(ms, s) == Root(ms, x)
  {
    RootLeft(freq, c, ms, s);
    RootLeft(freq, c, ms, x);
    var left := Left(freq, ms);
    if Count(left) == 1 {
      LiveCount(left, Root(ms, s));
    } else {
      var r :| 0 <= r < SYMBOLS && freq[r] > 0 && t.lens[r] == 0;
      RootLeft(freq, c, ms, r);
      SymbolCode(t, c, r);
      NotWithRoot(freq, t, c, ms, r, s);
      NotWithRoot(freq, t, c, ms, r, x);
      if Root(ms, s) != Root(ms, x) {
        TwoLive(left, r, Root(ms, s));
      }
    }
  }

  lemma NotWithRoot(freq: seq<int>, t: CodeTable, c: seq<Bits>, ms: Merges, r: nat, s: nat)
    requires |freq| == NODES && |t.lens| == |t.bits| == SYMBOLS && Grown(freq, c, ms) && Codewords(t) == c[..SYMBOLS]
    requires r < SYMBOLS && s < SYMBOLS && freq[r] > 0 && freq[s] > 0 && t.lens[r] == 0 && t.Coded(s)
    requires Root(ms, r) == r
    ensures Root(ms, s) != r
  {
    if Root(ms, s) == r {
      OneTreeNoClash(freq, t, c, ms, r, s);
    }
  }

  /** With 257 codewords in two trees one is short, and one of the other tree clashes with it. */
  lemma TwoTreesRefused(freq: seq<int>, t: CodeTable, c: seq<Bits>, ms: Merges)
    requires |freq| == NODES && |t.lens| == |t.bits| == SYMBOLS && Grown(freq, c, ms) && Codewords(t) == c[..SYMBOLS]
    requires forall i :: 0 <= i < SYMBOLS ==> freq[i] > 0 && t.Coded(i)
    requires forall i :: SYMBOLS <= i < NODES ==> freq[i] == 0
    requires forall i :: 0 <= i < NODES ==> |c[i]| <= MAX_CODE
    requires Count(Left(freq, ms)) == 2
    ensures Refused(t)
  {
    var s := ShortCodeword(freq, t, c, ms);
    RootLeft(freq, c, ms, s);
    var left := Left(freq, ms);
    LiveCount(left, Root(ms, s));
    var q :| 0 <= q < |left| && q != Root(ms, s) && left[q] > 0;
    var stream := c[s] + seq(MAX_CODE, _ => false);
    var x := TreeComplete(freq, c, ms, q, stream);
    SymbolCode(t, c, s);
    SymbolCode(t, c, x);
    PrefixesComparable(c[x], c[s], stream);
    assert Clash(t, s, x);
  }

  /** If all codewords were long, their Kraft sum could not even be 1. */
  lemma ShortCodeword(freq: seq<int>, t: CodeTable, c: seq<Bits>, ms: Merges) returns (s: nat)
    requires |freq| == NODES && |t.lens| == |t.bits| == SYMBOLS && Grown(freq, c, ms) && Codewords(t) == c[..SYMBOLS]
    requires forall i :: 0 <= i < SYMBOLS ==> freq[i] > 0
    requires forall i :: SYMBOLS <= i < NODES ==> freq[i] == 0
    requires forall i :: 0 <= i < NODES ==> |c[i]| <= MAX_CODE
    requires Count(Left(freq, ms)) >= 1
    ensures s < SYMBOLS && t.lens[s] <= VLC_BITS
  {
    if forall i :: 0 <= i < SYMBOLS ==> t.lens[i] > VLC_BITS {
      KraftOfTrees(freq, c, ms, MAX_CODE);
      SymbolKraft(freq, Lengths(c), MAX_CODE);
      LengthsListed(t, c);
      LongCodesKraft(SymbolFreq(freq), t.lens);
      ProductMono(1, Count(Left(freq, ms)), Pow2(MAX_CODE));
      assert false;
    }
    s :| 0 <= s < SYMBOLS && t.lens[s] <= VLC_BITS;
  }

  lemma LongCodesKraft(w: seq<int>, l: seq<nat>)
    requires |w| == |l| == SYMBOLS && Bounded(w, l, MAX_CODE) && forall i :: 0 <= i < SYMBOLS ==> l[i] > VLC_BITS
    ensures Kraft(w, l, MAX_CODE) < Pow2(MAX_CODE)
  {
    var terms := KraftTerms(w, l, MAX_CODE);
    assert Pow2(10) == 1024 && Pow2(12) == 4096;
    Pow2Add(10, 12);
    hide Pow2;
    forall i | 0 <= i < SYMBOLS ensures terms[i] <= 4096 {
      if w[i] > 0 {
        Pow2Mono(MAX_CODE - l[i], 12);
      }
    }
    SumOfBytes(terms, 4096);
  }

  /**
   * init_vlc accepts the codes exactly if at most 256 symbols occur, or some symbol that
   * occurs has been left over as a root and has no codeword.
   */
  lemma AcceptedIff(freq: seq<int>, t: CodeTable)
    requires TableOf(freq, t)
    ensures |freq| == NODES && |t.lens| == |t.bits| == SYMBOLS
    ensures !Refused(t) <==>
              || Count(SymbolFreq(freq)) <= 256
              || exists s :: 0 <= s < SYMBOLS && freq[s] > 0 && t.lens[s] == 0
    ensures Refused(t) <==> AllCodedOf257(freq, t)
  {
    var c, ms := TableRun(freq, t);
    SymbolCount(freq);
    AllOccur(freq);
    var root := exists s :: 0 <= s < SYMBOLS && freq[s] > 0 && t.lens[s] == 0;
    if Count(freq) <= 256 || root {
      forall s: nat, x: nat | Clash(t, s, x) ensures false {
        hide *;
        NoClash(freq, t, c, ms, s, x);
      }
    } else {
      TwoTreesRefused(freq, t, c, ms);
    }
  }

  lemma NoClash(freq: seq<int>, t: CodeTable, c: seq<Bits>, ms: Merges, s: nat, x: nat)
    requires |freq| == NODES && |t.lens| == |t.bits| == SYMBOLS && Grown(freq, c, ms) && Codewords(t) == c[..SYMBOLS]
    requires forall i :: 0 <= i < NODES ==> freq[i] >= 0
    requires forall i :: 0 <= i < SYMBOLS && freq[i] == 0 ==> c[i] == []
    requires Count(Left(freq, ms)) == 1
             || (Count(Left(freq, ms)) == 2 && exists r :: 0 <= r < SYMBOLS && freq[r] > 0 && t.lens[r] == 0)
    ensures !Clash(t, s, x)
  {
    if Clash(t, s, x) {
      hide Grown, Left, Count, Codewords, Root;
      CodedOccur(freq, t, c, s);
      CodedOccur(freq, t, c, x);
      CodedInOneTree(freq, t, c, ms, s, x);
      OneTreeNoClash(freq, t, c, ms, s, x);
    }
  }

  lemma CodedOccur(freq: seq<int>, t: CodeTable, c: seq<Bits>, s: nat)
    requires |freq| == NODES && |t.lens| == |t.bits| == SYMBOLS <= |c| && Codewords(t) == c[..SYMBOLS]
    requires forall i :: 0 <= i < NODES ==> freq[i] >= 0
    requires forall i :: 0 <= i < SYMBOLS && freq[i] == 0 ==> c[i] == []
    requires t.Coded(s)
    ensures freq[s] > 0
  {
    SymbolCode(t, c, s);
  }

  /** More than 256 symbols: all 257. */
  lemma AllOccur(freq: seq<int>)
    requires |freq| == NODES && (forall i :: 0 <= i < NODES ==> freq[i] >= 0)
    requires forall i :: SYMBOLS <= i < NODES ==> freq[i] == 0
    ensures Count(freq) > 256 <==> forall i :: 0 <= i < SYMBOLS ==> freq[i] > 0
  {
    SymbolCount(freq);
    var marks := Marks(SymbolFreq(freq));
    if i :| 0 <= i < SYMBOLS && freq[i] == 0 {
      SumUpdate(marks, i, 1);
      SumOfBytes(marks[i := 1], 1);
    } else {
      SumOfOnes(marks);
    }
  }

  lemma {:induction false} SumOfOnes(s: seq<int>)
    requires forall i :: 0 <= i < |s| ==> s[i] == 1
    ensures Sum(s) == |s|
  {
    if s != [] {
      SumOfOnes(s[1..]);
    }
  }

  /** What init_vlc accepts is a prefix-free code, and a complete one unless it has no codewords. */
  lemma AcceptedSound(freq: seq<int>, t: CodeTable)
    requires TableOf(freq, t) && t.Valid() && !Refused(t)
    ensures Sound(t)
  {
    var c, ms := TableRun(freq, t);
    SymbolCount(freq);
    AcceptedIff(freq, t);
    CodesShort(freq, t);
    forall s: nat, x: nat | t.Coded(s) && t.Coded(x) && s != x ensures !(t.Codeword(s) <= t.Codeword(x)) {
      CodedOccur(freq, t, c, s);
      CodedOccur(freq, t, c, x);
      CodedInOneTree(freq, t, c, ms, s, x);
      OneTreeNoClash(freq, t, c, ms, s, x);
    }
    CodesCover(freq, t, c, ms);
  }

  /** Any long enough stream begins with a codeword, if there is one. */
  lemma CodesCover(freq: seq<int>, t: CodeTable, c: seq<Bits>, ms: Merges)
    requires |freq| == NODES && |t.lens| == |t.bits| == SYMBOLS && Grown(freq, c, ms) && Codewords(t) == c[..SYMBOLS]
    requires forall i :: 0 <= i < NODES ==> freq[i] >= 0 && |c[i]| <= MAX_CODE
    requires forall i :: SYMBOLS <= i < NODES ==> freq[i] == 0
    requires forall i :: 0 <= i < SYMBOLS && freq[i] == 0 ==> c[i] == []
    ensures Complete(t)
  {
    if HasCodes(t) {
      var s: nat :| s < |t.lens| && t.Coded(s);
      CodedOccur(freq, t, c, s);
      RootLeft(freq, c, ms, s);
      forall stream: Bits | |stream| >= MAX_LEN ensures SomeBegins(t, stream) {
        var x := TreeComplete(freq, c, ms, Root(ms, s), stream);
        SymbolCode(t, c, x);
        if t.lens[x] == 0 {
          OneTreeNoClash(freq, t, c, ms, x, s);
        }
        assert Begins(t, x, stream);
      }
    }
  }

  // ---- decoding with the table ----------------------------------------------------------

  /** With at least two and at most 256 symbols, exactly those that occur have codewords. */
  lemma CodedIff(freq: seq<int>, t: CodeTable, s: nat)
    requires TableOf(freq, t) && |freq| == NODES && 2 <= Count(SymbolFreq(freq)) <= 256 && s < SYMBOLS
    ensures t.Valid() && (t.Coded(s) <==> freq[s] > 0)
  {
    var c, ms := TableRun(freq, t);
    SymbolCode(t, c, s);
    if freq[s] > 0 {
      PrefixFreeIff(freq, t);
      var w, d := SymbolFreq(freq), Codewords(t);
      LiveCount(w, s);
      var k :| 0 <= k < |w| && k != s && w[k] > 0;
      assert !(d[s] <= d[k]);
    }
  }

  /**
   * Decoding any concatenation of codewords of an accepted table, whatever bits follow
   * it, gives the symbols that were coded.
   */
  lemma DecodeRoundTrip(freq: seq<int>, t: CodeTable, symbols: seq<nat>, tail: Bits)
    requires TableOf(freq, t) && t.Valid() && !Refused(t) && AllCoded(t, symbols)
    ensures Symbols(t, Encode(t, symbols) + tail) == symbols + Symbols(t, tail)
  {
    AcceptedSound(freq, t);
    DecodeEncoded(t, symbols, tail);
  }

  /** A lookup in an accepted table fails only if there is just one symbol, which has the empty codeword. */
  lemma DecodeFailsIff(freq: seq<int>, t: CodeTable, stream: Bits)
    requires TableOf(freq, t) && t.Valid() && !Refused(t)
    ensures |freq| == NODES && (Lookup(t, stream) == -1 <==> Count(SymbolFreq(freq)) == 1)
  {
    var c, ms := TableRun(freq, t);
    AcceptedSound(freq, t);
    LookupFailsIff(t, stream);
    SymbolCount(freq);
    assert freq[256] == 1 by {
      var z :| TreeOf(freq, z) && ListsCodes(z, t);
    }
    if Count(freq) == 1 {
      RootsLeft(freq, c, ms);
      forall s: nat | s < |t.lens| ensures !t.Coded(s) {
        SymbolCode(t, c, s);
        LiveCount(freq, 256);
      }
    } else if Count(freq) <= 256 {
      LiveCount(freq, 256);
      CodedIff(freq, t, 256);
    } else {
      AllOccur(freq);
      ThreeSymbolsCoded(freq, t, c, ms);
    }
  }

  /** Of three symbols that occur, one at least is not a root. */
  lemma ThreeSymbolsCoded(freq: seq<int>, t: CodeTable, c: seq<Bits>, ms: Merges)
    requires |freq| == NODES && |t.lens| == |t.bits| == SYMBOLS && Grown(freq, c, ms) && Codewords(t) == c[..SYMBOLS]
    requires freq[0] > 0 && freq[1] > 0 && freq[2] > 0 && Count(Left(freq, ms)) == 2
    ensures HasCodes(t)
  {
    if !t.Coded(0) && !t.Coded(1) && !t.Coded(2) {
      SymbolCode(t, c, 0);
      SymbolCode(t, c, 1);
      SymbolCode(t, c, 2);
      RootLeft(freq, c, ms, 0);
      RootLeft(freq, c, ms, 1);
      RootLeft(freq, c, ms, 2);
      TwoLive(Left(freq, ms), 0, 1);
    }
  }

  // ---- headers with all 257 symbols -------------------------------------------------------

  /** A symbol left over as a root weighs at least a third of all, so that without one such a header is refused. */
  lemma NoHeavySymbolRefused(freq: seq<int>, t: CodeTable)
    requires TableOf(freq, t) && |freq| == NODES
    requires forall s :: 0 <= s < SYMBOLS ==> freq[s] > 0 && 3 * freq[s] < Sum(freq)
    ensures t.Valid() && Refused(t)
  {
    var c, ms := TableRun(freq, t);
    AllOccur(freq);
    AcceptedIff(freq, t);
    RootsLeft(freq, c, ms);
    SymbolCount(freq);
    if s :| 0 <= s < SYMBOLS && t.lens[s] == 0 {
      SymbolCode(t, c, s);
      RootLeft(freq, c, ms, s);
      LeftoverIsHeavy(freq, c, ms, s);
    }
  }

  /** Bytes of 1 and a last one of x, for the symbols 0..255. */
  function OnesAnd(x: byte): (symbols: seq<byte>)
    ensures |symbols| == 256
  {
    seq(255, _ => 1) + [x]
  }

  lemma OnesAndTotal(x: byte, freq: seq<int>)
    requires freq == OnesAnd(x) + [1] + seq(NODES - SYMBOLS, _ => 0)
    ensures Sum(freq) == 256 + x
  {
    var ones: seq<int>, zeros: seq<int> := seq(255, _ => 1), seq(NODES - SYMBOLS, _ => 0);
    SumOfOnes(ones);
    SumZero(zeros);
    SumAppend(ones, [x, 1] + zeros);
    SumAppend([x, 1], zeros);
    assert freq == ones + ([x, 1] + zeros);
    assert Sum([x, 1]) == x + 1 by {
      assert [x, 1][1..] == [1] && [1][1..] == [];
    }
  }

  /** All frequencies 1: the header can be transmitted, and its codes are refused. */
  lemma EqualFrequenciesRefused(rest: seq<byte>, t: CodeTable)
    requires var r := ParseTable(PrintTable(OnesAnd(1)) + rest); r.Some? && TableOf(r.value.freq, t)
    ensures t.Valid() && Refused(t)
  {
    PrintedTableRead(OnesAnd(1), rest);
    var freq := ParseTable(PrintTable(OnesAnd(1)) + rest).value.freq;
    OnesAndTotal(1, freq);
    NoHeavySymbolRefused(freq, t);
  }

  /** One frequency of 255 among ones: it is left over as a root, and the other 256 codes are accepted. */
  lemma HeavyFrequencyAccepted(rest: seq<byte>, t: CodeTable)
    requires var r := ParseTable(PrintTable(OnesAnd(255)) + rest); r.Some? && TableOf(r.value.freq, t)
    ensures t.Valid() && !Refused(t) && |t.lens| == SYMBOLS && t.lens[255] == 0
  {
    PrintedTableRead(OnesAnd(255), rest);
    var freq := ParseTable(PrintTable(OnesAnd(255)) + rest).value.freq;
    OnesAndTotal(255, freq);
    var c, ms := TableRun(freq, t);
    AllOccur(freq);
    HeavyIsLeftOver(freq, c, ms, 255);
    RootLeft(freq, c, ms, 255);
    SymbolCode(t, c, 255);
    AcceptedIff(freq, t);
  }
}
