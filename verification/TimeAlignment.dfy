/**
  * Lining up the clocks of two traces: the signed difference of their start times, the choice of the
  * difference to use, and what shifting does to the addon's timestamps.
  */
module TimeAlignment {
  import opened WireFormat
  import opened TraceModel
  import opened TraceMerge

  const INT64_MAX := 0x7FFF_FFFF_FFFF_FFFF

  /** The difference of two unsigned times, clamped to the signed range. */
  function SignedDifference(a: u64, b: u64): (d: i64)
    ensures -INT64_MAX <= d <= INT64_MAX
  {
    var abs := if a > b then a - b else b - a;
    var clamped := if abs < INT64_MAX then abs else INT64_MAX;
    if a > b then clamped else -clamped
  }

  predicate CloseEnough(a: u64, b: u64) {
    -INT64_MAX <= a - b <= INT64_MAX
  }

  /** Adding the difference gives the first time, and subtracting it the second, exactly when it was not clamped. */
  lemma {:induction false} ShiftLands(a: u64, b: u64)
    ensures Shift(b, SignedDifference(a, b)) == a <==> CloseEnough(a, b)
    ensures Shift(a, -SignedDifference(a, b)) == b <==> CloseEnough(a, b)
  {
    var d := SignedDifference(a, b);
    if CloseEnough(a, b) {
      assert d == a - b;
    } else if a > b {
      assert d == INT64_MAX;
      assert Shift(b, d) == b + INT64_MAX;
      assert Shift(a, -d) == a - INT64_MAX;
    } else {
      assert d == -INT64_MAX;
      assert Shift(b, d) == b - INT64_MAX;
      assert Shift(a, -d) == a + INT64_MAX;
    }
  }

  /** The first packet timestamp, or 0 if there is none. */
  function FirstTimestamp(ps: Trace): u64 {
    if ps == [] then 0 else if ps[0].timestamp.Present? then ps[0].timestamp.value else FirstTimestamp(ps[1..])
  }

  /** Packet i has a timestamp and no packet before it has one. */
  predicate FirstAt(ps: Trace, i: nat) {
    i < |ps| && ps[i].timestamp.Present? && forall k :: 0 <= k < i ==> ps[k].timestamp.Absent?
  }

  lemma {:induction false} FirstTimestampIs(ps: Trace)
    ensures forall i: nat :: FirstAt(ps, i) ==> FirstTimestamp(ps) == ps[i].timestamp.value
    ensures (forall i :: 0 <= i < |ps| ==> ps[i].timestamp.Absent?) ==> FirstTimestamp(ps) == 0
  {
    if ps != [] && ps[0].timestamp.Absent? {
      var rest := ps[1..];
      FirstTimestampIs(rest);
      assert forall k :: 0 <= k < |rest| ==> rest[k] == ps[k + 1];
      forall i: nat | FirstAt(ps, i) ensures FirstTimestamp(ps) == ps[i].timestamp.value {
        assert FirstAt(rest, i - 1);
      }
    }
  }

  /** A trace that does not parse starts at 0. */
  function StartTime(trace: Opt<Trace>): u64 {
    if trace.Present? then FirstTimestamp(trace.value) else 0
  }

  method GetTraceStartTime(trace: Opt<Trace>) returns (t: u64)
    ensures t == StartTime(trace)
    ensures trace.Present? ==> forall i: nat :: FirstAt(trace.value, i) ==> t == trace.value[i].timestamp.value
    ensures trace.Absent? || (forall p <- trace.value :: p.timestamp.Absent?) ==> t == 0
  {
    if trace.Absent? {
      return 0;
    }
    var ps := trace.value;
    FirstTimestampIs(ps);
    assert ps[0..] == ps;
    for i := 0 to |ps|
      invariant FirstTimestamp(ps) == FirstTimestamp(ps[i..])
    {
      if ps[i].timestamp.Present? {
        return ps[i].timestamp.value;
      }
      assert ps[i..][1..] == ps[i + 1..];
    }
    return 0;
  }

  datatype CombineConfig = CombineConfig(
    useGuestAbsoluteTime: bool, guestClockBootTimeNs: u64,
    useGuestTimeDiff: bool, guestClockTimeDiffNs: i64,
    mergeGuestIntoHost: bool)

  /** An absolute guest time overrides an explicit difference; with neither, the start times are compared. */
  function GuestTimeDiff(c: CombineConfig, guest: Opt<Trace>, host: Opt<Trace>): i64 {
    if c.useGuestAbsoluteTime then SignedDifference(c.guestClockBootTimeNs, StartTime(host))
    else if c.useGuestTimeDiff then c.guestClockTimeDiffNs
    else SignedDifference(StartTime(guest), StartTime(host))
  }

  /** Negating the difference can overflow only for an explicit difference of INT64_MIN. */
  lemma {:induction false} NegationOverflows(c: CombineConfig, guest: Opt<Trace>, host: Opt<Trace>)
    ensures GuestTimeDiff(c, guest, host) == -INT64_MAX - 1 <==>
            !c.useGuestAbsoluteTime && c.useGuestTimeDiff && c.guestClockTimeDiffNs == -INT64_MAX - 1
  {
  }

  /**
    * The choice of difference and direction around the merge. An explicit difference of INT64_MIN cannot
    * be negated.
    */
  method CombineTraces(c: CombineConfig, guestBytes: seq<byte>, hostBytes: seq<byte>,
                       parse: seq<byte> -> Opt<Trace>, serialize: Trace -> seq<byte>, gen: nat -> u64)
    returns (combined: seq<byte>)
    requires c.mergeGuestIntoHost && c.useGuestTimeDiff && !c.useGuestAbsoluteTime ==>
               c.guestClockTimeDiffNs != -INT64_MAX - 1
    ensures var d := GuestTimeDiff(c, parse(guestBytes), parse(hostBytes));
            combined == if c.mergeGuestIntoHost then Combined(hostBytes, guestBytes, -d, parse, serialize, gen)
                        else Combined(guestBytes, hostBytes, d, parse, serialize, gen)
  {
    hide Combined, StartTime, FirstTimestamp, SignedDifference;
    var diff: i64;
    if c.useGuestAbsoluteTime {
      var hostStart := GetTraceStartTime(parse(hostBytes));
      diff := SignedDifference(c.guestClockBootTimeNs, hostStart);
    } else if c.useGuestTimeDiff {
      diff := c.guestClockTimeDiffNs;
    } else {
      var guestStart := GetTraceStartTime(parse(guestBytes));
      var hostStart := GetTraceStartTime(parse(hostBytes));
      diff := SignedDifference(guestStart, hostStart);
    }
    if c.mergeGuestIntoHost {
      combined := ConstructCombinedTrace(hostBytes, guestBytes, -diff, parse, serialize, gen);
    } else {
      combined := ConstructCombinedTrace(guestBytes, hostBytes, diff, parse, serialize, gen);
    }
  }

  // ---------- The addon's timestamps ----------

  function Timestamps(p: TracePacket): seq<u64> {
    OptSeq(p.timestamp)
    + (if p.ftrace.Present? then FlatMap(p.ftrace.value.events, (e: FtraceEvent) => OptSeq(e.timestamp)) else [])
  }

  lemma {:induction false} FlatMapTimes(es: seq<FtraceEvent>, s: u64 -> u64)
    ensures FlatMap(MapSeq(es, (e: FtraceEvent) => e.(timestamp := MapOpt(e.timestamp, s))),
        (e: FtraceEvent) => OptSeq(e.timestamp))
         == MapSeq(FlatMap(es, (e: FtraceEvent) => OptSeq(e.timestamp)), s)
  {
    var g := (e: FtraceEvent) => e.(timestamp := MapOpt(e.timestamp, s));
    var t := (e: FtraceEvent) => OptSeq(e.timestamp);
    if es != [] {
      assert MapSeq(es, g)[1..] == MapSeq(es[1..], g);
      FlatMapTimes(es[1..], s);
      MapSeqConcat(t(es[0]), FlatMap(es[1..], t), s);
      OptMapped(es[0].timestamp, s);
    }
  }

  lemma {:induction false} TimesOfMapTimestamps(p: TracePacket, s: u64 -> u64)
    ensures Timestamps(MapTimestamps(p, s)) == MapSeq(Timestamps(p), s)
  {
    hide FlatMap;
    OptMapped(p.timestamp, s);
    if p.ftrace.Present? {
      FlatMapTimes(p.ftrace.value.events, s);
      MapSeqConcat(OptSeq(p.timestamp), FlatMap(p.ftrace.value.events, (e: FtraceEvent) => OptSeq(e.timestamp)), s);
    }
  }

  lemma {:induction false} TimesOfMapIds(p: TracePacket, f: IdFunctions)
    ensures Timestamps(MapIds(p, f)) == Timestamps(p)
  {
    hide FlatMap, MapTree, MapSched;
    if p.ftrace.Present? {
      FlatMapSame(p.ftrace.value.events, e => MapEvent(e, f.pid), (e: FtraceEvent) => OptSeq(e.timestamp));
    }
  }

  lemma {:induction false} TimesOfMapUuids(p: TracePacket, s: u64 -> u64)
    ensures Timestamps(MapUuids(p, s)) == Timestamps(p) && MapUuids(p, s).timestamp == p.timestamp
  {
  }

  /** Every packet and ftrace timestamp of the addon is shifted by the same difference, and nothing else moves it. */
  lemma {:induction false} AddonTimestamps(main: Opt<Trace>, addon: Trace, diff: i64, gen: nat -> u64, i: nat)
    requires i < |addon|
    ensures |RewriteAddon(main, addon, diff, gen)| == |addon|
    ensures Timestamps(RewriteAddon(main, addon, diff, gen)[i]) == MapSeq(Timestamps(addon[i]), ts => Shift(ts, diff))
    ensures RewriteAddon(main, addon, diff, gen)[i].timestamp == MapOpt(addon[i].timestamp, ts => Shift(ts, diff))
  {
    hide MapUuids, BuildMap, MaximaOf, Timestamps;
    var f := OffsetBy(MaximaOf(main));
    var shifted := ShiftTrace(MapSeq(addon, p => Cleared(p)), diff);
    var m := BuildMap(shifted, f, gen);
    assert Timestamps(Cleared(addon[i])) == Timestamps(addon[i]) by { TimesOfCleared(addon[i]); }
    TimesOfMapTimestamps(Cleared(addon[i]), ts => Shift(ts, diff));
    TimesOfMapIds(shifted[i], f);
    TimesOfMapUuids(MapIds(shifted[i], f), u => Rename(m, u));
  }

  lemma {:induction false} TimesOfCleared(p: TracePacket)
    ensures Timestamps(Cleared(p)) == Timestamps(p)
  {
  }

  /** Differences are kept modulo 2^64, and the order when neither timestamp wraps. */
  lemma {:induction false} ShiftKeepsDifferences(a: u64, b: u64, diff: i64)
    ensures (Shift(a, diff) - Shift(b, diff)) % U64 == (a - b) % U64
    ensures 0 <= a + diff < U64 && 0 <= b + diff < U64 ==> (Shift(a, diff) <= Shift(b, diff) <==> a <= b)
  {
    ShiftCases(a, diff);
    ShiftCases(b, diff);
    var k := (Shift(a, diff) - Shift(b, diff)) - (a - b);
    assert k == -2 * U64 || k == -U64 || k == 0 || k == U64 || k == 2 * U64;
  }

  lemma {:induction false} ShiftCases(a: u64, diff: i64)
    ensures Shift(a, diff) == a + diff || Shift(a, diff) == a + diff + U64 || Shift(a, diff) == a + diff - U64
    ensures 0 <= a + diff < U64 ==> Shift(a, diff) == a + diff
  {
  }

  /** Shifting the addon leaves its first timestamp where it is. */
  lemma {:induction false} FirstStaysFirst(main: Opt<Trace>, addon: Trace, diff: i64, gen: nat -> u64, i: nat)
    requires FirstAt(addon, i)
    ensures FirstAt(RewriteAddon(main, addon, diff, gen), i)
    ensures RewriteAddon(main, addon, diff, gen)[i].timestamp == Present(Shift(addon[i].timestamp.value, diff))
  {
    hide RewriteAddon;
    forall k | 0 <= k <= i
      ensures |RewriteAddon(main, addon, diff, gen)| == |addon|
      ensures RewriteAddon(main, addon, diff, gen)[k].timestamp ==
              MapOpt(addon[k].timestamp, ts => Shift(ts, diff))
    {
      AddonTimestamps(main, addon, diff, gen, k);
    }
  }

  /**
    * With the difference taken from the start times, in either merge direction the addon's first packet
    * timestamp lands exactly on the main trace's first one, if and only if the two are at most INT64_MAX
    * apart.
    */
  lemma {:induction false} StartTimesAlign(
    c: CombineConfig, guest: Trace, host: Trace, gen: nat -> u64, g: nat, h: nat)
    requires !c.useGuestAbsoluteTime && !c.useGuestTimeDiff
    requires FirstAt(guest, g) && FirstAt(host, h)
    ensures var d := GuestTimeDiff(c, Present(guest), Present(host));
            var (main, m, addon, a, diff) :=
              if c.mergeGuestIntoHost then (host, h, guest, g, -d) else (guest, g, host, h, d);
            var after := RewriteAddon(Present(main), addon, diff, gen);
            && -INT64_MAX <= diff <= INT64_MAX
            && FirstAt(after, a)
            && (after[a].timestamp == main[m].timestamp <==>
                  CloseEnough(guest[g].timestamp.value, host[h].timestamp.value))
  {
    hide RewriteAddon, FirstTimestamp;
    var d := GuestTimeDiff(c, Present(guest), Present(host));
    FirstTimestampIs(guest);
    FirstTimestampIs(host);
    ShiftLands(guest[g].timestamp.value, host[h].timestamp.value);
    if c.mergeGuestIntoHost {
      FirstStaysFirst(Present(host), guest, -d, gen, g);
    } else {
      FirstStaysFirst(Present(guest), host, d, gen, h);
    }
  }

  /**
    * With an absolute time for the guest, a host merged into the guest starts at that time, if and only
    * if the two are at most INT64_MAX apart. In the other direction the guest is moved by the same
    * difference, so what happened at that time lands where the host starts.
    */
  lemma {:induction false} AbsoluteTimeAligns(
    c: CombineConfig, guest: Trace, host: Trace, gen: nat -> u64, h: nat)
    requires c.useGuestAbsoluteTime && FirstAt(host, h)
    ensures var d := GuestTimeDiff(c, Present(guest), Present(host));
            var start, close := host[h].timestamp, CloseEnough(c.guestClockBootTimeNs, host[h].timestamp.value);
            var after := RewriteAddon(Present(guest), host, d, gen);
            && FirstAt(after, h)
            && (after[h].timestamp == Present(c.guestClockBootTimeNs) <==> close)
            && (forall i :: 0 <= i < |guest| && guest[i].timestamp == Present(c.guestClockBootTimeNs) ==>
                  && |RewriteAddon(Present(host), guest, -d, gen)| == |guest|
                  && (RewriteAddon(Present(host), guest, -d, gen)[i].timestamp == start <==> close))
  {
    hide RewriteAddon, FirstTimestamp;
    var d := GuestTimeDiff(c, Present(guest), Present(host));
    FirstTimestampIs(host);
    ShiftLands(c.guestClockBootTimeNs, host[h].timestamp.value);
    FirstStaysFirst(Present(guest), host, d, gen, h);
    forall i | 0 <= i < |guest| && guest[i].timestamp == Present(c.guestClockBootTimeNs)
      ensures |RewriteAddon(Present(host), guest, -d, gen)| == |guest|
      ensures RewriteAddon(Present(host), guest, -d, gen)[i].timestamp == Present(Shift(c.guestClockBootTimeNs, -d))
    {
      AddonTimestamps(Present(host), guest, -d, gen, i);
    }
  }

  /** A difference that is given is the one that is used, unless an absolute time is given too. */
  lemma {:induction false} GivenDifferenceIsUsed(c: CombineConfig, guest: Opt<Trace>, host: Opt<Trace>)
    requires !c.useGuestAbsoluteTime && c.useGuestTimeDiff
    ensures GuestTimeDiff(c, guest, host) == c.guestClockTimeDiffNs
  {
  }
}
