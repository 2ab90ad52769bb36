/**
  * The parts of a trace that merging looks at: packets with timestamps, ids and track uuids.
  * A 32-bit id is kept as its bit pattern, so a negative pid is a number from 2^31 on.
  */
module TraceModel {
  import opened WireFormat

  datatype Opt<+T> = Absent | Present(value: T)

  function MapOpt<S, T>(o: Opt<S>, f: S -> T): Opt<T> {
    match o
    case Absent => Absent
    case Present(v) => Present(f(v))
  }

  /** The scheduler events whose pids are rewritten. */
  datatype SchedEvent =
    | OtherEvent
    | SchedSwitch(prevPid: Opt<u32>, nextPid: Opt<u32>)
    | SchedWakeup(pid: Opt<u32>)
    | SchedBlockedReason(pid: Opt<u32>)
    | SchedWaking(pid: Opt<u32>)
    | SchedWakeupNew(pid: Opt<u32>)
    | SchedProcessExec(pid: Opt<u32>, oldPid: Opt<u32>)
    | SchedProcessExit(pid: Opt<u32>, tgid: Opt<u32>)
    | SchedProcessFork(parentPid: Opt<u32>, childPid: Opt<u32>)
    | SchedProcessFree(pid: Opt<u32>)
    | SchedProcessHang(pid: Opt<u32>)
    | SchedProcessWait(pid: Opt<u32>)

  datatype FtraceEvent = FtraceEvent(timestamp: Opt<u64>, pid: Opt<u32>, sched: SchedEvent)
  datatype FtraceBundle = FtraceBundle(cpu: Opt<u32>, events: seq<FtraceEvent>)
  datatype TrackDescriptor = TrackDescriptor(
    uuid: Opt<u64>, parentUuid: Opt<u64>, process: Opt<Opt<u32>>, thread: Opt<ThreadDescriptor>)
  datatype ThreadDescriptor = ThreadDescriptor(pid: Opt<u32>, tid: Opt<u32>)
  datatype ProcessTree = ProcessTree(processPids: seq<Opt<u32>>, threads: seq<TreeThread>)
  datatype TreeThread = TreeThread(tid: Opt<u32>, tgid: Opt<u32>)

  datatype TracePacket = TracePacket(
    timestamp: Opt<u64>,
    trustedUid: Opt<u32>,
    sequenceId: Opt<u32>,
    defaultsTrackUuid: Opt<u64>,
    trackEventUuid: Opt<u64>,
    ftrace: Opt<FtraceBundle>,
    descriptor: Opt<TrackDescriptor>,
    processTree: Opt<ProcessTree>,
    clockSnapshot: bool,
    serviceEvent: bool)

  type Trace = seq<TracePacket>

  /** The five functions a pass applies to the ids it visits. */
  datatype IdFunctions = IdFunctions(
    uid: u32 -> u32, sequence: u32 -> u32, pid: u32 -> u32, tid: u32 -> u32, cpu: u32 -> u32)

  // ---------- Mapping over sequences ----------

  function MapSeq<S, T>(s: seq<S>, f: S -> T): (r: seq<T>)
    ensures |r| == |s| && forall i :: 0 <= i < |s| ==> r[i] == f(s[i])
  {
    seq(|s|, i requires 0 <= i < |s| => f(s[i]))
  }

  lemma {:induction false} MapSeqConcat<S, T>(a: seq<S>, b: seq<S>, f: S -> T)
    ensures MapSeq(a + b, f) == MapSeq(a, f) + MapSeq(b, f)
  {
  }

  // ---------- Rewriting ids ----------

  /** Inside scheduler events a pid 0 is not passed to the function. */
  function MapNonZero(o: Opt<u32>, f: u32 -> u32): Opt<u32> {
    if o == Present(0) then o else MapOpt(o, f)
  }

  function MapSched(e: SchedEvent, f: u32 -> u32): SchedEvent {
    match e
    case OtherEvent => e
    case SchedSwitch(p, n) => SchedSwitch(MapNonZero(p, f), MapNonZero(n, f))
    case SchedWakeup(p) => SchedWakeup(MapNonZero(p, f))
    case SchedBlockedReason(p) => SchedBlockedReason(MapNonZero(p, f))
    case SchedWaking(p) => SchedWaking(MapNonZero(p, f))
    case SchedWakeupNew(p) => SchedWakeupNew(MapNonZero(p, f))
    case SchedProcessExec(p, o) => SchedProcessExec(MapNonZero(p, f), MapNonZero(o, f))
    case SchedProcessExit(p, t) => SchedProcessExit(MapNonZero(p, f), MapNonZero(t, f))
    case SchedProcessFork(p, c) => SchedProcessFork(MapNonZero(p, f), MapNonZero(c, f))
    case SchedProcessFree(p) => SchedProcessFree(MapNonZero(p, f))
    case SchedProcessHang(p) => SchedProcessHang(MapNonZero(p, f))
    case SchedProcessWait(p) => SchedProcessWait(MapNonZero(p, f))
  }

  function MapEvent(e: FtraceEvent, f: u32 -> u32): FtraceEvent {
    e.(pid := MapOpt(e.pid, f), sched := MapSched(e.sched, f))
  }

  function MapBundle(b: FtraceBundle, f: IdFunctions): FtraceBundle {
    FtraceBundle(MapOpt(b.cpu, f.cpu), MapSeq(b.events, e => MapEvent(e, f.pid)))
  }

  /** Thread-descriptor tids are not visited. */
  function MapDescriptor(d: TrackDescriptor, f: IdFunctions): TrackDescriptor {
    d.(process := MapOpt(d.process, p => MapOpt(p, f.pid)),
       thread := MapOpt(d.thread, (t: ThreadDescriptor) => t.(pid := MapOpt(t.pid, f.pid))))
  }

  function MapTree(t: ProcessTree, f: IdFunctions): ProcessTree {
    ProcessTree(MapSeq(t.processPids, p => MapOpt(p, f.pid)),
                MapSeq(t.threads, (th: TreeThread) => TreeThread(MapOpt(th.tid, f.tid), MapOpt(th.tgid, f.pid))))
  }

  function MapIds(p: TracePacket, f: IdFunctions): TracePacket {
    p.(trustedUid := MapOpt(p.trustedUid, f.uid),
       sequenceId := MapOpt(p.sequenceId, f.sequence),
       ftrace := MapOpt(p.ftrace, b => MapBundle(b, f)),
       descriptor := MapOpt(p.descriptor, d => MapDescriptor(d, f)),
       processTree := MapOpt(p.processTree, t => MapTree(t, f)))
  }

  // ---------- Visited ids ----------

  function OptSeq<T>(o: Opt<T>): seq<T> {
    if o.Present? then [o.value] else []
  }

  function SchedPids(e: SchedEvent): seq<u32> {
    match e
    case OtherEvent => []
    case SchedSwitch(p, n) => OptSeq(p) + OptSeq(n)
    case SchedWakeup(p) => OptSeq(p)
    case SchedBlockedReason(p) => OptSeq(p)
    case SchedWaking(p) => OptSeq(p)
    case SchedWakeupNew(p) => OptSeq(p)
    case SchedProcessExec(p, o) => OptSeq(p) + OptSeq(o)
    case SchedProcessExit(p, t) => OptSeq(p) + OptSeq(t)
    case SchedProcessFork(p, c) => OptSeq(p) + OptSeq(c)
    case SchedProcessFree(p) => OptSeq(p)
    case SchedProcessHang(p) => OptSeq(p)
    case SchedProcessWait(p) => OptSeq(p)
  }

  function FlatMap<S, T>(s: seq<S>, f: S -> seq<T>): seq<T> {
    if s == [] then [] else f(s[0]) + FlatMap(s[1..], f)
  }

  function EventPids(e: FtraceEvent): seq<u32> {
    OptSeq(e.pid) + SchedPids(e.sched)
  }

  function DescriptorPids(d: TrackDescriptor): seq<u32> {
    (if d.process.Present? then OptSeq(d.process.value) else [])
    + (if d.thread.Present? then OptSeq(d.thread.value.pid) else [])
  }

  function TreePids(t: ProcessTree): seq<u32> {
    FlatMap(t.processPids, p => OptSeq(p)) + FlatMap(t.threads, (th: TreeThread) => OptSeq(th.tgid))
  }

  function Pids(p: TracePacket): seq<u32> {
    (if p.ftrace.Present? then FlatMap(p.ftrace.value.events, e => EventPids(e)) else [])
    + (if p.descriptor.Present? then DescriptorPids(p.descriptor.value) else [])
    + (if p.processTree.Present? then TreePids(p.processTree.value) else [])
  }

  function Tids(p: TracePacket): seq<u32> {
    if p.processTree.Present? then FlatMap(p.processTree.value.threads, (th: TreeThread) => OptSeq(th.tid)) else []
  }

  function Cpus(p: TracePacket): seq<u32> {
    if p.ftrace.Present? then OptSeq(p.ftrace.value.cpu) else []
  }

  function Uids(p: TracePacket): seq<u32> { OptSeq(p.trustedUid) }

  function SequenceIds(p: TracePacket): seq<u32> { OptSeq(p.sequenceId) }

  datatype IdSpace = UidSpace | SequenceSpace | PidSpace | TidSpace | CpuSpace

  function IdsOf(space: IdSpace, p: TracePacket): seq<u32> {
    match space
    case UidSpace => Uids(p)
    case SequenceSpace => SequenceIds(p)
    case PidSpace => Pids(p)
    case TidSpace => Tids(p)
    case CpuSpace => Cpus(p)
  }

  function AllIds(space: IdSpace, ps: Trace): seq<u32> {
    FlatMap(ps, (p: TracePacket) => IdsOf(space, p))
  }

  function FunctionOf(space: IdSpace, f: IdFunctions): u32 -> u32 {
    match space
    case UidSpace => f.uid
    case SequenceSpace => f.sequence
    case PidSpace => f.pid
    case TidSpace => f.tid
    case CpuSpace => f.cpu
  }

  // ---------- Where the ids stand ----------

  predicate SchedPid(e: SchedEvent, x: u32) {
    match e
    case OtherEvent => false
    case SchedSwitch(prevPid, nextPid) => prevPid == Present(x) || nextPid == Present(x)
    case SchedWakeup(pid) => pid == Present(x)
    case SchedBlockedReason(pid) => pid == Present(x)
    case SchedWaking(pid) => pid == Present(x)
    case SchedWakeupNew(pid) => pid == Present(x)
    case SchedProcessExec(pid, oldPid) => pid == Present(x) || oldPid == Present(x)
    case SchedProcessExit(pid, tgid) => pid == Present(x) || tgid == Present(x)
    case SchedProcessFork(parentPid, childPid) => parentPid == Present(x) || childPid == Present(x)
    case SchedProcessFree(pid) => pid == Present(x)
    case SchedProcessHang(pid) => pid == Present(x)
    case SchedProcessWait(pid) => pid == Present(x)
  }

  predicate DescriptorPid(d: TrackDescriptor, x: u32) {
    d.process == Present(Present(x)) || (d.thread.Present? && d.thread.value.pid == Present(x))
  }

  /** Some field of the packet holds the id. */
  ghost predicate IdIn(space: IdSpace, p: TracePacket, x: u32) {
    match space
    case UidSpace => p.trustedUid == Present(x)
    case SequenceSpace => p.sequenceId == Present(x)
    case PidSpace =>
      || (p.ftrace.Present? && exists e <- p.ftrace.value.events :: e.pid == Present(x) || SchedPid(e.sched, x))
      || (p.descriptor.Present? && DescriptorPid(p.descriptor.value, x))
      || (p.processTree.Present? && Present(x) in p.processTree.value.processPids)
      || (p.processTree.Present? && exists th <- p.processTree.value.threads :: th.tgid == Present(x))
    case TidSpace => p.processTree.Present? && exists th <- p.processTree.value.threads :: th.tid == Present(x)
    case CpuSpace => p.ftrace.Present? && p.ftrace.value.cpu == Present(x)
  }

  lemma {:induction false} FlatMapMember<S, T>(s: seq<S>, f: S -> seq<T>, x: T)
    ensures x in FlatMap(s, f) <==> exists a <- s :: x in f(a)
  {
    if s != [] {
      FlatMapMember(s[1..], f, x);
      assert s == [s[0]] + s[1..];
    }
  }

  lemma {:induction false} SchedPidsAre(e: SchedEvent, x: u32)
    ensures x in SchedPids(e) <==> SchedPid(e, x)
  {
  }

  lemma {:induction false} BundlePidsAre(b: FtraceBundle, x: u32)
    ensures x in FlatMap(b.events, e => EventPids(e)) <==>
            exists e <- b.events :: e.pid == Present(x) || SchedPid(e.sched, x)
  {
    hide SchedPids, SchedPid;
    FlatMapMember(b.events, e => EventPids(e), x);
    forall e | e in b.events ensures x in EventPids(e) <==> e.pid == Present(x) || SchedPid(e.sched, x) {
      SchedPidsAre(e.sched, x);
    }
  }

  lemma {:induction false} TreeIdsAre(t: ProcessTree, x: u32)
    ensures x in TreePids(t) <==> Present(x) in t.processPids || exists th <- t.threads :: th.tgid == Present(x)
    ensures x in FlatMap(t.threads, (th: TreeThread) => OptSeq(th.tid)) <==>
            exists th <- t.threads :: th.tid == Present(x)
  {
    FlatMapMember(t.processPids, p => OptSeq(p), x);
    FlatMapMember(t.threads, (th: TreeThread) => OptSeq(th.tgid), x);
    FlatMapMember(t.threads, (th: TreeThread) => OptSeq(th.tid), x);
  }

  /** The visited ids of a packet are exactly the ids that stand in its fields. */
  lemma {:induction false} VisitedExactly(space: IdSpace, p: TracePacket, x: u32)
    ensures x in IdsOf(space, p) <==> IdIn(space, p, x)
  {
    hide FlatMap, EventPids, SchedPid, TreePids;
    if p.ftrace.Present? {
      BundlePidsAre(p.ftrace.value, x);
    }
    if p.processTree.Present? {
      TreeIdsAre(p.processTree.value, x);
    }
  }

  lemma {:induction false} AllVisited(space: IdSpace, ps: Trace, x: u32)
    ensures x in AllIds(space, ps) <==> exists p <- ps :: IdIn(space, p, x)
  {
    hide IdsOf, IdIn;
    FlatMapMember(ps, (p: TracePacket) => IdsOf(space, p), x);
    forall p | p in ps ensures x in IdsOf(space, p) <==> IdIn(space, p, x) {
      VisitedExactly(space, p, x);
    }
  }

  ghost predicate AgreeOn(space: IdSpace, p: TracePacket, f: IdFunctions, g: IdFunctions) {
    forall x: u32 :: IdIn(space, p, x) ==> FunctionOf(space, f)(x) == FunctionOf(space, g)(x)
  }

  /** Rewriting asks its functions for the ids that stand in the packet and for nothing else. */
  lemma {:induction false} OnlyVisitedMatter(p: TracePacket, f: IdFunctions, g: IdFunctions)
    requires forall space :: AgreeOn(space, p, f, g)
    ensures MapIds(p, f) == MapIds(p, g)
  {
    SimpleIdsAgree(p, f, g);
    BundlesAgree(p, f, g);
    DescriptorsAgree(p, f, g);
    TreesAgree(p, f, g);
    hide MapBundle, MapDescriptor, MapTree, AgreeOn;
  }

  lemma {:induction false} SimpleIdsAgree(p: TracePacket, f: IdFunctions, g: IdFunctions)
    requires AgreeOn(UidSpace, p, f, g) && AgreeOn(SequenceSpace, p, f, g)
    ensures MapOpt(p.trustedUid, f.uid) == MapOpt(p.trustedUid, g.uid)
    ensures MapOpt(p.sequenceId, f.sequence) == MapOpt(p.sequenceId, g.sequence)
  {
    assert p.trustedUid.Present? ==> IdIn(UidSpace, p, p.trustedUid.value);
    assert p.sequenceId.Present? ==> IdIn(SequenceSpace, p, p.sequenceId.value);
  }

  lemma {:induction false} BundlesAgree(p: TracePacket, f: IdFunctions, g: IdFunctions)
    requires AgreeOn(PidSpace, p, f, g) && AgreeOn(CpuSpace, p, f, g)
    ensures p.ftrace.Present? ==> MapBundle(p.ftrace.value, f) == MapBundle(p.ftrace.value, g)
  {
    hide SchedPid, MapSched;
    if p.ftrace.Present? {
      var b := p.ftrace.value;
      assert b.cpu.Present? ==> IdIn(CpuSpace, p, b.cpu.value);
      forall i | 0 <= i < |b.events| ensures MapEvent(b.events[i], f.pid) == MapEvent(b.events[i], g.pid) {
        var e := b.events[i];
        assert e in b.events;
        assert forall x: u32 :: e.pid == Present(x) || SchedPid(e.sched, x) ==> IdIn(PidSpace, p, x);
        SameSched(e.sched, f.pid, g.pid);
      }
      assert MapBundle(b, f).events == MapBundle(b, g).events;
    }
  }

  lemma {:induction false} DescriptorsAgree(p: TracePacket, f: IdFunctions, g: IdFunctions)
    requires AgreeOn(PidSpace, p, f, g)
    ensures p.descriptor.Present? ==> MapDescriptor(p.descriptor.value, f) == MapDescriptor(p.descriptor.value, g)
  {
    if p.descriptor.Present? {
      var d := p.descriptor.value;
      if d.process.Present? && d.process.value.Present? {
        assert IdIn(PidSpace, p, d.process.value.value);
      }
      if d.thread.Present? && d.thread.value.pid.Present? {
        assert IdIn(PidSpace, p, d.thread.value.pid.value);
      }
    }
  }

  lemma {:induction false} TreesAgree(p: TracePacket, f: IdFunctions, g: IdFunctions)
    requires AgreeOn(PidSpace, p, f, g) && AgreeOn(TidSpace, p, f, g)
    ensures p.processTree.Present? ==> MapTree(p.processTree.value, f) == MapTree(p.processTree.value, g)
  {
    if p.processTree.Present? {
      var t := p.processTree.value;
      forall i | 0 <= i < |t.processPids|
        ensures MapOpt(t.processPids[i], f.pid) == MapOpt(t.processPids[i], g.pid) {
        assert t.processPids[i] in t.processPids;
        assert t.processPids[i].Present? ==> IdIn(PidSpace, p, t.processPids[i].value);
      }
      forall i | 0 <= i < |t.threads|
        ensures MapOpt(t.threads[i].tid, f.tid) == MapOpt(t.threads[i].tid, g.tid)
        ensures MapOpt(t.threads[i].tgid, f.pid) == MapOpt(t.threads[i].tgid, g.pid) {
        assert t.threads[i] in t.threads;
        assert t.threads[i].tid.Present? ==> IdIn(TidSpace, p, t.threads[i].tid.value);
        assert t.threads[i].tgid.Present? ==> IdIn(PidSpace, p, t.threads[i].tgid.value);
      }
      assert MapTree(t, f).processPids == MapTree(t, g).processPids;
      assert MapTree(t, f).threads == MapTree(t, g).threads;
    }
  }

  lemma {:induction false} SameSched(e: SchedEvent, f: u32 -> u32, g: u32 -> u32)
    requires forall x: u32 :: SchedPid(e, x) ==> f(x) == g(x)
    ensures MapSched(e, f) == MapSched(e, g)
  {
    match e
    case OtherEvent =>
    case SchedSwitch(p, n) => SameOpt(e, p, f, g); SameOpt(e, n, f, g);
    case SchedWakeup(p) => SameOpt(e, p, f, g);
    case SchedBlockedReason(p) => SameOpt(e, p, f, g);
    case SchedWaking(p) => SameOpt(e, p, f, g);
    case SchedWakeupNew(p) => SameOpt(e, p, f, g);
    case SchedProcessExec(p, o) => SameOpt(e, p, f, g); SameOpt(e, o, f, g);
    case SchedProcessExit(p, t) => SameOpt(e, p, f, g); SameOpt(e, t, f, g);
    case SchedProcessFork(p, c) => SameOpt(e, p, f, g); SameOpt(e, c, f, g);
    case SchedProcessFree(p) => SameOpt(e, p, f, g);
    case SchedProcessHang(p) => SameOpt(e, p, f, g);
    case SchedProcessWait(p) => SameOpt(e, p, f, g);
  }

  lemma {:induction false} SameOpt(e: SchedEvent, o: Opt<u32>, f: u32 -> u32, g: u32 -> u32)
    requires o.Present? ==> SchedPid(e, o.value)
    requires forall x: u32 :: SchedPid(e, x) ==> f(x) == g(x)
    ensures MapNonZero(o, f) == MapNonZero(o, g)
  {
    hide SchedPid;
  }

  // ---------- Rewriting maps the visited ids one by one ----------

  lemma {:induction false} FlatMapOfMap<S>(s: seq<S>, g: S -> S, ids: S -> seq<u32>, f: u32 -> u32)
    requires forall i :: 0 <= i < |s| ==> ids(g(s[i])) == MapSeq(ids(s[i]), f)
    ensures FlatMap(MapSeq(s, g), ids) == MapSeq(FlatMap(s, ids), f)
  {
    if s != [] {
      assert MapSeq(s, g)[1..] == MapSeq(s[1..], g);
      FlatMapOfMap(s[1..], g, ids, f);
      MapSeqConcat(ids(s[0]), FlatMap(s[1..], ids), f);
    }
  }

  lemma {:induction false} SchedPidsMapped(e: SchedEvent, f: u32 -> u32)
    requires f(0) == 0
    ensures SchedPids(MapSched(e, f)) == MapSeq(SchedPids(e), f)
  {
    hide MapSeq, OptSeq, MapNonZero;
    match e
    case OtherEvent => NoIdMapped(f);
    case SchedSwitch(p, n) => TwoIdsMapped(p, n, f);
    case SchedProcessExec(p, o) => TwoIdsMapped(p, o, f);
    case SchedProcessExit(p, t) => TwoIdsMapped(p, t, f);
    case SchedProcessFork(p, c) => TwoIdsMapped(p, c, f);
    case SchedWakeup(p) => OneIdMapped(p, f);
    case SchedBlockedReason(p) => OneIdMapped(p, f);
    case SchedWaking(p) => OneIdMapped(p, f);
    case SchedWakeupNew(p) => OneIdMapped(p, f);
    case SchedProcessFree(p) => OneIdMapped(p, f);
    case SchedProcessHang(p) => OneIdMapped(p, f);
    case SchedProcessWait(p) => OneIdMapped(p, f);
  }

  lemma {:induction false} NoIdMapped(f: u32 -> u32)
    ensures MapSeq<u32, u32>([], f) == []
  {
  }

  lemma {:induction false} OneIdMapped(o: Opt<u32>, f: u32 -> u32)
    requires f(0) == 0
    ensures OptSeq(MapNonZero(o, f)) == MapSeq(OptSeq(o), f)
  {
  }

  lemma {:induction false} TwoIdsMapped(a: Opt<u32>, b: Opt<u32>, f: u32 -> u32)
    requires f(0) == 0
    ensures OptSeq(MapNonZero(a, f)) + OptSeq(MapNonZero(b, f)) == MapSeq(OptSeq(a) + OptSeq(b), f)
  {
    hide MapSeq, OptSeq, MapNonZero;
    OneIdMapped(a, f);
    OneIdMapped(b, f);
    MapSeqConcat(OptSeq(a), OptSeq(b), f);
  }

  lemma {:induction false} BundlePidsMapped(b: FtraceBundle, f: IdFunctions)
    requires f.pid(0) == 0
    ensures FlatMap(MapBundle(b, f).events, e => EventPids(e)) == MapSeq(FlatMap(b.events, e => EventPids(e)), f.pid)
  {
    forall i | 0 <= i < |b.events|
      ensures EventPids(MapEvent(b.events[i], f.pid)) == MapSeq(EventPids(b.events[i]), f.pid) {
      SchedPidsMapped(b.events[i].sched, f.pid);
    }
    FlatMapOfMap(b.events, e => MapEvent(e, f.pid), e => EventPids(e), f.pid);
  }

  lemma {:induction false} TreeIdsMapped(t: ProcessTree, f: IdFunctions)
    ensures TreePids(MapTree(t, f)) == MapSeq(TreePids(t), f.pid)
    ensures FlatMap(MapTree(t, f).threads, (th: TreeThread) => OptSeq(th.tid))
         == MapSeq(FlatMap(t.threads, (th: TreeThread) => OptSeq(th.tid)), f.tid)
  {
    var g := (th: TreeThread) => TreeThread(MapOpt(th.tid, f.tid), MapOpt(th.tgid, f.pid));
    FlatMapOfMap(t.processPids, p => MapOpt(p, f.pid), p => OptSeq(p), f.pid);
    FlatMapOfMap(t.threads, g, (th: TreeThread) => OptSeq(th.tgid), f.pid);
    FlatMapOfMap(t.threads, g, (th: TreeThread) => OptSeq(th.tid), f.tid);
    MapSeqConcat(FlatMap(t.processPids, p => OptSeq(p)), FlatMap(t.threads, (th: TreeThread) => OptSeq(th.tgid)),
        f.pid);
  }

  lemma {:induction false} PidsMapped(p: TracePacket, f: IdFunctions)
    requires f.pid(0) == 0
    ensures Pids(MapIds(p, f)) == MapSeq(Pids(p), f.pid)
  {
    hide FlatMap, SchedPids;
    var a := if p.ftrace.Present? then FlatMap(p.ftrace.value.events, e => EventPids(e)) else [];
    var b := if p.descriptor.Present? then DescriptorPids(p.descriptor.value) else [];
    var c := if p.processTree.Present? then TreePids(p.processTree.value) else [];
    MapSeqConcat(a, b, f.pid);
    MapSeqConcat(a + b, c, f.pid);
    if p.ftrace.Present? {
      BundlePidsMapped(p.ftrace.value, f);
    }
    if p.processTree.Present? {
      TreeIdsMapped(p.processTree.value, f);
    }
    if p.descriptor.Present? {
      DescriptorPidsMapped(p.descriptor.value, f);
    }
  }

  lemma {:induction false} DescriptorPidsMapped(d: TrackDescriptor, f: IdFunctions)
    ensures DescriptorPids(MapDescriptor(d, f)) == MapSeq(DescriptorPids(d), f.pid)
  {
  }

  /** In each id space, the ids of a rewritten packet are the images of its ids, in order. */
  lemma {:induction false} IdsMapped(space: IdSpace, p: TracePacket, f: IdFunctions)
    requires f.pid(0) == 0
    ensures IdsOf(space, MapIds(p, f)) == MapSeq(IdsOf(space, p), FunctionOf(space, f))
  {
    match space
    case PidSpace => PidsMapped(p, f);
    case TidSpace =>
      if p.processTree.Present? {
        TreeIdsMapped(p.processTree.value, f);
      }
    case _ =>
  }

  lemma {:induction false} TraceIdsMapped(space: IdSpace, ps: Trace, f: IdFunctions)
    requires f.pid(0) == 0
    ensures AllIds(space, MapSeq(ps, p => MapIds(p, f))) == MapSeq(AllIds(space, ps), FunctionOf(space, f))
  {
    hide MapIds, IdsOf;
    forall i | 0 <= i < |ps|
      ensures IdsOf(space, MapIds(ps[i], f)) == MapSeq(IdsOf(space, ps[i]), FunctionOf(space, f)) {
      IdsMapped(space, ps[i], f);
    }
    FlatMapOfMap(ps, p => MapIds(p, f), (p: TracePacket) => IdsOf(space, p), FunctionOf(space, f));
  }

  /** A pass that returns every id unchanged leaves the trace unchanged. */
  lemma {:induction false} IdentityPass(p: TracePacket, f: IdFunctions)
    requires forall x: u32 :: f.uid(x) == x && f.sequence(x) == x && f.pid(x) == x && f.tid(x) == x && f.cpu(x) == x
    ensures MapIds(p, f) == p
  {
    if p.ftrace.Present? {
      var b := p.ftrace.value;
      assert MapBundle(b, f).events == b.events;
      assert MapBundle(b, f) == b;
    }
    if p.processTree.Present? {
      var t := p.processTree.value;
      assert MapTree(t, f).processPids == t.processPids;
      assert MapTree(t, f).threads == t.threads;
    }
    if p.descriptor.Present? {
      assert MapDescriptor(p.descriptor.value, f) == p.descriptor.value;
    }
    var q := MapIds(p, f);
    assert q.trustedUid == p.trustedUid && q.sequenceId == p.sequenceId && q.ftrace == p.ftrace;
    assert q.descriptor == p.descriptor && q.processTree == p.processTree;
  }

  // ---------- Track uuids ----------

  function MapUuids(p: TracePacket, s: u64 -> u64): TracePacket {
    p.(defaultsTrackUuid := MapOpt(p.defaultsTrackUuid, s),
       trackEventUuid := MapOpt(p.trackEventUuid, s),
       descriptor := MapOpt(p.descriptor, (d: TrackDescriptor) =>
         d.(uuid := MapOpt(d.uuid, s), parentUuid := MapOpt(d.parentUuid, s))))
  }

  /** All track uuids of a packet, in the order they are rewritten. */
  function Uuids(p: TracePacket): seq<u64> {
    OptSeq(p.defaultsTrackUuid) + OptSeq(p.trackEventUuid)
    + (if p.descriptor.Present? then OptSeq(p.descriptor.value.uuid) + OptSeq(p.descriptor.value.parentUuid) else [])
  }

  /** They are the uuids that stand in its fields. */
  lemma {:induction false} UuidsExactly(p: TracePacket, u: u64)
    ensures u in Uuids(p) <==>
            || p.defaultsTrackUuid == Present(u)
            || p.trackEventUuid == Present(u)
            || (p.descriptor.Present? && p.descriptor.value.uuid == Present(u))
            || (p.descriptor.Present? && p.descriptor.value.parentUuid == Present(u))
  {
  }

  /** The uuid a descriptor is filed under; a missing one reads as 0. */
  function UuidKey(d: TrackDescriptor): u64 {
    if d.uuid.Present? then d.uuid.value else 0
  }

  predicate PidMoves(o: Opt<u32>, f: u32 -> u32) {
    o.Present? && f(o.value) != o.value
  }

  /** The packet describes a process or thread whose pid the pass changes. */
  predicate DescriptorMoves(p: TracePacket, f: IdFunctions)
    ensures DescriptorMoves(p, f) ==> p.descriptor.Present?
  {
    && p.descriptor.Present?
    && var d := p.descriptor.value;
       || (d.process.Present? && PidMoves(d.process.value, f.pid))
       || (d.thread.Present? && PidMoves(d.thread.value.pid, f.pid))
  }

  /** That is: rewriting changes the descriptor, because one of its pids is not mapped to itself. */
  lemma {:induction false} MovesExactly(p: TracePacket, f: IdFunctions)
    ensures DescriptorMoves(p, f) <==> MapIds(p, f).descriptor != p.descriptor
    ensures DescriptorMoves(p, f) <==>
            p.descriptor.Present? && exists x: u32 :: DescriptorPid(p.descriptor.value, x) && f.pid(x) != x
  {
    hide MapBundle, MapTree;
    if p.descriptor.Present? {
      var d := p.descriptor.value;
      if d.process.Present? && d.process.value.Present? {
        assert DescriptorPid(d, d.process.value.value);
      }
      if d.thread.Present? && d.thread.value.pid.Present? {
        assert DescriptorPid(d, d.thread.value.pid.value);
      }
    }
  }

  // ---------- Timestamps ----------

  function MapTimestamps(p: TracePacket, s: u64 -> u64): TracePacket {
    p.(timestamp := MapOpt(p.timestamp, s),
       ftrace := MapOpt(p.ftrace, (b: FtraceBundle) =>
         b.(events := MapSeq(b.events, (e: FtraceEvent) => e.(timestamp := MapOpt(e.timestamp, s))))))
  }
}
