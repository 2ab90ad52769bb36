/**
  * A run in which the file is read wrongly. Two threads draw the same interning id for different
  * names. Thread 0 records slices under its name until its buffer is full; the next slice goes into a
  * second buffer, and in the file the definition of thread 1 stands between the two.
  */
module SharedIdRun {
  import opened WireFormat
  import opened RecorderPackets
  import opened Recorder
  import opened FileReader
  import opened PacketReader
  import opened TrackNames
  import opened RecorderRuns
  import opened SharedIdSessions
  import Shared = SharedCounters
  import File = RecorderFile
  import Config = TraceConfiguration

  // ---------- While both threads record into their first buffers ----------

  /** The counters, whether thread 0 still has to write the start packet, and each thread's packets and steps so far. */
  datatype Stage = Stage(
    counters: Shared.Shared,
    mustStart: bool,
    packetsA: seq<Packet>,
    packetsB: seq<Packet>,
    stepsA: seq<RecorderRuns.Step>,
    stepsB: seq<RecorderRuns.Step>)

  function InBuffer(ps: seq<Packet>): File.Buffer {
    if ps == [] then File.NoBuffer else File.Buffer(ps)
  }

  /** Thread 0 counted first. */
  ghost predicate Holding(w: File.World, size: nat, st: Stage) {
    && w.size == size && w.saved == [] && w.packetsWritten == st.counters.packets
    && w.At(0) == File.Local(true, st.mustStart, InBuffer(st.packetsA), st.packetsA)
    && w.At(1) == File.Local(false, false, InBuffer(st.packetsB), st.packetsB)
    && forall t :: t > 1 ==> w.At(t) == File.Local(false, false, File.NoBuffer, [])
  }

  ghost predicate Follows(run: seq<RecorderRuns.Step>, st: Stage) {
    && Program(run, 0) == st.stepsA && Program(run, 1) == st.stepsB
    && forall t :: t > 1 ==> Program(run, t) == []
  }

  ghost predicate Reaches(size: nat, run: seq<RecorderRuns.Step>, st: Stage) {
    && RecorderRuns.Runs(size, run)
    && Counters(run) == st.counters && Holding(Buffers(size, run), size, st) && Follows(run, st)
  }

  /** A further packet fits behind these. */
  predicate Roomy(size: nat, ps: seq<Packet>) {
    |StreamBytes(ps)| + NEEDED_SPACE <= size
  }

  predicate CanTake(st: Stage, e: RecorderRuns.Step) {
    && e.t <= 1
    && match e
       case Emit(t, p) => st.counters.packets != 0 && (p == SequenceStart <==> t == 0 && st.mustStart)
       case HandOver(_) => false
       case Count(t) => st.counters.packets != 0 && !(t == 0 && st.mustStart) && st.counters.packets + 1 < U32
       case _ => Shared.Enabled(st.counters, CounterPart(e)[0]) && Shared.NoWrap(st.counters, CounterPart(e)[0])
  }

  function Take(st: Stage, e: RecorderRuns.Step): Stage {
    var c := if CounterPart(e) == [] then st.counters else Shared.Apply(st.counters, CounterPart(e)[0]);
    if e.t == 0 then
      var ps := if e.Emit? then st.packetsA + [e.p] else st.packetsA;
      Stage(c, st.mustStart && !e.Emit?, ps, st.packetsB, st.stepsA + [e], st.stepsB)
    else
      var ps := if e.Emit? then st.packetsB + [e.p] else st.packetsB;
      Stage(c, st.mustStart, st.packetsA, ps, st.stepsA, st.stepsB + [e])
  }

  lemma {:induction false} OneStep(size: nat, run: seq<RecorderRuns.Step>, e: RecorderRuns.Step)
    requires RecorderRuns.Runs(size, run)
    requires CounterPart(e) != [] ==>
               Shared.Enabled(Counters(run), CounterPart(e)[0]) && Shared.NoWrap(Counters(run), CounterPart(e)[0])
    requires FilePart(e) != [] ==>
               File.Enabled(Buffers(size, run), FilePart(e)[0]) && File.NoWrap(Buffers(size, run), FilePart(e)[0])
    ensures RecorderRuns.Runs(size, run + [e])
    ensures Counters(run + [e]) ==
            if CounterPart(e) == [] then Counters(run) else Shared.Apply(Counters(run), CounterPart(e)[0])
    ensures Buffers(size, run + [e]) ==
            if FilePart(e) == [] then Buffers(size, run) else File.Apply(Buffers(size, run), FilePart(e)[0])
  {
    hide CounterSteps, FileSteps, Shared.Enabled, Shared.NoWrap, File.Enabled, File.NoWrap;
    hide Shared.Apply, File.Apply;
    hide CounterPart, FilePart;
    assert (run + [e])[..|run|] == run;
    Projections(run + [e]);
  }

  lemma {:induction false} ProgramSnoc(run: seq<RecorderRuns.Step>, e: RecorderRuns.Step, t: Thread)
    ensures Program(run + [e], t) == if e.t == t && !e.HandOver? then Program(run, t) + [e] else Program(run, t)
  {
    assert (run + [e])[..|run|] == run;
  }

  lemma {:induction false} StillFollows(run: seq<RecorderRuns.Step>, st: Stage, e: RecorderRuns.Step)
    requires Follows(run, st) && e.t <= 1 && !e.HandOver?
    ensures Follows(run + [e], Take(st, e))
  {
    hide CounterPart, Shared.Apply, Program;
    forall t ensures Program(run + [e], t) == if e.t == t then Program(run, t) + [e] else Program(run, t) {
      ProgramSnoc(run, e, t);
    }
  }

  lemma {:induction false} StillHolds(w: File.World, size: nat, st: Stage, e: RecorderRuns.Step)
    requires Holding(w, size, st) && CanTake(st, e) && FilePart(e) != []
    requires e.Emit? ==> Roomy(size, if e.t == 0 then st.packetsA else st.packetsB)
    ensures File.Enabled(w, FilePart(e)[0]) && File.NoWrap(w, FilePart(e)[0])
    ensures Holding(File.Apply(w, FilePart(e)[0]), size, Take(st, e))
  {
    hide StreamBytes, File.Apply;
    var f := FilePart(e)[0];
    var r := File.Apply(w, f);
    File.OthersUntouched(w, f);
    File.StepsAreLocal(w, f);
    Counted(w, f);
    if e.Emit? {
      var ps := if e.t == 0 then st.packetsA else st.packetsB;
      assert InBuffer(ps).Contents() == ps && InBuffer(ps + [e.p]) == File.Buffer(ps + [e.p]);
      assert !File.Full(size, w.At(e.t).buffer);
    }
  }

  lemma {:induction false} HoldsStill(w: File.World, size: nat, st: Stage, e: RecorderRuns.Step)
    requires Holding(w, size, st) && FilePart(e) == [] && !e.HandOver?
    ensures Holding(w, size, Take(st, e))
  {
  }

  lemma {:induction false} Counted(w: File.World, f: File.Step)
    ensures File.Apply(w, f).packetsWritten == if f.Count? then (w.packetsWritten + 1) % U32 else w.packetsWritten
  {
  }

  lemma {:induction false} StageStep(size: nat, run: seq<RecorderRuns.Step>, st: Stage, e: RecorderRuns.Step)
    requires Reaches(size, run, st) && CanTake(st, e)
    requires e.Emit? ==> Roomy(size, if e.t == 0 then st.packetsA else st.packetsB)
    ensures Reaches(size, run + [e], Take(st, e))
  {
    StillFollows(run, st, e);
    if FilePart(e) != [] {
      StillHolds(Buffers(size, run), size, st, e);
    }
    hide RecorderRuns.Runs, Counters, Buffers, Follows, Holding, Roomy, File.Apply, File.Enabled, File.NoWrap;
    OneStep(size, run, e);
    if FilePart(e) == [] {
      HoldsStill(Buffers(size, run), size, st, e);
    }
  }

  // ---------- Both first calls, side by side ----------

  predicate Small(ps: seq<Packet>) {
    |ps| <= 5 && forall p <- ps :: ShortNames(p)
  }

  lemma {:induction false} StreamOfShort(ps: seq<Packet>)
    requires forall p <- ps :: ShortNames(p)
    ensures |ps| <= |StreamBytes(ps)| <= |ps| * NEEDED_SPACE
  {
    hide PacketBytes, Items, ShortNames;
    if ps != [] {
      var n := |ps| - 1;
      StreamOfShort(ps[..n]);
      assert ps[n] in ps;
      PacketFits(ps[n]);
    }
  }

  lemma {:induction false} SmallIsRoomy(size: nat, ps: seq<Packet>)
    requires 1048576 <= size && Small(ps)
    ensures Roomy(size, ps)
  {
    hide StreamBytes, ShortNames;
    StreamOfShort(ps);
  }

  lemma {:induction false} FourStages(
    size: nat, run: seq<RecorderRuns.Step>, st: Stage, es: seq<RecorderRuns.Step>, end: Stage)
    requires 1048576 <= size && Reaches(size, run, st) && GoesTo(st, es, end)
    requires Small(end.packetsA) && Small(end.packetsB)
    ensures Reaches(size, run + es, end)
  {
    hide Reaches, CanTake, Small, Take;
    var s1 := Take(st, es[0]);
    var s2 := Take(s1, es[1]);
    var s3 := Take(s2, es[2]);
    TakeGrows(s3, es[3]);
    TakeGrows(s2, es[2]);
    TakeGrows(s1, es[1]);
    TakeGrows(st, es[0]);
    SmallStep(size, run, st, es[0]);
    SmallStep(size, run + [es[0]], s1, es[1]);
    SmallStep(size, run + [es[0]] + [es[1]], s2, es[2]);
    SmallStep(size, run + [es[0]] + [es[1]] + [es[2]], s3, es[3]);
    assert run + es == run + [es[0]] + [es[1]] + [es[2]] + [es[3]];
  }

  lemma {:induction false} TakeGrows(st: Stage, e: RecorderRuns.Step)
    ensures Small(Take(st, e).packetsA) ==> Small(st.packetsA)
    ensures Small(Take(st, e).packetsB) ==> Small(st.packetsB)
  {
    hide ShortNames, CounterPart, Shared.Apply;
  }

  predicate GoesTo(st: Stage, es: seq<RecorderRuns.Step>, end: Stage) {
    |es| == 4 &&
    (var s1 := Take(st, es[0]);
     var s2 := Take(s1, es[1]);
     var s3 := Take(s2, es[2]);
     CanTake(st, es[0]) && CanTake(s1, es[1]) && CanTake(s2, es[2]) && CanTake(s3, es[3]) && end == Take(s3, es[3]))
  }

  lemma {:induction false} SmallStep(size: nat, run: seq<RecorderRuns.Step>, st: Stage, e: RecorderRuns.Step)
    requires 1048576 <= size && Reaches(size, run, st) && CanTake(st, e) && Small(st.packetsA) && Small(st.packetsB)
    ensures Reaches(size, run + [e], Take(st, e))
  {
    hide Reaches, CanTake, ShortNames, Roomy;
    SmallIsRoomy(size, st.packetsA);
    SmallIsRoomy(size, st.packetsB);
    StageStep(size, run, st, e);
  }

  /** Four steps of the two first calls, which draw the same ids. */
  function Quarter(k: nat): seq<RecorderRuns.Step>
  {
    match k
    case 0 => [Emit(0, DEFINE_A[0]), Count(1), ReadId(0), ReadId(1)]
    case 1 => [AddId(0), Emit(0, DEFINE_A[1]), AddId(1), Emit(1, ALL_B[0])]
    case 2 => [NewThreadId(0), Emit(0, DEFINE_A[2]), NewThreadId(1), Emit(1, ALL_B[1])]
    case 3 => [ReadId(0), ReadId(1), AddId(0), Emit(0, DEFINE_A[3])]
    case _ => [AddId(1), Emit(1, ALL_B[2]), Emit(1, ALL_B[3]), Emit(0, SliceA(0))]
  }

  function FirstCalls(k: nat): seq<RecorderRuns.Step> {
    if k == 0 then [Count(0)] else FirstCalls(k - 1) + Quarter(k - 1)
  }

  function CountersAt(k: nat): Shared.Shared {
    var one, two := map[0 := [1], 1 := [1]], map[0 := [1, 3], 1 := [1, 3]];
    var grants := [Shared.Grant(0, 2), Shared.Grant(1, 3)];
    match k
    case 0 => Shared.Shared(1, 1, 1, {}, map[], [], [0])
    case 1 => Shared.Shared(1, 1, 2, {0, 1}, one, [], [0])
    case 2 => Shared.Shared(3, 1, 2, {}, one, [], [0])
    case 3 => Shared.Shared(3, 3, 2, {}, one, grants, [0])
    case 4 => Shared.Shared(4, 3, 2, {1}, two, grants, [0])
    case _ => Shared.Shared(5, 3, 2, {}, two, grants, [0])
  }

  function StageAt(k: nat): Stage
    requires k <= 5
  {
    match k
    case 0 => Stage(CountersAt(0), true, [], [], FIRST_STEPS_A[..1], [])
    case 1 => Stage(CountersAt(1), false, DEFINE_A[..1], [], FIRST_STEPS_A[..3], STEPS_B[..2])
    case 2 => Stage(CountersAt(2), false, DEFINE_A[..2], ALL_B[..1], FIRST_STEPS_A[..5], STEPS_B[..4])
    case 3 => Stage(CountersAt(3), false, DEFINE_A[..3], ALL_B[..2], FIRST_STEPS_A[..7], STEPS_B[..6])
    case 4 => Stage(CountersAt(4), false, DEFINE_A, ALL_B[..2], FIRST_STEPS_A[..10], STEPS_B[..7])
    case _ => Stage(CountersAt(5), false, DEFINE_A + [SliceA(0)], ALL_B, FIRST_STEPS_A, STEPS_B)
  }

  lemma {:induction false} FirstQuarter()
    ensures GoesTo(StageAt(0), Quarter(0), StageAt(1))
  {
    assert {} + {0} == {0} && {0} + {1} == {0, 1} && [] + [1] == [1];
    assert map[][0 := [1]] == map[0 := [1]] && map[0 := [1]][1 := [1]] == map[0 := [1], 1 := [1]];
  }

  lemma {:induction false} SecondQuarter()
    ensures GoesTo(StageAt(1), Quarter(1), StageAt(2))
  {
    assert {0, 1} - {0} == {1} && {1} - {1} == {};
  }

  lemma {:induction false} ThirdQuarter()
    ensures GoesTo(StageAt(2), Quarter(2), StageAt(3))
  {
  }

  lemma {:induction false} FourthQuarter()
    ensures GoesTo(StageAt(3), Quarter(3), StageAt(4))
  {
    assert {0} + {1} == {0, 1} && {0, 1} - {0} == {1} && [1] + [3] == [1, 3];
    var s, one := CountersAt(3), map[0 := [1], 1 := [1]];
    var c1 := s.(pending := {0}, drawn := one[0 := [1, 3]]);
    var c2 := s.(pending := {0, 1}, drawn := one[0 := [1, 3]][1 := [1, 3]]);
    assert Shared.Apply(s, Shared.ReadId(0)) == c1;
    assert Shared.Apply(c1, Shared.ReadId(1)) == c2;
    assert Shared.Apply(c2, Shared.AddId(0)) == CountersAt(4);
    hide Shared.Apply, CountersAt;
  }

  lemma {:induction false} LastQuarter()
    ensures GoesTo(StageAt(4), Quarter(4), StageAt(5))
  {
    assert {1} - {1} == {};
  }

  lemma {:induction false} CountedFirst(size: nat)
    ensures Reaches(size, [Count(0)], StageAt(0))
  {
    hide RecorderRuns.Runs, Counters, Buffers;
    NothingRun(size);
    OneStep(size, [], Count(0));
    ProgramSnocAll([], Count(0));
    assert [] + [Count(0)] == [Count(0)];
    File.OthersUntouched(File.World(size, 0, map[], []), File.Count(0));
  }

  lemma {:induction false} NothingRun(size: nat)
    ensures RecorderRuns.Runs(size, []) && Counters([]) == Shared.Init()
    ensures Buffers(size, []) == File.World(size, 0, map[], [])
    ensures forall t :: Program([], t) == []
  {
  }

  lemma {:induction false} ProgramSnocAll(run: seq<RecorderRuns.Step>, e: RecorderRuns.Step)
    requires !e.HandOver?
    ensures forall t :: Program(run + [e], t) == if e.t == t then Program(run, t) + [e] else Program(run, t)
  {
    hide Program;
    forall t ensures Program(run + [e], t) == if e.t == t then Program(run, t) + [e] else Program(run, t) {
      ProgramSnoc(run, e, t);
    }
  }

  lemma {:induction false} QuarterGoes(k: nat)
    requires k < 5
    ensures GoesTo(StageAt(k), Quarter(k), StageAt(k + 1))
    ensures Small(StageAt(k + 1).packetsA) && Small(StageAt(k + 1).packetsB)
  {
    hide GoesTo;
    match k
    case 0 => FirstQuarter();
    case 1 => SecondQuarter();
    case 2 => ThirdQuarter();
    case 3 => FourthQuarter();
    case _ => LastQuarter();
  }

  lemma {:induction false} AfterFirstCalls(size: nat, k: nat)
    requires 1048576 <= size && k <= 5
    ensures Reaches(size, FirstCalls(k), StageAt(k))
  {
    hide Reaches, GoesTo, StageAt, Quarter, Small;
    if k == 0 {
      CountedFirst(size);
    } else {
      AfterFirstCalls(size, k - 1);
      QuarterGoes(k - 1);
      FourStages(size, FirstCalls(k - 1), StageAt(k - 1), Quarter(k - 1), StageAt(k));
    }
  }

  // ---------- Until the buffer of thread 0 is full ----------

  /** The first calls of both threads, and then thread 0 alone up to its n-th. */
  function RunOf(n: nat): seq<RecorderRuns.Step> {
    if n <= 1 then FirstCalls(5) else RunOf(n - 1) + LaterStepsOfA(n - 1)
  }

  function CountersAfter(n: nat): Shared.Shared
    requires 1 <= n < U32
  {
    CountersAt(5).(packets := 2 + (n - 1) / 2)
  }

  function StageAfter(n: nat): Stage
    requires 1 <= n < U32
  {
    Stage(CountersAfter(n), false, AllA(n), ALL_B, StepsOfA(n), STEPS_B)
  }

  lemma {:induction false} PacketsAreShort(n: nat)
    ensures forall p <- AllA(n) :: ShortNames(p)
    ensures forall p <- ALL_B :: ShortNames(p)
  {
    if n > 0 {
      PacketsAreShort(n - 1);
    }
  }

  lemma {:induction false} RoomBefore(size: nat, n: nat)
    requires n >= 1 && Roomy(size, AllA(n))
    ensures Roomy(size, AllA(n - 1))
  {
    hide PacketBytes;
    AllASnoc(n);
    assert (AllA(n - 1) + [SliceA(n - 1)])[..|AllA(n - 1)|] == AllA(n - 1);
  }

  lemma {:induction false} RoomIsShort(size: nat, n: nat)
    requires Roomy(size, AllA(n))
    ensures n < size
  {
    hide StreamBytes, AllA;
    PacketsAreShort(n);
    StreamOfShort(AllA(n));
  }

  lemma {:induction false} CountsAgain(size: nat, n: nat)
    requires 1 <= n < U32 - 1 && Reaches(size, RunOf(n), StageAfter(n))
    ensures var st := StageAfter(n);
            Reaches(size, RunOf(n) + Counting(n),
              Stage(CountersAfter(n + 1), false, st.packetsA, ALL_B, st.stepsA + Counting(n), STEPS_B))
  {
    hide Reaches, AllA, StepsOfA, RunOf, Roomy, Shared.Enabled, Shared.NoWrap;
    var st := StageAfter(n);
    if n % 2 == 0 {
      StageStep(size, RunOf(n), st, Count(0));
    } else {
      assert RunOf(n) + Counting(n) == RunOf(n) && st.stepsA + Counting(n) == st.stepsA;
    }
  }

  lemma {:induction false} Filling(size: nat, n: nat)
    requires 1048576 <= size < U32 - 1 && n >= 1 && (n >= 2 ==> Roomy(size, AllA(n - 1)))
    ensures n < U32 - 1 && Reaches(size, RunOf(n), StageAfter(n))
  {
    hide Reaches, AllA, Roomy, StageAt;
    if n == 1 {
      AfterFirstCalls(size, 5);
      assert StageAt(5) == StageAfter(1) by { FirstStage(); }
    } else {
      var m := n - 1;
      RoomIsShort(size, m);
      if m >= 2 {
        RoomBefore(size, m);
      }
      Filling(size, m);
      CountsAgain(size, m);
      var st := Stage(CountersAfter(n), false, AllA(m), ALL_B, StepsOfA(m) + Counting(m), STEPS_B);
      StageStep(size, RunOf(m) + Counting(m), st, Emit(0, SliceA(m)));
      AllASnoc(n);
      assert RunOf(n) == RunOf(m) + Counting(m) + [Emit(0, SliceA(m))];
      assert StepsOfA(n) == StepsOfA(m) + Counting(m) + [Emit(0, SliceA(m))];
    }
  }

  lemma {:induction false} FirstStage()
    ensures StageAt(5) == StageAfter(1)
  {
    AllASnoc(1);
    assert AllA(0) == DEFINE_A;
  }

  // ---------- The next packet ----------

  predicate IsFull(size: nat, n: nat) {
    File.Full(size, File.Buffer(AllA(n)))
  }

  /** After call n + 1 thread 0 has one buffer, or two if the first could not take the last packet. */
  ghost predicate Left(w: File.World, n: nat, full: bool) {
    && w.saved == (if full then [File.Chunk(0, true, AllA(n))] else [])
    && w.At(0) == File.Local(!full, false, File.Buffer(if full then [SliceA(n)] else AllA(n + 1)), AllA(n + 1))
    && w.At(1) == File.Local(false, false, File.Buffer(ALL_B), ALL_B)
    && forall t :: t > 1 ==> w.At(t) == File.Local(false, false, File.NoBuffer, [])
  }

  lemma {:induction false} SwitchesBuffer(w: File.World, size: nat, st: Stage, n: nat)
    requires Holding(w, size, st) && !st.mustStart && st.packetsA == AllA(n) && st.packetsB == ALL_B && IsFull(size, n)
    requires st.counters.packets != 0
    ensures File.Enabled(w, File.Emit(0, SliceA(n))) && Left(File.Apply(w, File.Emit(0, SliceA(n))), n, true)
  {
    hide StreamBytes, AllA, File.Apply;
    var e := File.Emit(0, SliceA(n));
    AllASnoc(n + 1);
    File.OthersUntouched(w, e);
    File.StepsAreLocal(w, e);
    assert [] + [File.Chunk(0, true, AllA(n))] == [File.Chunk(0, true, AllA(n))];
  }

  lemma {:induction false} AfterCall(size: nat, n: nat)
    requires 1048576 <= size < U32 - 1 && n >= 1 && Roomy(size, AllA(n - 1))
    ensures n < U32 - 1 && RecorderRuns.Runs(size, RunOf(n + 1)) && Counters(RunOf(n + 1)) == CountersAfter(n + 1)
    ensures Follows(RunOf(n + 1), StageAfter(n + 1)) && Left(Buffers(size, RunOf(n + 1)), n, IsFull(size, n))
  {
    hide AllA, StreamBytes, Follows, RecorderRuns.Runs, Counters, Buffers, RunOf, StepsOfA, File.Apply;
    hide File.Enabled, Left;
    Filling(size, n);
    if IsFull(size, n) {
      CountsAgain(size, n);
      var before, e := RunOf(n) + Counting(n), Emit(0, SliceA(n));
      var st := Stage(CountersAfter(n + 1), false, AllA(n), ALL_B, StepsOfA(n) + Counting(n), STEPS_B);
      assert RunOf(n + 1) == before + [e] by { LastCall(n); }
      SwitchesBuffer(Buffers(size, before), size, st, n);
      OneStep(size, before, e);
      StillFollows(before, st, e);
      AllASnoc(n + 1);
      LastCall(n);
    } else {
      Filling(size, n + 1);
      NotYetFull(Buffers(size, RunOf(n + 1)), size, n);
    }
  }

  lemma {:induction false} LastCall(n: nat)
    requires n >= 1
    ensures RunOf(n + 1) == RunOf(n) + Counting(n) + [Emit(0, SliceA(n))]
    ensures StepsOfA(n + 1) == StepsOfA(n) + Counting(n) + [Emit(0, SliceA(n))]
  {
    hide Quarter;
  }

  lemma {:induction false} NotYetFull(w: File.World, size: nat, n: nat)
    requires 1 <= n < U32 - 1 && Holding(w, size, StageAfter(n + 1))
    ensures Left(w, n, false)
  {
  }

  // ---------- The file ----------

  function FileOf(n: nat, full: bool): seq<File.Chunk> {
    if full then [File.Chunk(0, true, AllA(n)), File.Chunk(1, false, ALL_B), File.Chunk(0, false, [SliceA(n)])]
    else [File.Chunk(0, true, AllA(n + 1)), File.Chunk(1, false, ALL_B)]
  }

  lemma {:induction false} HandedOver(size: nat, run: seq<RecorderRuns.Step>, n: nat, full: bool)
    requires RecorderRuns.Runs(size, run) && Left(Buffers(size, run), n, full)
    ensures Saved(size, run, [1, 0]) == FileOf(n, full)
  {
    hide RecorderRuns.Runs, File.Exec, FileSteps, File.Runs, File.Pick, AllA;
    var s := FileSteps(run);
    RunsOfBuffers(size, run);
    File.SnocRuns(size, s, File.HandOver(1));
    File.OthersUntouched(Buffers(size, run), File.HandOver(1));
    var w := File.Apply(Buffers(size, run), File.HandOver(1));
    assert w.At(0) == Buffers(size, run).At(0);
    File.SnocRuns(size, s + [File.HandOver(1)], File.HandOver(0));
    assert s + File.HandOverAll([1, 0]) == s + [File.HandOver(1)] + [File.HandOver(0)];
    var chunks := File.Apply(w, File.HandOver(0)).saved;
    FlaggedFirst(chunks, n, full);
  }

  /** The storage holds them in the order handed over. */
  lemma {:induction false} FlaggedFirst(chunks: seq<File.Chunk>, n: nat, full: bool)
    requires chunks == if full then FileOf(n, true) else [FileOf(n, false)[1], FileOf(n, false)[0]]
    ensures File.FileOrder(chunks) == FileOf(n, full)
  {
    hide File.Pick, AllA;
    File.PickOne(chunks, if full then 0 else 1);
  }

  lemma {:induction false} RunsOfBuffers(size: nat, run: seq<RecorderRuns.Step>)
    requires RecorderRuns.Runs(size, run)
    ensures File.Runs(size, FileSteps(run))
  {
    hide File.Runs, FileSteps, CountersRun;
  }

  lemma {:induction false} AllQuiet(w: File.World, n: nat, full: bool)
    requires Left(w, n, full)
    ensures File.Quiet(w, [1, 0])
  {
    hide AllA;
    forall t ensures !w.At(t).mustStart && (w.At(t).buffer.Buffer? ==> t in [1, 0]) {
      assert t == 0 || t == 1 || w.At(t) == File.Local(false, false, File.NoBuffer, []);
    }
  }

  // ---------- Everyone records what they are asked ----------

  lemma {:induction false} AllRecorded(run: seq<RecorderRuns.Step>, n: nat)
    requires 1 <= n < U32 && Counters(run) == CountersAfter(n) && Follows(run, StageAfter(n))
    ensures Recorded(run, AskedOf(n))
  {
    hide Counters, CounterSteps, Run, LegalRun, NeverWraps, Shared.Exec, Program, Script, StepsOfA;
    hide AllA, ShortCalls;
    assert Counters(run) == Shared.Exec(CounterSteps(run)) by { CountersMeans(run); }
    forall t ensures Plays(run, t, AskedOf(n)(t)) {
      CallsAreShort(n, t);
      if t == 0 {
        SessionOfA(n);
        ScriptOfA(n);
      } else if t == 1 {
        SessionOfB();
        ScriptOfB();
      } else {
        NoTurns(Env(TextOf, 0));
        NoScript(t, Env(TextOf, 0));
      }
    }
  }

  lemma {:induction false} CallsAreShort(n: nat, t: Thread)
    ensures ShortCalls(TextOf, Asked(n, t).turns)
  {
    ShortTurnsOfA(n);
  }

  lemma {:induction false} ShortTurnsOfA(n: nat)
    ensures ShortCalls(TextOf, TurnsA(n))
  {
    if n > 0 {
      ShortTurnsOfA(n - 1);
    }
  }

  lemma {:induction false} CountersMeans(run: seq<RecorderRuns.Step>)
    ensures Counters(run) == Shared.Exec(CounterSteps(run))
  {
  }

  // ---------- What disturbs the names ----------

  lemma {:induction false} TagSnoc(chunks: seq<File.Chunk>, c: File.Chunk)
    ensures TagChunks(chunks + [c]) == TagChunks(chunks) + TagAll(c.owner, c.packets)
  {
    assert (chunks + [c])[..|chunks|] == chunks;
  }

  lemma {:induction false} TaggedFileOf(n: nat, full: bool)
    ensures TagChunks(FileOf(n, full)) ==
            if full then TagAll(0, AllA(n)) + TagAll(1, ALL_B) + TagAll(0, [SliceA(n)])
            else TagAll(0, AllA(n + 1)) + TagAll(1, ALL_B)
  {
    hide TagAll, AllA;
    var f := FileOf(n, full);
    TagSnoc([], f[0]);
    TagSnoc([f[0]], f[1]);
    assert [] + [f[0]] == [f[0]] && [f[0]] + [f[1]] == f[..2] && TagChunks([]) == [];
    if full {
      TagSnoc(f[..2], f[2]);
      assert f[..2] + [f[2]] == f;
    } else {
      assert f[..2] == f;
    }
  }

  lemma {:induction false} SlicesFollow(n: nat, k: nat)
    requires 4 <= k < 4 + n
    ensures AllA(n)[k] == SliceA(k - 4)
  {
    AllASnoc(n);
    if k < 3 + n {
      SlicesFollow(n - 1, k);
    }
  }

  /** With two buffers, the name of thread 1 is defined between the name of thread 0 and its last use. */
  lemma {:induction false} NamesDisturbed(n: nat)
    ensures !Undisturbed(TagChunks(FileOf(n, true)), 0, NameTable)
  {
    hide TagChunks, AllA;
    var ts := TagChunks(FileOf(n, true));
    TaggedFileOf(n, true);
    var a := AllA(n);
    var k := 4 + n;
    assert ts[k + 4] == Tagged(0, SliceA(n)) && Uses(ts[k + 4].packet, NameTable, 3);
    var before := ts[..k + 4];
    assert a[3] == a[..4][3] == DEFINE_A[3];
    assert before[3] == Tagged(0, DefineEventName(3, [65])) && Defines(before[3].packet, NameTable, 3);
    assert before[k + 2] == Tagged(1, ALL_B[2]) && before[k + 3] == Tagged(1, ALL_B[3]);
    assert LastIn(before, k + 2, NameTable, 3);
    assert !SameText(before, 0, NameTable, 3);
  }

  /** With one buffer, everything of thread 0 comes first. */
  lemma {:induction false} NamesUndisturbed(n: nat)
    ensures Undisturbed(TagChunks(FileOf(n, false)), 0, NameTable)
  {
    hide TagChunks, AllA;
    var ts := TagChunks(FileOf(n, false));
    TaggedFileOf(n, false);
    var a := AllA(n + 1);
    forall k: nat, id: nat | k < |ts| && ts[k].owner == 0 && Uses(ts[k].packet, NameTable, id)
      ensures SameText(ts[..k], 0, NameTable, id)
    {
      assert k < |a|;
      forall i: nat | i < k && Defines(ts[i].packet, NameTable, id) ensures i == 3 {
        assert ts[i] == Tagged(0, a[i]);
        if i >= 4 {
          SlicesFollow(n + 1, i);
        } else {
          assert a[i] == a[..4][i] == DEFINE_A[i];
        }
      }
    }
  }

  // ---------- The result ----------

  /**
    * The same calls are read rightly while thread 0 needs one buffer, and wrongly as soon as the next
    * packet needs a second one.
    */
  lemma {:induction false} RightUntilFull(size: nat, n: nat)
    requires 1048576 <= size < U32 - 1 && n >= 1 && Roomy(size, AllA(n - 1))
    ensures RecorderRuns.Runs(size, RunOf(n + 1)) && Recorded(RunOf(n + 1), AskedOf(n + 1))
    ensures File.Quiet(Buffers(size, RunOf(n + 1)), [1, 0])
    ensures var file := Saved(size, RunOf(n + 1), [1, 0]);
            var ideal := IdealRun(EnvA(), TurnsA(n + 1)).events;
            && (PartOf(Hear(TagChunks(file)), 0) == ideal <==> !IsFull(size, n))
            && (OnTracks(ReadBytes(StreamBytes(File.Packets(file))).events, 2) == ideal <==> !IsFull(size, n))
  {
    hide RecorderRuns.Runs, Recorded, File.Quiet, Saved, TagChunks, Hear, PartOf, IdealRun, Undisturbed;
    hide Buffers, RunOf;
    hide IsFull, Roomy, AllA, Taken, OnTracks, ReadBytes, StreamBytes, File.Packets, FileOf, LegalRun;
    hide AskedOf, Events;
    AfterCallSaved(size, n);
    FileSaysWhatWasAsked(size, RunOf(n + 1), [1, 0], AskedOf(n + 1), 0);
    TakenByA(n + 1);
    NamesExactly(n, IsFull(size, n));
  }

  lemma {:induction false} AfterCallSaved(size: nat, n: nat)
    requires 1048576 <= size < U32 - 1 && n >= 1 && Roomy(size, AllA(n - 1))
    ensures RecorderRuns.Runs(size, RunOf(n + 1)) && Recorded(RunOf(n + 1), AskedOf(n + 1))
    ensures File.Quiet(Buffers(size, RunOf(n + 1)), [1, 0])
    ensures Saved(size, RunOf(n + 1), [1, 0]) == FileOf(n, IsFull(size, n))
  {
    hide RecorderRuns.Runs, Recorded, File.Quiet, Saved, Buffers, RunOf, Left, IsFull, Roomy, AllA;
    hide Counters, Follows, FileOf;
    hide StageAfter, CountersAfter;
    AfterCall(size, n);
    HandedOver(size, RunOf(n + 1), n, IsFull(size, n));
    AllQuiet(Buffers(size, RunOf(n + 1)), n, IsFull(size, n));
    AllRecorded(RunOf(n + 1), n + 1);
  }

  lemma {:induction false} NamesExactly(n: nat, full: bool)
    ensures Undisturbed(TagChunks(FileOf(n, full)), 0, NameTable) <==> !full
  {
    hide Undisturbed, TagChunks, FileOf;
    if full {
      NamesDisturbed(n);
    } else {
      NamesUndisturbed(n);
    }
  }

  lemma {:induction false} TakenByA(n: nat)
    requires n >= 1
    ensures AskedOf(n)(0) == Part(EnvA(), Fresh(), TurnsA(n))
    ensures LegalRun(EnvA(), Fresh(), TurnsA(n)) && Taken(AskedOf(n)(0))
  {
    hide Run, LegalRun, NeverWraps, AllA;
    SessionOfA(n);
  }

  lemma {:induction false} FillsUp(size: nat, n: nat) returns (k: nat)
    requires Roomy(size, AllA(n))
    ensures k >= 1 && Roomy(size, AllA(k - 1)) && IsFull(size, k)
    decreases size - n
  {
    hide StreamBytes, AllA;
    RoomIsShort(size, n);
    if Roomy(size, AllA(n + 1)) {
      k := FillsUp(size, n + 1);
    } else {
      k := n + 1;
    }
  }

  /** Everything the theorem about the file asks for holds, and the file does not say what thread 0 was asked. */
  ghost predicate Misread(size: nat, run: seq<RecorderRuns.Step>, n: nat) {
    && RecorderRuns.Runs(size, run) && Recorded(run, AskedOf(n)) && File.Quiet(Buffers(size, run), [1, 0])
    && OnTracks(ReadBytes(StreamBytes(File.Packets(Saved(size, run, [1, 0])))).events, 2) !=
       IdealRun(EnvA(), TurnsA(n)).events
  }

  /** Whatever size the buffers are configured to have, if they can hold a packet at all. */
  lemma {:induction false} SharedIdMisleads(mb: u32)
    requires mb % 4096 != 0
    ensures exists n: nat :: Misread(Config.StorageSize(mb), RunOf(n), n)
  {
    hide RecorderRuns.Runs, Recorded, File.Quiet, Saved, IdealRun, Buffers, RunOf, Roomy, OnTracks;
    hide ReadBytes, StreamBytes;
    hide IsFull, AllA;
    var size := Config.StorageSize(mb);
    Config.StorageHoldsAPacket(mb);
    AllASmall();
    SmallIsRoomy(size, AllA(0));
    var k := FillsUp(size, 0);
    RightUntilFull(size, k);
    assert Misread(size, RunOf(k + 1), k + 1);
  }

  lemma {:induction false} AllASmall()
    ensures Small(AllA(0))
  {
  }
}
