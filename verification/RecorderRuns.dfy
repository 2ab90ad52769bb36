/**
  * The recorder from end to end: the threads' accesses to the shared counters and their packets in
  * one run, the saved file, and what the bytes of that file say about each thread's calls.
  */
module RecorderRuns {
  import opened WireFormat
  import opened RecorderPackets
  import opened Recorder
  import opened FileReader
  import opened PacketReader
  import opened TrackNames
  import Shared = SharedCounters
  import File = RecorderFile

  datatype Step =
    | ReadId(t: Thread)
    | AddId(t: Thread)
    | NewThreadId(t: Thread)
    | Count(t: Thread)
    | Emit(t: Thread, p: Packet)
    | HandOver(t: Thread)

  function CounterPart(e: Step): seq<Shared.Step> {
    match e
    case ReadId(t) => [Shared.ReadId(t)]
    case AddId(t) => [Shared.AddId(t)]
    case NewThreadId(t) => [Shared.NewThreadId(t)]
    case Count(t) => [Shared.CountPacket(t)]
    case _ => []
  }

  function FilePart(e: Step): seq<File.Step> {
    match e
    case Count(t) => [File.Count(t)]
    case Emit(t, p) => [File.Emit(t, p)]
    case HandOver(t) => [File.HandOver(t)]
    case _ => []
  }

  /** What the run does to the counters. */
  function CounterSteps(run: seq<Step>): seq<Shared.Step> {
    if run == [] then [] else CounterSteps(run[..|run| - 1]) + CounterPart(run[|run| - 1])
  }

  /** What the run does to the buffers. */
  function FileSteps(run: seq<Step>): seq<File.Step> {
    if run == [] then [] else FileSteps(run[..|run| - 1]) + FilePart(run[|run| - 1])
  }

  function Counters(run: seq<Step>): Shared.Shared {
    Shared.Exec(CounterSteps(run))
  }

  /** The buffers, of the given size, and the storage. */
  function Buffers(size: nat, run: seq<Step>): File.World {
    File.Exec(size, FileSteps(run))
  }

  /** The counters take these steps without wrapping. */
  predicate CountersRun(run: seq<Step>) {
    Shared.Runs(CounterSteps(run)) && Shared.InRange(CounterSteps(run))
  }

  /** A run of both, in which the packet counter is one and the same. */
  predicate Runs(size: nat, run: seq<Step>) {
    CountersRun(run) && File.Runs(size, FileSteps(run))
  }

  lemma {:induction false} Projections(run: seq<Step>)
    requires run != []
    ensures var before, e := run[..|run| - 1], run[|run| - 1];
            && (CounterPart(e) == [] ==> CounterSteps(run) == CounterSteps(before))
            && (CounterPart(e) != [] ==>
                  CounterSteps(run) != [] && CounterSteps(run)[..|CounterSteps(run)| - 1] == CounterSteps(before) &&
                  [CounterSteps(run)[|CounterSteps(run)| - 1]] == CounterPart(e))
            && (FilePart(e) == [] ==> FileSteps(run) == FileSteps(before))
            && (FilePart(e) != [] ==>
                  FileSteps(run) != [] && FileSteps(run)[..|FileSteps(run)| - 1] == FileSteps(before) &&
                  [FileSteps(run)[|FileSteps(run)| - 1]] == FilePart(e))
  {
  }

  lemma {:induction false} RunsPrefix(size: nat, run: seq<Step>)
    requires Runs(size, run) && run != []
    ensures Runs(size, run[..|run| - 1])
  {
    hide Shared.Exec, File.Exec, CounterSteps, FileSteps, Shared.Enabled, Shared.NoWrap, File.Enabled, File.NoWrap;
    hide CounterPart, FilePart;
    Projections(run);
  }

  /** Both sides count the same packets. */
  lemma {:induction false} OneCounter(size: nat, run: seq<Step>)
    requires Runs(size, run)
    ensures Buffers(size, run).packetsWritten == Counters(run).packets
  {
    hide Runs, CounterSteps, FileSteps, Shared.Apply, File.Apply;
    if run == [] {
      NoSteps();
    } else {
      var before, e := run[..|run| - 1], run[|run| - 1];
      RunsPrefix(size, run);
      OneCounter(size, before);
      Projections(run);
      StepCounts(Counters(before), Buffers(size, before), e);
    }
  }

  lemma {:induction false} NoSteps()
    ensures CounterSteps([]) == [] && FileSteps([]) == []
  {
  }

  lemma {:induction false} StepCounts(s: Shared.Shared, w: File.World, e: Step)
    requires w.packetsWritten == s.packets
    ensures var s' := if CounterPart(e) == [] then s else Shared.Apply(s, CounterPart(e)[0]);
            var w' := if FilePart(e) == [] then w else File.Apply(w, FilePart(e)[0]);
            w'.packetsWritten == s'.packets
  {
  }

  // ---------- Programs ----------

  /** What one thread is asked to record. */
  datatype Part = Part(env: Env, ctx: Ctx, turns: seq<Turn>)

  /** What the code does to write a packet: an id it defines is read and counted just before. */
  function StepsFor(t: Thread, p: Packet): seq<Step> {
    match p
    case DefineCategory(_, _) => [ReadId(t), AddId(t), Emit(t, p)]
    case DefineEventName(_, _) => [ReadId(t), AddId(t), Emit(t, p)]
    case DefineThreadTrack(_) => [NewThreadId(t), Emit(t, p)]
    case _ => [Emit(t, p)]
  }

  function StepsOf(t: Thread, ps: seq<Packet>): seq<Step> {
    if ps == [] then [] else StepsOf(t, ps[..|ps| - 1]) + StepsFor(t, ps[|ps| - 1])
  }

  /** The packets a call adds to a session. */
  function Added(env: Env, s: Session, turn: Turn): (ps: seq<Packet>)
    requires s.WellFormed() && Legal(s.ctx, turn.call)
    ensures s.out + ps == Perform(env, s, turn).out
  {
    Perform(env, s, turn).out[|s.out|..]
  }

  /** The steps of a call in program order: it is counted first, unless it is an end or does nothing. */
  function CallSteps(t: Thread, env: Env, s: Session, turn: Turn): seq<Step>
    requires s.WellFormed() && Legal(s.ctx, turn.call)
  {
    (if Counts(s.ctx, turn.call) then [Count(t)] else []) + StepsOf(t, Added(env, s, turn))
  }

  /** The steps of a session. */
  function Script(t: Thread, env: Env, c: Ctx, turns: seq<Turn>): seq<Step>
    requires c.WellFormed() && LegalRun(env, c, turns)
  {
    if turns == [] then []
    else
      var before, turn := turns[..|turns| - 1], turns[|turns| - 1];
      Script(t, env, c, before) + CallSteps(t, env, Run(env, c, before), turn)
  }

  /** The steps thread t takes in a run, but for handing its buffer over. */
  function Program(run: seq<Step>, t: Thread): seq<Step> {
    if run == [] then []
    else
      var e := run[|run| - 1];
      Program(run[..|run| - 1], t) + if e.t == t && !e.HandOver? then [e] else []
  }

  function Emitted(steps: seq<Step>): seq<Packet> {
    if steps == [] then []
    else
      var e := steps[|steps| - 1];
      Emitted(steps[..|steps| - 1]) + if e.Emit? then [e.p] else []
  }

  lemma {:induction false} EmittedConcat(a: seq<Step>, b: seq<Step>)
    ensures Emitted(a + b) == Emitted(a) + Emitted(b)
  {
    if b == [] {
      assert a + b == a;
    } else {
      assert (a + b)[..|a + b| - 1] == a + b[..|b| - 1];
      EmittedConcat(a, b[..|b| - 1]);
    }
  }

  lemma {:induction false} EmittedFor(t: Thread, p: Packet)
    ensures Emitted(StepsFor(t, p)) == [p]
  {
    var e := Emit(t, p);
    assert Emitted([e]) == [p] by { assert [e][..0] == []; }
    EmittedConcat([ReadId(t), AddId(t)], [e]);
    EmittedConcat([NewThreadId(t)], [e]);
    assert [ReadId(t), AddId(t)] + [e] == [ReadId(t), AddId(t), e] && [NewThreadId(t)] + [e] == [NewThreadId(t), e];
    assert [NewThreadId(t)][..0] == [] && [ReadId(t), AddId(t)][..1] == [ReadId(t)] && [ReadId(t)][..0] == [];
    assert Emitted([NewThreadId(t)]) == [] && Emitted([ReadId(t)]) == [] && Emitted([ReadId(t), AddId(t)]) == [];
  }

  lemma {:induction false} EmittedOf(t: Thread, ps: seq<Packet>)
    ensures Emitted(StepsOf(t, ps)) == ps
  {
    hide StepsFor;
    if ps != [] {
      var n := |ps| - 1;
      EmittedOf(t, ps[..n]);
      EmittedFor(t, ps[n]);
      EmittedConcat(StepsOf(t, ps[..n]), StepsFor(t, ps[n]));
      assert ps == ps[..n] + [ps[n]];
    }
  }

  /** A session's steps emit the session's packets. */
  lemma {:induction false} ScriptEmits(t: Thread, env: Env, c: Ctx, turns: seq<Turn>)
    requires c.WellFormed() && LegalRun(env, c, turns)
    ensures Emitted(Script(t, env, c, turns)) == Run(env, c, turns).out
  {
    hide Perform, StepsOf;
    if turns != [] {
      var n := |turns| - 1;
      var s := Run(env, c, turns[..n]);
      ScriptEmits(t, env, c, turns[..n]);
      var count := if Counts(s.ctx, turns[n].call) then [Count(t)] else [];
      assert Emitted(count) == [] by { assert [Count(t)][..0] == []; }
      EmittedOf(t, Added(env, s, turns[n]));
      EmittedConcat(count, StepsOf(t, Added(env, s, turns[n])));
      EmittedConcat(Script(t, env, c, turns[..n]), CallSteps(t, env, s, turns[n]));
    }
  }

  lemma {:induction false} NothingRecorded(size: nat)
    ensures Buffers(size, []) == File.World(size, 0, map[], [])
  {
  }

  lemma {:induction false} BuffersStep(size: nat, run: seq<Step>)
    requires run != []
    ensures var before, e := Buffers(size, run[..|run| - 1]), run[|run| - 1];
            Buffers(size, run) == if FilePart(e) == [] then before else File.Apply(before, FilePart(e)[0])
  {
    hide FileSteps, CounterSteps, CounterPart, File.Apply, FilePart;
    Projections(run);
  }

  lemma {:induction false} EmittedOne(e: Step)
    ensures Emitted([e]) == if e.Emit? then [e.p] else []
  {
    assert [e][..0] == [];
  }

  lemma {:induction false} StepRecords(w: File.World, e: File.Step, t: Thread)
    ensures File.Apply(w, e).At(t).recorded == w.At(t).recorded + if e.Emit? && e.t == t then [e.p] else []
  {
    hide StreamBytes;
    File.StepsAreLocal(w, e);
  }

  /** What a thread has recorded is what its steps have emitted. */
  lemma {:induction false} ProgramIsRecorded(size: nat, run: seq<Step>, t: Thread)
    ensures Buffers(size, run).At(t).recorded == Emitted(Program(run, t))
  {
    hide Buffers, File.Apply;
    if run == [] {
      NothingRecorded(size);
    } else {
      var n := |run| - 1;
      var before, e := run[..n], run[n];
      ProgramIsRecorded(size, before, t);
      BuffersStep(size, run);
      EmittedConcat(Program(before, t), [e]);
      EmittedOne(e);
      if e.t == t && !e.HandOver? {
        assert Program(run, t) == Program(before, t) + [e];
      } else {
        assert Program(run, t) == Program(before, t);
      }
      hide Program, Emitted;
      if FilePart(e) != [] {
        StepRecords(Buffers(size, before), FilePart(e)[0], t);
      }
    }
  }

  // ---------- Sessions ----------

  /** Thread t takes exactly the steps of its calls, in program order, with the ids it read and was granted. */
  ghost predicate Plays(run: seq<Step>, t: Thread, part: Part) {
    && Shared.Joined(CounterSteps(run), t, part.env, part.ctx, part.turns)
    && ShortCalls(part.env.text, part.turns)
    && Program(run, t) == Script(t, part.env, part.ctx, part.turns)
  }

  /** So does every thread. */
  ghost predicate Recorded(run: seq<Step>, part: Thread -> Part) {
    forall t :: Plays(run, t, part(t))
  }

  /** The file saved at the end, whatever the order of the contexts. */
  function Saved(size: nat, run: seq<Step>, order: seq<Thread>): seq<File.Chunk> {
    File.FileOrder(File.Exec(size, FileSteps(run) + File.HandOverAll(order)).saved)
  }

  /** The packets in the file are the threads' sessions. */
  ghost predicate Holds(ts: seq<Tagged>, run: seq<Step>, part: Thread -> Part) {
    forall t :: HoldsOf(ts, run, t, part(t))
  }

  ghost predicate HoldsOf(ts: seq<Tagged>, run: seq<Step>, t: Thread, part: Part) {
    Plays(run, t, part) && Own(ts, t) == Run(part.env, part.ctx, part.turns).out
  }

  lemma {:induction false} FileHolds(size: nat, run: seq<Step>, order: seq<Thread>, part: Thread -> Part)
    requires Runs(size, run) && Recorded(run, part) && File.Quiet(Buffers(size, run), order)
    ensures Holds(TagChunks(Saved(size, run, order)), run, part)
    ensures Plain(TagChunks(Saved(size, run, order))) == File.Packets(Saved(size, run, order))
    ensures File.Packets(Saved(size, run, order)) == [] || File.Leading(File.Packets(Saved(size, run, order)))
  {
    hide Shared.Runs, Shared.InRange, NeverWraps, File.Runs, File.Exec, File.Quiet, File.FileOrder, File.Of;
    hide File.Packets, File.Leading, TagChunks, Plain, Own, Run, LegalRun, ShortCalls, Program, Script, Emitted;
    File.SavedFile(size, FileSteps(run), order);
    var file := Saved(size, run, order);
    TaggedFile(file, 0);
    forall t ensures HoldsOf(TagChunks(file), run, t, part(t)) {
      assert Plays(run, t, part(t));
      TaggedFile(file, t);
      ProgramIsRecorded(size, run, t);
      ScriptEmits(t, part(t).env, part(t).ctx, part(t).turns);
    }
  }

  lemma {:induction false} PartIsFaithful(run: seq<Step>, t: Thread, part: Part)
    requires CountersRun(run) && Plays(run, t, part)
    ensures Regular(part.env, part.ctx, part.turns) && 0 !in Run(part.env, part.ctx, part.turns).drawn
    ensures Faithful(part.env, Run(part.env, part.ctx, part.turns), IdealRun(part.env, part.turns))
  {
    hide Shared.Runs, Shared.InRange, CounterSteps, FileSteps, Run, LegalRun, NeverWraps, Ascending;
    hide Faithful, IdealRun;
    Shared.JoinedIsRegular(CounterSteps(run), t, part.env, part.ctx, part.turns);
    RunIsFaithful(part.env, part.ctx, part.turns);
  }

  // ---------- Which tables can be disturbed ----------

  /** No other thread defines an id of the thread. */
  ghost predicate ApartFrom(ts: seq<Tagged>, t: Thread, table: Table) {
    forall i, j, id: nat ::
      0 <= i < |ts| && 0 <= j < |ts| && ts[i].owner == t && ts[j].owner != t && Defines(ts[i].packet, table, id) ==>
      !Defines(ts[j].packet, table, id)
  }

  /** Then nothing is disturbed. */
  lemma {:induction false} ApartIsUndisturbed(ts: seq<Tagged>, t: Thread, table: Table)
    requires Orderly(Own(ts, t)) && ApartFrom(ts, t, table)
    ensures Undisturbed(ts, t, table)
  {
    hide Own, Orderly, Defines;
    forall k: nat, id: nat | k < |ts| && ts[k].owner == t && Uses(ts[k].packet, table, id)
      ensures SameText(ts[..k], t, table, id) {
      forall i: nat, j: nat | i < k && ts[..k][i].owner == t && Defines(ts[..k][i].packet, table, id) &&
          LastIn(ts[..k], j, table, id)
        ensures ts[..k][j].packet == ts[..k][i].packet
      {
        SomewhereIsOwn(ts, i);
        SomewhereIsOwn(ts, j);
        var a :| 0 <= a < |Own(ts, t)| && Own(ts, t)[a] == ts[i].packet;
        var b :| 0 <= b < |Own(ts, t)| && Own(ts, t)[b] == ts[j].packet;
        OnlyOne(Own(ts, t), table, id, a, b);
      }
    }
  }

  ghost predicate OneText(ts: seq<Tagged>, table: Table, text: seq<byte>) {
    forall k, id: nat :: 0 <= k < |ts| && Defines(ts[k].packet, table, id) ==> DefinitionIn(ts[k].packet).text == text
  }

  /** Definitions of one text cannot disturb each other. */
  lemma {:induction false} OneTextIsUndisturbed(ts: seq<Tagged>, t: Thread, table: Table, text: seq<byte>)
    requires OneText(ts, table, text)
    ensures Undisturbed(ts, t, table)
  {
  }

  lemma {:induction false} CategoriesUndisturbed(ts: seq<Tagged>, run: seq<Step>, part: Thread -> Part, t: Thread)
    requires Holds(ts, run, part)
    ensures Undisturbed(ts, t, CategoryTable)
  {
    hide Own, Run, LegalRun, Undisturbed, ShortCalls, Program, Script;
    forall k, id: nat | 0 <= k < |ts| && Defines(ts[k].packet, CategoryTable, id)
      ensures DefinitionIn(ts[k].packet).text == CATEGORY_TEXT
    {
      var u := ts[k].owner;
      assert HoldsOf(ts, run, u, part(u));
      RunOneCategory(part(u).env, part(u).ctx, part(u).turns);
      SomewhereIsOwn(ts, k);
    }
    OneTextIsUndisturbed(ts, t, CategoryTable, CATEGORY_TEXT);
  }

  /** A track a thread defines carries the id it was granted. */
  lemma {:induction false} TrackIsGranted(run: seq<Step>, t: Thread, part: Part, ps: seq<Packet>, k: nat, id: nat)
    requires CountersRun(run) && Plays(run, t, part) && ps == Run(part.env, part.ctx, part.turns).out
    requires k < |ps| && Defines(ps[k], TrackTable, id)
    ensures !Run(part.env, part.ctx, part.turns).ctx.needThreadId && OfThread(id, part.env.thread)
  {
    hide CountersRun, Run, LegalRun, NeverWraps, Ascending, ReadAll, OfThread, IdealRun, ShortCalls;
    hide Program, Script;
    PartIsFaithful(run, t, part);
    LastDefinitionCounts(ps, TrackTable, id);
    assert id in ReadAll(ps).tracks;
  }

  lemma {:induction false} TracksUndisturbed(ts: seq<Tagged>, run: seq<Step>, part: Thread -> Part, t: Thread)
    requires CountersRun(run) && Holds(ts, run, part)
    ensures Undisturbed(ts, t, TrackTable)
  {
    hide CountersRun, Own, Run, LegalRun, NeverWraps, Undisturbed, Orderly, ShortCalls, Program, Script;
    hide Defines, OfThread, Faithful;
    assert HoldsOf(ts, run, t, part(t));
    OwnIsOrderly(ts, run, part, t);
    forall i, j, id: nat | 0 <= i < |ts| && 0 <= j < |ts| && ts[i].owner == t && ts[j].owner != t &&
        Defines(ts[i].packet, TrackTable, id)
      ensures !Defines(ts[j].packet, TrackTable, id)
    {
      var u := ts[j].owner;
      assert HoldsOf(ts, run, u, part(u));
      SomewhereIsOwn(ts, i);
      SomewhereIsOwn(ts, j);
      if Defines(ts[j].packet, TrackTable, id) {
        var a :| 0 <= a < |Own(ts, t)| && Own(ts, t)[a] == ts[i].packet;
        var b :| 0 <= b < |Own(ts, u)| && Own(ts, u)[b] == ts[j].packet;
        TrackIsGranted(run, t, part(t), Own(ts, t), a, id);
        TrackIsGranted(run, u, part(u), Own(ts, u), b, id);
        TwoThreadsTwoIds(run, t, part(t), u, part(u), id);
      }
    }
    ApartIsUndisturbed(ts, t, TrackTable);
  }

  lemma {:induction false} TwoThreadsTwoIds(run: seq<Step>, t: Thread, p: Part, u: Thread, q: Part, id: nat)
    requires CountersRun(run) && Plays(run, t, p) && Plays(run, u, q) && t != u
    requires !Run(p.env, p.ctx, p.turns).ctx.needThreadId && !Run(q.env, q.ctx, q.turns).ctx.needThreadId
    ensures !(OfThread(id, p.env.thread) && OfThread(id, q.env.thread))
  {
    hide Run, LegalRun, NeverWraps, ShortCalls, Program, Script, Shared.Runs, Shared.InRange;
    Shared.JoinedThreadsDiffer(CounterSteps(run), t, p.env, p.ctx, p.turns, u, q.env, q.ctx, q.turns);
  }

  lemma {:induction false} OwnIsOrderly(ts: seq<Tagged>, run: seq<Step>, part: Thread -> Part, t: Thread)
    requires CountersRun(run) && Holds(ts, run, part)
    ensures Orderly(Own(ts, t)) && ReadAll(Own(ts, t)).events == IdealRun(part(t).env, part(t).turns).events
  {
    hide CountersRun, Own, Run, LegalRun, NeverWraps, Ascending, Orderly, ShortCalls, Program, Script;
    hide ReadAll, IdealRun;
    assert HoldsOf(ts, run, t, part(t));
    PartIsFaithful(run, t, part(t));
  }

  /** If no id the thread drew was drawn by another one, its names are undisturbed. */
  lemma {:induction false} DistinctDrawsSuffice(ts: seq<Tagged>, run: seq<Step>, part: Thread -> Part, t: Thread)
    requires CountersRun(run) && Holds(ts, run, part)
    requires forall u, x :: u != t && x in Counters(run).Drawn(t) ==> x !in Counters(run).Drawn(u)
    ensures Undisturbed(ts, t, NameTable)
  {
    hide CountersRun, Own, Run, LegalRun, NeverWraps, Undisturbed, Orderly, ShortCalls, Program, Script;
    hide Defines, Faithful, Counters;
    OwnIsOrderly(ts, run, part, t);
    forall i, j, id: nat | 0 <= i < |ts| && 0 <= j < |ts| && ts[i].owner == t && ts[j].owner != t &&
        Defines(ts[i].packet, NameTable, id)
      ensures !Defines(ts[j].packet, NameTable, id)
    {
      var u := ts[j].owner;
      assert HoldsOf(ts, run, t, part(t)) && HoldsOf(ts, run, u, part(u));
      SomewhereIsOwn(ts, i);
      SomewhereIsOwn(ts, j);
      if Defines(ts[j].packet, NameTable, id) {
        var a :| 0 <= a < |Own(ts, t)| && Own(ts, t)[a] == ts[i].packet;
        var b :| 0 <= b < |Own(ts, u)| && Own(ts, u)[b] == ts[j].packet;
        NameIsDrawn(run, t, part(t), Own(ts, t), a, id);
        NameIsDrawn(run, u, part(u), Own(ts, u), b, id);
      }
    }
    ApartIsUndisturbed(ts, t, NameTable);
  }

  lemma {:induction false} NameIsDrawn(run: seq<Step>, t: Thread, part: Part, ps: seq<Packet>, k: nat, id: nat)
    requires CountersRun(run) && Plays(run, t, part) && ps == Run(part.env, part.ctx, part.turns).out
    requires k < |ps| && Defines(ps[k], NameTable, id)
    ensures id in Counters(run).Drawn(t)
  {
    hide CountersRun, Run, LegalRun, NeverWraps, Ascending, ReadAll, OfThread, IdealRun, ShortCalls;
    hide Program, Script;
    PartIsFaithful(run, t, part);
    LastDefinitionCounts(ps, NameTable, id);
    assert id in ReadAll(ps).names;
  }

  // ---------- What is heard ----------

  /** An event together with the thread whose packet told it. */
  datatype Heard = Heard(owner: Thread, event: Event)

  function Tell(t: Thread, es: seq<Event>): seq<Heard> {
    seq(|es|, k requires 0 <= k < |es| => Heard(t, es[k]))
  }

  function Hear(ts: seq<Tagged>): seq<Heard> {
    if ts == [] then []
    else
      var before, x := ts[..|ts| - 1], ts[|ts| - 1];
      Hear(before) + Tell(x.owner, Says(ReadAll(Plain(before)), x.packet))
  }

  function Events(hs: seq<Heard>): seq<Event> {
    seq(|hs|, k requires 0 <= k < |hs| => hs[k].event)
  }

  function PartOf(hs: seq<Heard>, t: Thread): seq<Event> {
    if hs == [] then []
    else PartOf(hs[..|hs| - 1], t) + if hs[|hs| - 1].owner == t then [hs[|hs| - 1].event] else []
  }

  lemma {:induction false} PartOfTold(hs: seq<Heard>, u: Thread, es: seq<Event>, t: Thread)
    ensures PartOf(hs + Tell(u, es), t) == PartOf(hs, t) + if u == t then es else []
  {
    if es == [] {
      assert hs + Tell(u, es) == hs;
    } else {
      var n := |es| - 1;
      var all := hs + Tell(u, es);
      PartOfTold(hs, u, es[..n], t);
      assert all[..|all| - 1] == hs + Tell(u, es[..n]);
      assert es == es[..n] + [es[n]];
    }
  }

  /** What is heard is what the reader of the packets hears, and each thread's part of it is its own. */
  lemma {:induction false} HearingIsReading(ts: seq<Tagged>, t: Thread)
    ensures Events(Hear(ts)) == ReadAll(Plain(ts)).events && PartOf(Hear(ts), t) == EventsOf(ts, t)
  {
    hide Read, Says, ReadAll;
    if ts == [] {
      assert ReadAll([]).events == [] by { NoEvents(); }
    } else {
      var before, x := ts[..|ts| - 1], ts[|ts| - 1];
      var r := ReadAll(Plain(before));
      HearingIsReading(before, t);
      ReadSnoc(Plain(before), x.packet);
      SaysAgree(r, r, x.packet);
      PartOfTold(Hear(before), x.owner, Says(r, x.packet), t);
      assert Events(Hear(ts)) == Events(Hear(before)) + Says(r, x.packet);
    }
  }

  // ---------- Whose events these are ----------

  ghost predicate Taken(part: Part)
    requires part.ctx.WellFormed() && LegalRun(part.env, part.ctx, part.turns)
  {
    !Run(part.env, part.ctx, part.turns).ctx.needThreadId
  }

  /** The track an event is on is named after the thread that told it. */
  lemma {:induction false} TrackIsOwn(ts: seq<Tagged>, run: seq<Step>, part: Thread -> Part, k: nat, id: nat)
    requires CountersRun(run) && Holds(ts, run, part) && k < |ts| && Uses(ts[k].packet, TrackTable, id)
    ensures var p, name := part(ts[k].owner), TextIn(ReadAll(Plain(ts[..k])), TrackTable, id);
            && p.ctx.WellFormed() && LegalRun(p.env, p.ctx, p.turns) && Taken(p)
            && name.Known? && NamedAfter(name.text, p.env.thread)
  {
    hide CountersRun, Own, Plain, Run, LegalRun, NeverWraps, Undisturbed, Orderly, ReadAll, TextIn, Defines, Uses;
    hide Admits, OfThread, IdealRun, ShortCalls, Program, Script, NamedAfter, Taken;
    var u, before := ts[k].owner, ts[..k];
    var own := Own(before, u);
    assert HoldsOf(ts, run, u, part(u));
    OwnIsOrderly(ts, run, part, u);
    OrderlyAt(ts, u, k);
    AdmitsMeans(ReadAll(own), ts[k].packet, TrackTable, id);
    TracksUndisturbed(ts, run, part, u);
    UseAgrees(before, u, TrackTable, id);
    assert SameText(before, u, TrackTable, id) by { UndisturbedAt(ts, u, k, id); }
    LastDefinitionCounts(own, TrackTable, id);
    var a: nat :| a < |own| && Defines(own[a], TrackTable, id);
    var last := LastExists(own, a, TrackTable, id);
    OwnIsSomewhere(before, u, last);
    var i :| 0 <= i < |before| && before[i] == Tagged(u, own[last]);
    SomewhereIsOwn(ts, i);
    var b :| 0 <= b < |Own(ts, u)| && Own(ts, u)[b] == own[last];
    TrackIsGranted(run, u, part(u), Own(ts, u), b, id);
    assert Taken(part(u)) by { IsTaken(part(u)); }
    RunOwnTracks(part(u).env, part(u).ctx, part(u).turns);
    DefinedTrackIsNamed(own[last], id, part(u).env.thread);
  }

  lemma {:induction false} IsTaken(part: Part)
    requires part.ctx.WellFormed() && LegalRun(part.env, part.ctx, part.turns)
    requires !Run(part.env, part.ctx, part.turns).ctx.needThreadId
    ensures Taken(part)
  {
    hide Run, LegalRun;
  }

  lemma {:induction false} UndisturbedAt(ts: seq<Tagged>, t: Thread, k: nat, id: nat)
    requires Undisturbed(ts, t, TrackTable) && k < |ts| && ts[k].owner == t && Uses(ts[k].packet, TrackTable, id)
    ensures SameText(ts[..k], t, TrackTable, id)
  {
    hide SameText, Uses;
  }

  lemma {:induction false} DefinedTrackIsNamed(p: Packet, id: nat, thread: u32)
    requires Defines(p, TrackTable, id)
    requires (p.DefineThreadTrack? ==> p.thread == thread) && (p.DefineCounterTrack? ==> p.thread == thread)
    ensures NamedAfter(DefinitionIn(p).text, thread)
  {
    hide NamedAfter;
    match p
    case DefineThreadTrack(_) => BothAreNamedAfter(thread, []);
    case DefineCounterTrack(_, _, text) => BothAreNamedAfter(thread, text);
  }

  ghost predicate ToldOnOwnTrack(h: Heard, part: Thread -> Part) {
    var p := part(h.owner);
    && p.ctx.WellFormed() && LegalRun(p.env, p.ctx, p.turns) && Taken(p)
    && OnTrackOf(h.event, p.env.thread)
  }

  lemma {:induction false} PacketTellsOnOwnTrack(ts: seq<Tagged>, run: seq<Step>, part: Thread -> Part, k: nat)
    requires CountersRun(run) && Holds(ts, run, part) && k < |ts|
    ensures forall h <- Tell(ts[k].owner, Says(ReadAll(Plain(ts[..k])), ts[k].packet)) :: ToldOnOwnTrack(h, part)
  {
    hide CountersRun, Holds, Plain, LegalRun, ReadAll, NamedAfter, Taken;
    match ts[k].packet
    case SliceBegin(_, t, _, _) => TrackIsOwn(ts, run, part, k, t);
    case SliceEnd(_, t, _, _) => TrackIsOwn(ts, run, part, k, t);
    case CounterValue(_, u, _) => TrackIsOwn(ts, run, part, k, u);
    case _ =>
  }

  lemma {:induction false} AllToldOnOwnTracks(ts: seq<Tagged>, run: seq<Step>, part: Thread -> Part, n: nat)
    requires CountersRun(run) && Holds(ts, run, part) && n <= |ts|
    ensures forall h <- Hear(ts[..n]) :: ToldOnOwnTrack(h, part)
  {
    hide CountersRun, Holds, ToldOnOwnTrack, Tell, Says, ReadAll, Plain;
    if n > 0 {
      AllToldOnOwnTracks(ts, run, part, n - 1);
      PacketTellsOnOwnTrack(ts, run, part, n - 1);
      assert ts[..n][..n - 1] == ts[..n - 1];
    }
  }

  /** Sorting what is heard by the names of the tracks sorts it by thread. */
  lemma {:induction false} SortedByTrack(hs: seq<Heard>, run: seq<Step>, part: Thread -> Part, t: Thread)
    requires CountersRun(run) && Recorded(run, part) && Taken(part(t))
    requires forall h <- hs :: ToldOnOwnTrack(h, part)
    ensures OnTracks(Events(hs), part(t).env.thread) == PartOf(hs, t)
  {
    hide CountersRun, Recorded, LegalRun, Taken, OnTrackOf, Run;
    if hs != [] {
      var n := |hs| - 1;
      SortedByTrack(hs[..n], run, part, t);
      assert Events(hs)[..n] == Events(hs[..n]);
      var u := hs[n].owner;
      assert ToldOnOwnTrack(hs[n], part);
      if u != t && OnTrackOf(hs[n].event, part(t).env.thread) {
        TracksTellThreads(hs[n].event, run, t, part, u);
      }
    }
  }

  lemma {:induction false} TracksTellThreads(e: Event, run: seq<Step>, t: Thread, part: Thread -> Part, u: Thread)
    requires CountersRun(run) && Recorded(run, part) && t != u && Taken(part(t))
    requires part(u).ctx.WellFormed() && LegalRun(part(u).env, part(u).ctx, part(u).turns) && Taken(part(u))
    requires OnTrackOf(e, part(t).env.thread)
    ensures !OnTrackOf(e, part(u).env.thread)
  {
    hide NamedAfter, Run, LegalRun, NeverWraps, Program, Script, ShortCalls, Shared.Runs, Shared.InRange;
    var p, q := part(t), part(u);
    assert Plays(run, t, p) && Plays(run, u, q);
    Shared.JoinedThreadsDiffer(CounterSteps(run), t, p.env, p.ctx, p.turns, u, q.env, q.ctx, q.turns);
    if OnTrackOf(e, q.env.thread) {
      NamesApart(e.track.text, p.env.thread, q.env.thread);
    }
  }

  lemma {:induction false} FileIsShort(ts: seq<Tagged>, run: seq<Step>, part: Thread -> Part)
    requires Holds(ts, run, part)
    ensures AllShort(Plain(ts))
  {
    hide Own, Run, LegalRun, Program, Script, Plain, ShortNames;
    PlainAt(ts);
    forall k | 0 <= k < |ts| ensures ShortNames(Plain(ts)[k]) {
      var u := ts[k].owner;
      assert HoldsOf(ts, run, u, part(u));
      RunShort(part(u).env, part(u).ctx, part(u).turns);
      SomewhereIsOwn(ts, k);
    }
  }

  lemma {:induction false} FileIsLabelled(ts: seq<Tagged>, run: seq<Step>, part: Thread -> Part)
    requires CountersRun(run) && Holds(ts, run, part)
    ensures forall p <- Plain(ts) :: Labelled(p)
  {
    hide CountersRun, Own, Run, LegalRun, NeverWraps, Ascending, Program, Script, Plain, ShortCalls, Labelled;
    PlainAt(ts);
    forall k | 0 <= k < |ts| ensures Labelled(Plain(ts)[k]) {
      var u := ts[k].owner;
      assert HoldsOf(ts, run, u, part(u));
      PartIsFaithful(run, u, part(u));
      SessionIsLabelled(part(u).env, part(u).ctx, part(u).turns);
      SomewhereIsOwn(ts, k);
    }
  }

  // ---------- The whole pipeline ----------

  /**
    * After any run of any threads on the shared counters, each in program order, and any saving order:
    * the events a reader of the file's bytes finds on a thread's tracks are exactly the slices and
    * counters its calls asked for, if and only if no name of another thread under the same id was
    * defined last before one of its uses.
    */
  lemma {:induction false} FileSaysWhatWasAsked(
    size: nat, run: seq<Step>, order: seq<Thread>, part: Thread -> Part, t: Thread)
    requires Runs(size, run) && Recorded(run, part) && File.Quiet(Buffers(size, run), order)
    ensures part(t).ctx.WellFormed() && LegalRun(part(t).env, part(t).ctx, part(t).turns)
    ensures var file := Saved(size, run, order);
            var events := ReadBytes(StreamBytes(File.Packets(file))).events;
            var asked := IdealRun(part(t).env, part(t).turns).events;
            var undisturbed := Undisturbed(TagChunks(file), t, NameTable);
            && Events(Hear(TagChunks(file))) == events
            && (PartOf(Hear(TagChunks(file)), t) == asked <==> undisturbed)
            && (Taken(part(t)) ==> (OnTracks(events, part(t).env.thread) == asked <==> undisturbed))
  {
    hide CountersRun, File.Runs, Recorded, File.Quiet, Buffers, Saved, TagChunks, Plain, Own, File.Packets;
    hide StreamBytes, ReadBytes, ReadAll, Hear, Events, PartOf, EventsOf, Undisturbed, Orderly;
    hide IdealRun, ShortNames;
    hide Plays, Run, LegalRun, ToldOnOwnTrack, Taken, OnTracks, File.Leading, Labelled;
    var file := Saved(size, run, order);
    var ts := TagChunks(file);
    FileHolds(size, run, order, part);
    FileIsShort(ts, run, part);
    FileIsLabelled(ts, run, part);
    BytesAreRead(File.Packets(file));
    HearingIsReading(ts, t);
    OwnIsOrderly(ts, run, part, t);
    ThreadsReadAlone(ts, t);
    CategoriesUndisturbed(ts, run, part, t);
    TracksUndisturbed(ts, run, part, t);
    OnlyNamesMatter(ts, t);
    IsLegal(run, part, t);
    if Taken(part(t)) {
      AllToldOnOwnTracks(ts, run, part, |ts|);
      assert ts[..|ts|] == ts;
      SortedByTrack(Hear(ts), run, part, t);
    }
  }

  lemma {:induction false} IsLegal(run: seq<Step>, part: Thread -> Part, t: Thread)
    requires Recorded(run, part)
    ensures part(t).ctx.WellFormed() && LegalRun(part(t).env, part(t).ctx, part(t).turns)
  {
    hide LegalRun, Script, Program, NeverWraps, Run;
    assert Plays(run, t, part(t));
  }

  lemma {:induction false} OnlyNamesMatter(ts: seq<Tagged>, t: Thread)
    requires Undisturbed(ts, t, CategoryTable) && Undisturbed(ts, t, TrackTable)
    ensures (forall table :: Undisturbed(ts, t, table)) <==> Undisturbed(ts, t, NameTable)
  {
    hide Undisturbed;
    if Undisturbed(ts, t, NameTable) {
      forall table ensures Undisturbed(ts, t, table) {
        assert table == CategoryTable || table == NameTable || table == TrackTable;
      }
    }
  }

  /** So the file is right about every thread that drew no interning id in common with another one. */
  lemma {:induction false} DistinctDrawsAreRead(
    size: nat, run: seq<Step>, order: seq<Thread>, part: Thread -> Part, t: Thread)
    requires Runs(size, run) && Recorded(run, part) && File.Quiet(Buffers(size, run), order)
    requires forall u, x :: u != t && x in Counters(run).Drawn(t) ==> x !in Counters(run).Drawn(u)
    ensures PartOf(Hear(TagChunks(Saved(size, run, order))), t) == IdealRun(part(t).env, part(t).turns).events
    ensures part(t).ctx.WellFormed() && LegalRun(part(t).env, part(t).ctx, part(t).turns)
    ensures var events := ReadBytes(StreamBytes(File.Packets(Saved(size, run, order)))).events;
            Taken(part(t)) ==> OnTracks(events, part(t).env.thread) == IdealRun(part(t).env, part(t).turns).events
  {
    hide CountersRun, File.Runs, Recorded, File.Quiet, Buffers, Saved, TagChunks, Counters, Hear;
    hide PartOf, Undisturbed;
    hide IdealRun, Plays, Run, LegalRun, Taken, OnTracks, StreamBytes, ReadBytes, File.Packets;
    FileHolds(size, run, order, part);
    FileSaysWhatWasAsked(size, run, order, part, t);
    DistinctDrawsSuffice(TagChunks(Saved(size, run, order)), run, part, t);
  }
}
