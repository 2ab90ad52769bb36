/**
  * A thread's whole session: any sequence of calls on a context, with the other threads at work on
  * the shared counters throughout.
  */
module RecordingSession {
  import opened WireFormat
  import opened RecorderPackets
  import opened Recorder
  import opened TraceConfiguration
  import opened TraceRecording
  import opened RecorderRuns
  import Shared = SharedCounters

  /** The call as recorded: its time of day moved by the guest's time difference. */
  function Stamped(call: Call, diff: i64): (r: Call)
    ensures (r.ts - (call.ts + diff)) % U64 == 0
    ensures 0 <= call.ts + diff < U64 ==> r == call.(ts := call.ts + diff)
  {
    call.(ts := (call.ts + diff) % U64)
  }

  // ---------- The thread id is settled once ----------

  lemma {:induction false} NoThreadYet(env1: Env, env2: Env, s: Session, t: Turn)
    requires s.WellFormed() && Legal(s.ctx, t.call) && Perform(env1, s, t).ctx.needThreadId
    ensures s.ctx.needThreadId && Perform(env2, s, t) == Perform(env1, s, t)
  {
    hide EnsureThreadInfo, InternEvent, OpenSlice, CloseSlice, GetCounter, AddValue;
  }

  lemma {:induction false} ThreadIdStays(env: Env, s: Session, t: Turn)
    requires s.WellFormed() && Legal(s.ctx, t.call)
    ensures !s.ctx.needThreadId ==>
        Perform(env, s, t).ctx.threadId == s.ctx.threadId && !Perform(env, s, t).ctx.needThreadId
  {
    hide Start, InternCategory, InternEvent, OpenSlice, CloseSlice, GetCounter, AddValue;
  }

  /** Until the thread takes its id, a run does not depend on which one it will be. */
  lemma {:induction false} RunBeforeThread(env1: Env, env2: Env, c: Ctx, turns: seq<Turn>)
    requires c.WellFormed() && LegalRun(env1, c, turns) && Run(env1, c, turns).ctx.needThreadId
    ensures LegalRun(env2, c, turns) && Run(env2, c, turns) == Run(env1, c, turns)
  {
    hide Perform;
    if turns != [] {
      var n := |turns| - 1;
      NoThreadYet(env1, env2, Run(env1, c, turns[..n]), turns[n]);
      RunBeforeThread(env1, env2, c, turns[..n]);
    }
  }

  /** And so do its steps. */
  lemma {:induction false} ScriptBeforeThread(me: Thread, env1: Env, env2: Env, c: Ctx, turns: seq<Turn>)
    requires c.WellFormed() && LegalRun(env1, c, turns) && Run(env1, c, turns).ctx.needThreadId
    ensures LegalRun(env2, c, turns) && Script(me, env2, c, turns) == Script(me, env1, c, turns)
  {
    hide Perform, StepsOf;
    if turns != [] {
      var n := |turns| - 1;
      NoThreadYet(env1, env2, Run(env1, c, turns[..n]), turns[n]);
      RunBeforeThread(env1, env2, c, turns[..n]);
      ScriptBeforeThread(me, env1, env2, c, turns[..n]);
    }
  }

  /** One more call, seen through the thread id known after it. */
  lemma {:induction false} Advance(
    text: Address -> seq<byte>, c: Ctx, turns: seq<Turn>, s: Session, r: Session, t: Turn)
    requires c.WellFormed() && IsRun(text, c, turns, s) && s.WellFormed() && Legal(s.ctx, t.call)
    requires r == Perform(Env(text, r.ctx.threadId), s, t)
    ensures IsRun(text, c, turns + [t], r)
  {
    hide Perform;
    var before, after := Env(text, s.ctx.threadId), Env(text, r.ctx.threadId);
    ThreadIdStays(after, s, t);
    if s.ctx.needThreadId {
      RunBeforeThread(before, after, c, turns);
    }
    assert (turns + [t])[..|turns|] == turns;
  }

  /** The session is what the calls make of the context, under the thread id it has. */
  ghost predicate IsRun(text: Address -> seq<byte>, c: Ctx, turns: seq<Turn>, s: Session)
    requires c.WellFormed()
  {
    var env := Env(text, s.ctx.threadId);
    LegalRun(env, c, turns) && s == Run(env, c, turns)
  }

  lemma {:induction false} AdvanceSteps(
    me: Thread, text: Address -> seq<byte>, c: Ctx, turns: seq<Turn>, s: Session, r: Session, t: Turn)
    requires c.WellFormed() && IsRun(text, c, turns, s) && s.WellFormed() && Legal(s.ctx, t.call)
    requires r == Perform(Env(text, r.ctx.threadId), s, t)
    ensures IsRun(text, c, turns + [t], r)
    ensures Script(me, Env(text, r.ctx.threadId), c, turns + [t]) ==
            Script(me, Env(text, s.ctx.threadId), c, turns) + CallSteps(me, Env(text, r.ctx.threadId), s, t)
  {
    hide Perform, StepsOf;
    var before, after := Env(text, s.ctx.threadId), Env(text, r.ctx.threadId);
    Advance(text, c, turns, s, r, t);
    ThreadIdStays(after, s, t);
    if s.ctx.needThreadId {
      RunBeforeThread(before, after, c, turns);
      ScriptBeforeThread(me, before, after, c, turns);
    }
    assert (turns + [t])[..|turns|] == turns;
  }

  // ---------- The accesses of a call are its steps ----------

  lemma {:induction false} CounterStepsConcat(a: seq<RecorderRuns.Step>, b: seq<RecorderRuns.Step>)
    ensures CounterSteps(a + b) == CounterSteps(a) + CounterSteps(b)
  {
    hide CounterPart;
    if b == [] {
      assert a + b == a;
    } else {
      assert (a + b)[..|a + b| - 1] == a + b[..|b| - 1];
      CounterStepsConcat(a, b[..|b| - 1]);
    }
  }

  /** What writing packets does to the counters. */
  function Draws(me: Thread, ps: seq<Packet>): seq<Shared.Step> {
    CounterSteps(StepsOf(me, ps))
  }

  lemma {:induction false} DrawsOne(me: Thread, ps: seq<Packet>, p: Packet)
    ensures Draws(me, ps + [p]) == Draws(me, ps) +
            if p.DefineCategory? || p.DefineEventName? then [Shared.ReadId(me), Shared.AddId(me)]
            else if p.DefineThreadTrack? then [Shared.NewThreadId(me)] else []
  {
    hide CounterSteps, StepsFor;
    assert (ps + [p])[..|ps|] == ps;
    CounterStepsConcat(StepsOf(me, ps), StepsFor(me, p));
    StepsDraw(me, p);
  }

  lemma {:induction false} StepsDraw(me: Thread, p: Packet)
    ensures CounterSteps(StepsFor(me, p)) ==
            if p.DefineCategory? || p.DefineEventName? then [Shared.ReadId(me), Shared.AddId(me)]
            else if p.DefineThreadTrack? then [Shared.NewThreadId(me)] else []
  {
    var e := RecorderRuns.Emit(me, p);
    var draw, take := [RecorderRuns.ReadId(me), RecorderRuns.AddId(me)], [RecorderRuns.NewThreadId(me)];
    assert [e][..0] == [] && take[..0] == [] && draw[..1] == [draw[0]] && [draw[0]][..0] == [];
    CounterStepsConcat(draw, [e]);
    CounterStepsConcat(take, [e]);
    assert draw + [e] == [draw[0], draw[1], e] && take + [e] == [take[0], e];
    assert CounterSteps([e]) == [] && CounterSteps(take) == [Shared.NewThreadId(me)];
    assert CounterSteps([draw[0]]) == [Shared.ReadId(me)];
  }

  /** What a stage of a call does to the counters, by what it adds to the packets. */
  ghost predicate Adds(me: Thread, s: Session, r: Session, steps: seq<Shared.Step>) {
    s.out <= r.out && Draws(me, r.out) == Draws(me, s.out) + steps
  }

  lemma {:induction false} StartAdds(me: Thread, s: Session, first: bool)
    requires s.WellFormed()
    ensures Adds(me, s, Start(s, first), [])
  {
    hide Draws;
    DrawsOne(me, s.out, SequenceStart);
  }

  lemma {:induction false} InternCategoryAdds(me: Thread, s: Session, id: u32)
    requires s.Room()
    ensures Adds(me, s, InternCategory(s, id), DrawsUnless(me, CATEGORY in s.ctx.categories))
  {
    hide Draws;
    DrawsOne(me, s.out, DefineCategory(id, CATEGORY_TEXT));
  }

  lemma {:induction false} TakeThreadIdAdds(me: Thread, s: Session, thread: u32)
    requires s.WellFormed()
    ensures Adds(me, s, TakeThreadId(s, thread), ThreadIdIf(me, s.ctx.needThreadId))
  {
    hide Draws;
    DrawsOne(me, s.out, DefineThreadTrack(thread));
  }

  lemma {:induction false} InternEventAdds(me: Thread, env: Env, s: Session, name: Address, id: u32)
    requires s.Room()
    ensures Adds(me, s, InternEvent(env, s, name, id), DrawsUnless(me, name in s.ctx.events))
  {
    hide Draws;
    DrawsOne(me, s.out, DefineEventName(id, env.text(name)));
  }

  lemma {:induction false} AddsTwice(
    me: Thread, a: Session, b: Session, c: Session, x: seq<Shared.Step>, y: seq<Shared.Step>)
    requires Adds(me, a, b, x) && Adds(me, b, c, y)
    ensures Adds(me, a, c, x + y)
  {
    hide Draws;
  }

  lemma {:induction false} ThreadInfoAdds(me: Thread, env: Env, s: Session, seen: Observed)
    requires s.Room()
    ensures var r := Recorder.EnsureThreadInfo(env, s, seen);
            && Adds(me, s, r, DrawsUnless(me, CATEGORY in s.ctx.categories) + ThreadIdIf(me, s.ctx.needThreadId))
            && r.ctx.events == s.ctx.events
  {
    var a := Start(s, seen.first);
    var b := Recorder.InternCategory(a, seen.category);
    StartAdds(me, s, seen.first);
    InternCategoryAdds(me, a, seen.category);
    TakeThreadIdAdds(me, b, env.thread);
    hide Adds, DrawsUnless, ThreadIdIf;
    var x, y := DrawsUnless(me, CATEGORY in s.ctx.categories), ThreadIdIf(me, s.ctx.needThreadId);
    assert b.ctx.needThreadId == s.ctx.needThreadId;
    AddsTwice(me, s, a, b, [], x);
    AddsTwice(me, s, b, Recorder.TakeThreadId(b, env.thread), [] + x, y);
    assert [] + x == x;
  }

  lemma {:induction false} EventAdds(me: Thread, s: Session, r: Session, p: Packet)
    requires r.out == s.out + [p] && (p.SliceBegin? || p.SliceEnd? || p.CounterValue? || p.DefineCounterTrack?)
    ensures Adds(me, s, r, [])
  {
    hide Draws;
    DrawsOne(me, s.out, p);
  }

  lemma {:induction false} NothingAdds(me: Thread, s: Session)
    ensures Adds(me, s, s, [])
  {
    hide Draws;
  }

  /** The counter accesses of a call, but for its count, by what it adds to the packets. */
  lemma {:induction false} CallAdds(me: Thread, env: Env, s: Session, turn: Turn)
    requires s.WellFormed() && Legal(s.ctx, turn.call)
    ensures CallAccesses(me, s.ctx, turn.call) ==
            (if Counts(s.ctx, turn.call) then [Shared.CountPacket(me)] else []) + CallDraws(me, s.ctx, turn.call)
    ensures Adds(me, s, Perform(env, s, turn), CallDraws(me, s.ctx, turn.call))
  {
    hide Adds, DrawsUnless, ThreadIdIf, Recorder.EnsureThreadInfo;
    match turn.call
    case Begin(name, ts) =>
      if s.ctx.depth < STACK_DEPTH_MAX {
        BeginAdds(me, env, s, turn.seen, name, ts);
      } else {
        NothingAdds(me, s);
      }
    case End(ts) =>
      if 0 < s.ctx.depth < STACK_DEPTH_MAX {
        var d := s.ctx.depth - 1;
        EventAdds(me, s, Perform(env, s, turn),
            SliceEnd(ts, s.ctx.threadId, s.ctx.categoryIids[d], s.ctx.nameIids[d]));
      } else {
        NothingAdds(me, s);
      }
    case Counter(name, value, ts) => CounterAdds(me, env, s, turn.seen, name, value, ts);
  }

  function CallDraws(me: Thread, c: Ctx, call: Call): seq<Shared.Step> {
    if !Counts(c, call) then []
    else DrawsUnless(me, CATEGORY in c.categories) + ThreadIdIf(me, c.needThreadId) +
         if call.Begin? then DrawsUnless(me, call.name in c.events) else []
  }

  lemma {:induction false} BeginAdds(me: Thread, env: Env, s: Session, seen: Observed, name: Address, ts: u64)
    requires s.Room()
    ensures var a := Recorder.EnsureThreadInfo(env, s, seen);
            Adds(me, s, Recorder.OpenSlice(Recorder.InternEvent(env, a, name, seen.name), ts),
              DrawsUnless(me, CATEGORY in s.ctx.categories) + ThreadIdIf(me, s.ctx.needThreadId) +
              DrawsUnless(me, name in s.ctx.events))
  {
    var a := Recorder.EnsureThreadInfo(env, s, seen);
    var b := Recorder.InternEvent(env, a, name, seen.name);
    var c := b.ctx;
    var info := DrawsUnless(me, CATEGORY in s.ctx.categories) + ThreadIdIf(me, s.ctx.needThreadId);
    var draw := DrawsUnless(me, name in s.ctx.events);
    ThreadInfoAdds(me, env, s, seen);
    InternEventAdds(me, env, a, name, seen.name);
    EventAdds(me, b, Recorder.OpenSlice(b, ts),
        SliceBegin(ts, c.threadId, c.categoryIids[c.depth], c.nameIids[c.depth]));
    hide Adds, DrawsUnless, ThreadIdIf, Recorder.EnsureThreadInfo, Recorder.InternEvent, Recorder.OpenSlice;
    AddsTwice(me, s, a, b, info, draw);
    AddsTwice(me, s, b, Recorder.OpenSlice(b, ts), info + draw, []);
    assert info + draw + [] == info + draw;
  }

  lemma {:induction false} CounterAdds(
    me: Thread, env: Env, s: Session, seen: Observed, name: Address, value: i64, ts: u64)
    requires s.Room()
    ensures var a := Recorder.EnsureThreadInfo(env, s, seen);
            Adds(me, s, Recorder.AddValue(GetCounter(env, a, name), name, value, ts),
              DrawsUnless(me, CATEGORY in s.ctx.categories) + ThreadIdIf(me, s.ctx.needThreadId) + [])
  {
    var a := Recorder.EnsureThreadInfo(env, s, seen);
    var b := GetCounter(env, a, name);
    var r := Recorder.AddValue(b, name, value, ts);
    var info := DrawsUnless(me, CATEGORY in s.ctx.categories) + ThreadIdIf(me, s.ctx.needThreadId);
    ThreadInfoAdds(me, env, s, seen);
    if name in a.ctx.counters {
      NothingAdds(me, a);
    } else {
      EventAdds(me, a, b, DefineCounterTrack(CounterUuid(a.ctx), a.ctx.threadId, env.text(name)));
    }
    EventAdds(me, b, r, CounterValue(ts, b.ctx.counters[name], value));
    hide Adds, DrawsUnless, ThreadIdIf, Recorder.EnsureThreadInfo, GetCounter, Recorder.AddValue;
    AddsTwice(me, s, a, b, info, []);
    AddsTwice(me, s, b, r, info + [], []);
    assert info + [] + [] == info + [];
  }

  lemma {:induction false} DrawsConcat(me: Thread, a: seq<Packet>, b: seq<Packet>)
    ensures Draws(me, a + b) == Draws(me, a) + Draws(me, b)
  {
    hide StepsFor, CounterSteps;
    if b == [] {
      assert a + b == a;
      assert CounterSteps([]) == [] by { NoSteps(); }
    } else {
      var n := |b| - 1;
      assert (a + b)[..|a + b| - 1] == a + b[..n];
      DrawsConcat(me, a, b[..n]);
      CounterStepsConcat(StepsOf(me, a + b[..n]), StepsFor(me, b[n]));
      CounterStepsConcat(StepsOf(me, b[..n]), StepsFor(me, b[n]));
    }
  }

  /** The accesses a context makes are those of the call's steps in program order. */
  lemma {:induction false} AccessesAreSteps(me: Thread, env: Env, s: Session, turn: Turn)
    requires s.WellFormed() && Legal(s.ctx, turn.call)
    ensures CounterSteps(CallSteps(me, env, s, turn)) == CallAccesses(me, s.ctx, turn.call)
  {
    hide Perform, StepsOf, CounterSteps;
    CallAdds(me, env, s, turn);
    hide CallAccesses, CallDraws;
    var count := if Counts(s.ctx, turn.call) then [RecorderRuns.Count(me)] else [];
    CounterStepsConcat(count, StepsOf(me, Added(env, s, turn)));
    var added := Added(env, s, turn);
    DrawsConcat(me, s.out, added);
    var before := Draws(me, s.out);
    assert Draws(me, added) == (before + Draws(me, added))[|before|..];
    assert (before + CallDraws(me, s.ctx, turn.call))[|before|..] == CallDraws(me, s.ctx, turn.call);
    CountIsCounted(me);
    NoSteps();
  }

  lemma {:induction false} CountIsCounted(me: Thread)
    ensures CounterSteps([RecorderRuns.Count(me)]) == [Shared.CountPacket(me)]
  {
    assert [RecorderRuns.Count(me)][..0] == [];
  }

  // ---------- Sessions ----------

  /** What the theorem about the state machine says of a context. */
  ghost predicate ReadsAsAsked(ctx: TraceContext, c: Ctx, turns: seq<Turn>)
    reads ctx, ctx.config
  {
    var env := Env(ctx.text, ctx.threadId);
    c.Fresh() && IsRun(ctx.text, c, turns, ctx.History()) &&
    (NeverWraps(env, c, turns) ==> Shared.Joined(ctx.config.log, ctx.me, env, c, turns)) &&
    (Shared.InRange(ctx.config.log) && NeverWraps(env, c, turns) ==> Faithful(env, ctx.History(), IdealRun(env, turns)))
  }

  lemma {:induction false} ContextIsFaithful(ctx: TraceContext, c: Ctx, turns: seq<Turn>)
    requires ctx.Valid() && c.Fresh()
    requires IsRun(ctx.text, c, turns, ctx.History())
    ensures ReadsAsAsked(ctx, c, turns)
  {
    hide Run, LegalRun, NeverWraps, Faithful, IdealRun, Shared.Exec, Shared.Runs, Shared.InRange, StreamBytes;
    hide Ascending;
    var env := Env(ctx.text, ctx.threadId);
    if Shared.InRange(ctx.config.log) && NeverWraps(env, c, turns) {
      Shared.RunKeepsInv(ctx.config.log);
      assert Shared.ThreadInv(Shared.Exec(ctx.config.log), ctx.me);
      RunIsFaithful(env, c, turns);
    }
  }

  /**
    * Records calls until they are exhausted or a counter is traced with sixteen slices open. While
    * no 32-bit counter wraps, a reader of the thread's packets then sees what the calls asked for.
    */
  method Record(ctx: TraceContext, calls: seq<Call>) returns (n: nat, ghost turns: seq<Turn>)
    requires ctx.Valid() && ctx.State().Fresh() && ctx.flushed == [] && ctx.current == []
    requires ctx.config.Drawn(ctx.me) == [] && !ctx.config.tracingDisabled
    requires forall k :: 0 <= k < |calls| ==> ShortCall(ctx.text, calls[k])
    modifies ctx, ctx.traceBuffer, ctx.storage, ctx.config
    ensures ctx.Valid() && n <= |calls| && |turns| == n
    ensures forall k :: 0 <= k < n ==> turns[k].call == Stamped(calls[k], old(ctx.config.guestTimeDiff))
    ensures n < |calls| ==> calls[n].Counter? && ctx.depth == STACK_DEPTH_MAX
    ensures ReadsAsAsked(ctx, old(ctx.State()), turns)
    ensures HandedOver(old(ctx.storage.chunks), [], ctx.storage.chunks, ctx.flushed)
    ensures LegalRun(Env(ctx.text, ctx.threadId), old(ctx.State()), turns)
    ensures ctx.Ledger().steps ==
            old(ctx.Ledger()).steps + CounterSteps(Script(ctx.me, Env(ctx.text, ctx.threadId), old(ctx.State()), turns))
    ensures ctx.Ledger().firsts == old(ctx.Ledger()).firsts + Starts(ctx.History().out)
  {
    hide TraceContext.Valid, IsRun, ReadsAsAsked, Perform, HandedOver, Done, Entries.Plus, CallAccesses;
    hide CounterSteps, Script, Starts, Counts, LegalRun, TraceConfig.Accesses, TraceConfig.Firsts;
    n, turns := 0, [];
    ghost var c := ctx.State();
    ctx.DepthIsBounded();
    EmptyRun(ctx.text, c);
    NothingHandedOver(ctx.storage.chunks, []);
    NothingDone(ctx.me, ctx.text, c, old(ctx.Ledger()));
    while n < |calls| && (calls[n].Counter? ==> ctx.depth < STACK_DEPTH_MAX)
      invariant ctx.Valid() && n <= |calls| && |turns| == n
      invariant ctx.traceBuffer == old(ctx.traceBuffer) || fresh(ctx.traceBuffer)
      invariant ctx.config.Settings() == old(ctx.config.Settings())
      invariant forall k :: 0 <= k < n ==> turns[k].call == Stamped(calls[k], ctx.config.guestTimeDiff)
      invariant IsRun(ctx.text, c, turns, ctx.History())
      invariant Done(ctx.me, ctx.text, c, turns, ctx.History(), old(ctx.Ledger()), ctx.Ledger())
      invariant HandedOver(old(ctx.storage.chunks), [], ctx.storage.chunks, ctx.flushed)
    {
      ghost var s, chunks, flushed, ledger := ctx.History(), ctx.storage.chunks, ctx.flushed, ctx.Ledger();
      ghost var seen := RecordOne(ctx, calls[n]);
      ghost var t := Turn(Stamped(calls[n], ctx.config.guestTimeDiff), seen);
      MoreDone(ctx.me, ctx.text, c, turns, s, ctx.History(), t, old(ctx.Ledger()), ledger, ctx.Ledger());
      HandedOverTwice(old(ctx.storage.chunks), [], chunks, flushed, ctx.storage.chunks, ctx.flushed);
      turns := turns + [t];
      n := n + 1;
    }
    ctx.DepthIsBounded();
    ContextIsFaithful(ctx, c, turns);
    DoneMeans(ctx.me, ctx.text, c, turns, ctx.History(), old(ctx.Ledger()), ctx.Ledger());
  }

  /** The entries made since are the steps of the session, and one first for each start it wrote. */
  ghost predicate Done(
    me: Thread, text: Address -> seq<byte>, c: Ctx, turns: seq<Turn>, s: Session, before: Entries, after: Entries)
    requires c.WellFormed()
  {
    var env := Env(text, s.ctx.threadId);
    && LegalRun(env, c, turns)
    && after.steps == before.steps + CounterSteps(Script(me, env, c, turns))
    && after.firsts == before.firsts + Starts(s.out)
  }

  lemma {:induction false} NothingDone(me: Thread, text: Address -> seq<byte>, c: Ctx, e: Entries)
    requires c.WellFormed()
    ensures Done(me, text, c, [], Session(c, [], []), e, e)
  {
    NoSteps();
    assert e.steps + [] == e.steps;
  }

  lemma {:induction false} MoreDone(
    me: Thread, text: Address -> seq<byte>, c: Ctx, turns: seq<Turn>, s: Session, r: Session, t: Turn,
    before: Entries, middle: Entries, after: Entries)
    requires c.WellFormed() && IsRun(text, c, turns, s) && s.WellFormed() && Legal(s.ctx, t.call)
    requires r == Perform(Env(text, r.ctx.threadId), s, t)
    requires Done(me, text, c, turns, s, before, middle)
    requires after == middle.Plus(CallAccesses(me, s.ctx, t.call), t.seen.first)
    requires t.seen.first ==> Counts(s.ctx, t.call)
    ensures IsRun(text, c, turns + [t], r) && Done(me, text, c, turns + [t], r, before, after)
  {
    hide Perform, LegalRun, Run, Script, CallSteps, CallAccesses, CounterSteps, Starts, Counts;
    var was, env := Env(text, s.ctx.threadId), Env(text, r.ctx.threadId);
    AdvanceSteps(me, text, c, turns, s, r, t);
    AccessesAreSteps(me, env, s, t);
    CounterStepsConcat(Script(me, was, c, turns), CallSteps(me, env, s, t));
    StartExactlyWhenFirst(env, s, t);
  }

  lemma {:induction false} DoneMeans(
    me: Thread, text: Address -> seq<byte>, c: Ctx, turns: seq<Turn>, s: Session, before: Entries, after: Entries)
    requires c.WellFormed() && Done(me, text, c, turns, s, before, after)
    ensures LegalRun(Env(text, s.ctx.threadId), c, turns)
    ensures after.steps == before.steps + CounterSteps(Script(me, Env(text, s.ctx.threadId), c, turns))
    ensures after.firsts == before.firsts + Starts(s.out)
  {
  }

  lemma {:induction false} EmptyRun(text: Address -> seq<byte>, c: Ctx)
    requires c.WellFormed()
    ensures IsRun(text, c, [], Session(c, [], []))
  {
  }

  lemma {:induction false} TimeIsNoAccess(me: Thread, c: Ctx, call: Call, diff: i64)
    ensures CallAccesses(me, c, Stamped(call, diff)) == CallAccesses(me, c, call)
    ensures Counts(c, Stamped(call, diff)) == Counts(c, call)
  {
  }

  lemma {:induction false} EndsDoNothing(me: Thread, c: Ctx, boot: u64)
    ensures CallAccesses(me, c, End(boot)) == []
  {
  }

  method RecordOne(ctx: TraceContext, call: Call) returns (ghost seen: Observed)
    requires ctx.Valid() && Legal(ctx.State(), call) && !ctx.config.tracingDisabled && ShortCall(ctx.text, call)
    modifies ctx, ctx.traceBuffer, ctx.storage, ctx.config
    ensures ctx.Valid() && (ctx.traceBuffer == old(ctx.traceBuffer) || fresh(ctx.traceBuffer))
    ensures ctx.config.Settings() == old(ctx.config.Settings())
    ensures HandedOver(old(ctx.storage.chunks), old(ctx.flushed), ctx.storage.chunks, ctx.flushed)
    ensures old(ctx.History()).WellFormed()
    ensures var stamped := Stamped(call, old(ctx.config.guestTimeDiff));
            && ctx.Ledger() == old(ctx.Ledger()).Plus(CallAccesses(ctx.me, old(ctx.State()), stamped), seen.first)
            && (seen.first ==> Counts(old(ctx.State()), stamped))
    ensures ctx.History() ==
        Perform(Env(ctx.text, ctx.threadId), old(ctx.History()),
        Turn(Stamped(call, old(ctx.config.guestTimeDiff)), seen))
  {
    hide TraceContext.Valid, Perform, HandedOver, TraceConfig.Drawn, Entries.Plus, CallAccesses;
    ctx.DepthIsBounded();
    TimeIsNoAccess(ctx.me, ctx.State(), call, ctx.config.guestTimeDiff);
    match call {
      case Begin(name, boot) => seen := ctx.BeginTrace(name, boot);
      case End(boot) =>
        PlusTwice(ctx.Ledger(), [], false, []);
        EndsDoNothing(ctx.me, ctx.State(), boot);
        seen := ctx.EndTrace(boot);
      case Counter(name, value, boot) => seen := ctx.TraceCounter(name, value, boot);
    }
  }
}
