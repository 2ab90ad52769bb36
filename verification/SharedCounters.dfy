/**
  * The counters all recording threads share, as atomic steps in any interleaving. An interning id
  * is read in one step and the counter is incremented in another; thread ids and the packet count
  * are fetched and incremented at once.
  */
module SharedCounters {
  import opened WireFormat
  import opened RecorderPackets
  import opened Recorder

  datatype Step =
    | ReadId(t: Thread)
    | AddId(t: Thread)
    | NewThreadId(t: Thread)
    | CountPacket(t: Thread)

  datatype Grant = Grant(t: Thread, id: u32)

  datatype Shared = Shared(
    interning: u32,
    threadIds: u32,
    packets: u32,
    pending: set<Thread>,
    drawn: map<Thread, seq<u32>>,
    grants: seq<Grant>,
    firsts: seq<Thread>)
  {
    function Drawn(t: Thread): seq<u32> {
      if t in drawn then drawn[t] else []
    }
  }

  /** The counters as enabling tracing leaves them. */
  function Init(): Shared {
    Shared(1, 1, 0, {}, map[], [], [])
  }

  /** A thread increments after it reads, and reads nothing in between. */
  predicate Enabled(s: Shared, e: Step) {
    match e
    case ReadId(t) => t !in s.pending
    case AddId(t) => t in s.pending
    case NewThreadId(_) => true
    case CountPacket(_) => true
  }

  /** The step's increment stays within 32 bits. */
  predicate NoWrap(s: Shared, e: Step) {
    match e
    case ReadId(_) => true
    case AddId(_) => s.interning + 1 < U32
    case NewThreadId(_) => s.threadIds + 1 < U32
    case CountPacket(_) => s.packets + 1 < U32
  }

  function Apply(s: Shared, e: Step): Shared {
    match e
    case ReadId(t) => s.(pending := s.pending + {t}, drawn := s.drawn[t := s.Drawn(t) + [s.interning]])
    case AddId(t) => s.(pending := s.pending - {t}, interning := (s.interning + 1) % U32)
    case NewThreadId(t) =>
      var id := (s.threadIds + 1) % U32;
      s.(threadIds := id, grants := s.grants + [Grant(t, id)])
    case CountPacket(t) =>
      var n := (s.packets + 1) % U32;
      s.(packets := n, firsts := if n == 1 then s.firsts + [t] else s.firsts)
  }

  function Exec(steps: seq<Step>): Shared {
    if steps == [] then Init() else Apply(Exec(steps[..|steps| - 1]), steps[|steps| - 1])
  }

  predicate Runs(steps: seq<Step>) {
    steps == [] || (Runs(steps[..|steps| - 1]) && Enabled(Exec(steps[..|steps| - 1]), steps[|steps| - 1]))
  }

  predicate InRange(steps: seq<Step>) {
    steps == [] || (InRange(steps[..|steps| - 1]) && NoWrap(Exec(steps[..|steps| - 1]), steps[|steps| - 1]))
  }

  // ---------- One thread's part of a run ----------

  function Mine(steps: seq<Step>, t: Thread): seq<Step> {
    if steps == [] then []
    else Mine(steps[..|steps| - 1], t) + if steps[|steps| - 1].t == t then [steps[|steps| - 1]] else []
  }

  /** How often the thread has found itself first. */
  function FirstsOf(ts: seq<Thread>, t: Thread): nat {
    if ts == [] then 0 else FirstsOf(ts[..|ts| - 1], t) + if ts[|ts| - 1] == t then 1 else 0
  }

  lemma {:induction false} OneMoreStep(steps: seq<Step>, e: Step, t: Thread)
    ensures Mine(steps + [e], t) == if e.t == t then Mine(steps, t) + [e] else Mine(steps, t)
    ensures Exec(steps + [e]) == Apply(Exec(steps), e)
    ensures FirstsOf(Exec(steps + [e]).firsts, t) == FirstsOf(Exec(steps).firsts, t) +
            if e.CountPacket? && e.t == t && Exec(steps + [e]).packets == 1 then 1 else 0
  {
    assert (steps + [e])[..|steps|] == steps;
    var s := Exec(steps);
    assert (s.firsts + [e.t])[..|s.firsts|] == s.firsts;
  }

  // ---------- What every interleaving keeps ----------

  ghost predicate ThreadInv(s: Shared, t: Thread) {
    && Ascending(s.Drawn(t))
    && (forall k :: 0 <= k < |s.Drawn(t)| ==> 1 <= s.Drawn(t)[k] <= s.interning)
    && (t !in s.pending ==> forall k :: 0 <= k < |s.Drawn(t)| ==> s.Drawn(t)[k] < s.interning)
  }

  ghost predicate GrantInv(s: Shared) {
    && (forall k :: 0 <= k < |s.grants| ==> 1 < s.grants[k].id <= s.threadIds)
    && (forall j, k :: 0 <= j < k < |s.grants| ==> s.grants[j].id < s.grants[k].id)
  }

  ghost predicate Inv(s: Shared) {
    && (forall t :: ThreadInv(s, t))
    && GrantInv(s)
    && 1 <= s.threadIds && 1 <= s.interning
    && |s.firsts| == (if s.packets == 0 then 0 else 1)
  }

  lemma {:induction false} StepKeepsInv(s: Shared, e: Step)
    requires Inv(s) && Enabled(s, e) && NoWrap(s, e)
    ensures Inv(Apply(s, e))
  {
    var r := Apply(s, e);
    forall t ensures ThreadInv(r, t) {
      assert ThreadInv(s, t);
      if e.ReadId? && e.t == t {
        assert r.Drawn(t) == s.Drawn(t) + [s.interning];
      } else {
        assert r.Drawn(t) == s.Drawn(t);
      }
    }
  }

  /**
    * Under every interleaving: each thread draws ascending ids, none of them 0, no two threads are granted
    * the same thread id, and at most one thread is told to write the sequence start.
    */
  lemma {:induction false} RunKeepsInv(steps: seq<Step>)
    requires Runs(steps) && InRange(steps)
    ensures Inv(Exec(steps))
  {
    hide Inv, Apply, Enabled, NoWrap;
    if steps == [] {
      InitHolds();
    } else {
      var n := |steps| - 1;
      RunKeepsInv(steps[..n]);
      StepKeepsInv(Exec(steps[..n]), steps[n]);
    }
  }

  lemma {:induction false} InitHolds()
    ensures Inv(Init())
  {
  }

  // ---------- Threads recording together ----------

  /** The session of thread t drew its ids from this run of the counters, and its thread id too once it took one. */
  ghost predicate Joined(steps: seq<Step>, t: Thread, env: Env, c: Ctx, turns: seq<Turn>) {
    && c.Fresh() && LegalRun(env, c, turns) && NeverWraps(env, c, turns)
    && Recorder.Run(env, c, turns).drawn == Exec(steps).Drawn(t)
    && (!Recorder.Run(env, c, turns).ctx.needThreadId ==> Grant(t, env.thread) in Exec(steps).grants)
  }

  /** Such a session is one the theorems about single threads speak of. */
  lemma {:induction false} JoinedIsRegular(steps: seq<Step>, t: Thread, env: Env, c: Ctx, turns: seq<Turn>)
    requires Runs(steps) && InRange(steps) && Joined(steps, t, env, c, turns)
    ensures Regular(env, c, turns) && 0 !in Recorder.Run(env, c, turns).drawn
  {
    hide Recorder.Run, LegalRun, NeverWraps, Exec, Runs, InRange, Ascending;
    RunKeepsInv(steps);
    assert ThreadInv(Exec(steps), t);
  }

  /** Two threads that have taken their ids have different ones. */
  lemma {:induction false} JoinedThreadsDiffer(
    steps: seq<Step>, t1: Thread, env1: Env, c1: Ctx, turns1: seq<Turn>, t2: Thread, env2: Env, c2: Ctx,
        turns2: seq<Turn>)
    requires Runs(steps) && InRange(steps) && Joined(steps, t1, env1, c1, turns1) && Joined(steps, t2, env2, c2, turns2)
    requires t1 != t2
    requires !Recorder.Run(env1, c1, turns1).ctx.needThreadId && !Recorder.Run(env2, c2, turns2).ctx.needThreadId
    ensures env1.thread != env2.thread
  {
    hide Recorder.Run, LegalRun, NeverWraps, Exec, Runs, InRange;
    RunKeepsInv(steps);
    GrantsDiffer(Exec(steps), t1, t2, env1.thread, env2.thread);
  }

  /** Each thread's packets mean what its calls asked for, however the threads interleave on the counters. */
  lemma {:induction false} EveryThreadIsFaithful(steps: seq<Step>, t: Thread, env: Env, c: Ctx, turns: seq<Turn>)
    requires Runs(steps) && InRange(steps) && Joined(steps, t, env, c, turns)
    ensures Faithful(env, Recorder.Run(env, c, turns), IdealRun(env, turns))
  {
    hide Recorder.Run, LegalRun, NeverWraps, Faithful, IdealRun, Exec, Runs, InRange, Ascending;
    JoinedIsRegular(steps, t, env, c, turns);
    RunIsFaithful(env, c, turns);
  }

  /** No track of one thread is a track of another. */
  lemma {:induction false} TracksOfThreadsDiffer(
    steps: seq<Step>, t1: Thread, env1: Env, c1: Ctx, turns1: seq<Turn>, t2: Thread, env2: Env, c2: Ctx,
        turns2: seq<Turn>, id: nat)
    requires Runs(steps) && InRange(steps) && Joined(steps, t1, env1, c1, turns1) && Joined(steps, t2, env2, c2, turns2)
    requires t1 != t2
    ensures !(id in ReadAll(Recorder.Run(env1, c1, turns1).out).tracks &&
        id in ReadAll(Recorder.Run(env2, c2, turns2).out).tracks)
  {
    hide Recorder.Run, LegalRun, NeverWraps, IdealRun, Exec, Runs, InRange, Ascending, ReadAll;
    JoinedIsRegular(steps, t1, env1, c1, turns1);
    JoinedIsRegular(steps, t2, env2, c2, turns2);
    RunIsFaithful(env1, c1, turns1);
    RunIsFaithful(env2, c2, turns2);
    if !Recorder.Run(env1, c1, turns1).ctx.needThreadId && !Recorder.Run(env2, c2, turns2).ctx.needThreadId {
      JoinedThreadsDiffer(steps, t1, env1, c1, turns1, t2, env2, c2, turns2);
      TracksAreDistinct(env1, c1, turns1, env2, c2, turns2, id);
    }
  }

  lemma {:induction false} GrantsDiffer(s: Shared, t1: Thread, t2: Thread, id1: u32, id2: u32)
    requires GrantInv(s) && t1 != t2 && Grant(t1, id1) in s.grants && Grant(t2, id2) in s.grants
    ensures id1 != id2
  {
    var j :| 0 <= j < |s.grants| && s.grants[j] == Grant(t1, id1);
    var k :| 0 <= k < |s.grants| && s.grants[k] == Grant(t2, id2);
    assert j < k || k < j;
  }

  // ---------- Interning ids across threads ----------

  function Adds(steps: seq<Step>): nat {
    if steps == [] then 0 else Adds(steps[..|steps| - 1]) + if steps[|steps| - 1].AddId? then 1 else 0
  }

  lemma {:induction false} InterningCountsAdds(steps: seq<Step>)
    requires Runs(steps) && InRange(steps)
    ensures Exec(steps).interning == 1 + Adds(steps)
  {
    if steps != [] {
      InterningCountsAdds(steps[..|steps| - 1]);
    }
  }

  lemma {:induction false} AddsBetween(steps: seq<Step>, i: nat)
    requires i <= |steps|
    ensures Adds(steps[..i]) <= Adds(steps)
    ensures Adds(steps[..i]) == Adds(steps) <==> forall k :: i <= k < |steps| ==> !steps[k].AddId?
  {
    if i == |steps| {
      assert steps[..i] == steps;
    } else {
      var n := |steps| - 1;
      AddsBetween(steps[..n], i);
      assert steps[..n][..i] == steps[..i];
      assert forall k :: i <= k < n ==> steps[..n][k] == steps[k];
      assert (forall k :: i <= k < |steps| ==> !steps[k].AddId?) <==>
             (forall k :: i <= k < n ==> !steps[k].AddId?) && !steps[n].AddId?;
    }
  }

  lemma {:induction false} RunsPrefix(steps: seq<Step>, i: nat)
    requires Runs(steps) && InRange(steps) && i <= |steps|
    ensures Runs(steps[..i]) && InRange(steps[..i])
  {
    if i == |steps| {
      assert steps[..i] == steps;
    } else {
      var n := |steps| - 1;
      RunsPrefix(steps[..n], i);
      assert steps[..n][..i] == steps[..i];
    }
  }

  /** The id a read at position k takes. */
  function IdReadAt(steps: seq<Step>, k: nat): u32
    requires k < |steps|
  {
    Exec(steps[..k]).interning
  }

  /** Two reads take the same id exactly when no increment falls between them. */
  lemma {:induction false} SameIdExactly(steps: seq<Step>, i: nat, j: nat)
    requires Runs(steps) && InRange(steps) && i < j < |steps| && steps[i].ReadId? && steps[j].ReadId?
    ensures IdReadAt(steps, i) == IdReadAt(steps, j) <==> forall k :: i <= k < j ==> !steps[k].AddId?
  {
    hide Exec, Runs, InRange, Adds;
    RunsPrefix(steps, i);
    RunsPrefix(steps, j);
    InterningCountsAdds(steps[..i]);
    InterningCountsAdds(steps[..j]);
    AddsBetween(steps[..j], i);
    assert steps[..j][..i] == steps[..i];
    assert forall k :: 0 <= k < j ==> steps[..j][k] == steps[k];
  }

  /** Two threads that read before either increments share an id, for different names. */
  lemma {:induction false} ThreadsCanShareAnId()
    ensures var steps := [ReadId(0), ReadId(1), AddId(0), AddId(1)];
            Runs(steps) && InRange(steps) && Exec(steps).Drawn(0) == Exec(steps).Drawn(1) == [1]
  {
    var s1, s2, s3, s4 := [ReadId(0)], [ReadId(0), ReadId(1)], [ReadId(0), ReadId(1), AddId(0)],
        [ReadId(0), ReadId(1), AddId(0), AddId(1)];
    assert s1[..0] == [] && s2[..1] == s1 && s3[..2] == s2 && s4[..3] == s3;
    assert Exec(s1).Drawn(0) == [1];
    assert Exec(s2).Drawn(1) == [1] && Exec(s2).Drawn(0) == [1];
  }
}
