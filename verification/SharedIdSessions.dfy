/**
  * Two threads that draw the same interning ids, the name for different texts: what they are asked to
  * record, the sessions that makes and their programs.
  */
module SharedIdSessions {
  import opened WireFormat
  import opened RecorderPackets
  import opened Recorder
  import opened RecorderRuns

  // ---------- What the threads are asked ----------

  function TextOf(a: Address): seq<byte> {
    if a == 1 then [65] else [66]
  }

  function Zeros(n: nat): (s: seq<u32>)
    ensures |s| == n
  {
    if n == 0 then [] else Zeros(n - 1) + [0]
  }

  function Fresh(): Ctx {
    Ctx(true, 0, 1, 0, Zeros(STACK_DEPTH_MAX), Zeros(STACK_DEPTH_MAX), map[], map[], map[])
  }

  function EnvA(): Env { Env(TextOf, 2) }
  function EnvB(): Env { Env(TextOf, 3) }
  const BEGIN_B := Turn(Begin(2, 0), Observed(false, 1, 3))

  /** Begin A, end A, begin A, ... */
  function TurnA(k: nat): Turn {
    if k % 2 == 0 then Turn(Begin(1, 0), Observed(k == 0, 1, 3)) else Turn(End(0), Observed(false, 0, 0))
  }

  function TurnsA(n: nat): (r: seq<Turn>)
    ensures |r| == n
  {
    if n == 0 then [] else TurnsA(n - 1) + [TurnA(n - 1)]
  }

  function AskedOf(n: nat): Thread -> Part {
    (t: Thread) => Asked(n, t)
  }

  /** Thread 0 records n begins and ends of a slice A, thread 1 begins a slice B, the others do nothing. */
  function Asked(n: nat, t: Thread): Part {
    if t == 0 then Part(EnvA(), Fresh(), TurnsA(n))
    else if t == 1 then Part(EnvB(), Fresh(), [BEGIN_B])
    else Part(Env(TextOf, 0), Fresh(), [])
  }

  const DEFINE_A: seq<Packet> :=
    [SequenceStart, DefineCategory(1, CATEGORY_TEXT), DefineThreadTrack(2), DefineEventName(3, [65])]
  const ALL_B: seq<Packet> :=
    [DefineCategory(1, CATEGORY_TEXT), DefineThreadTrack(3), DefineEventName(3, [66]), SliceBegin(0, 3, 1, 3)]

  function SliceA(k: nat): Packet {
    if k % 2 == 0 then SliceBegin(0, 2, 1, 3) else SliceEnd(0, 2, 1, 3)
  }

  /** What thread 0 records in its first n calls. */
  function AllA(n: nat): (r: seq<Packet>)
    ensures |r| == 4 + n && r[..4] == DEFINE_A
  {
    if n == 0 then DEFINE_A else AllA(n - 1) + [SliceA(n - 1)]
  }

  /** The context of thread 0 between its calls. */
  function Busy(depth: nat): Ctx {
    var zeros := Zeros(STACK_DEPTH_MAX);
    Ctx(false, 2, 1, depth, zeros[0 := 1], zeros[0 := 3], map[CATEGORY := 1], map[1 := 3], map[])
  }

  lemma {:induction false} FirstCallOfA()
    ensures Legal(Fresh(), TurnA(0).call)
    ensures Perform(EnvA(), Session(Fresh(), [], []), TurnA(0)) == Session(Busy(1), AllA(1), [1, 3])
  {
    var s := Session(Fresh(), [], []);
    var a := EnsureThreadInfo(EnvA(), s, TurnA(0).seen);
    var c := Fresh();
    var named := c.(needThreadId := false, threadId := 2, categories := map[CATEGORY := 1]);
    assert a == Session(named.(categoryIids := c.categoryIids[0 := 1]), DEFINE_A[..3], [1]);
    hide EnsureThreadInfo;
    assert AllA(1) == DEFINE_A + [SliceA(0)] by { assert AllA(0) == DEFINE_A; }
  }

  lemma {:induction false} LaterCallOfA(k: nat, out: seq<Packet>)
    requires k >= 1
    ensures Legal(Busy(k % 2), TurnA(k).call)
    ensures Perform(EnvA(), Session(Busy(k % 2), out, [1, 3]), TurnA(k)) ==
            Session(Busy((k + 1) % 2), out + [SliceA(k)], [1, 3])
  {
    var s := Session(Busy(k % 2), out, [1, 3]);
    if k % 2 == 0 {
      var a := EnsureThreadInfo(EnvA(), s, TurnA(k).seen);
      assert s.ctx.categoryIids[0 := 1] == s.ctx.categoryIids && s.ctx.nameIids[0 := 3] == s.ctx.nameIids;
      assert a == s;
      assert InternEvent(EnvA(), s, 1, 3) == s;
    }
  }

  lemma {:induction false} OneMoreTurn(env: Env, turns: seq<Turn>, t: Turn)
    requires LegalRun(env, Fresh(), turns) && Legal(Run(env, Fresh(), turns).ctx, t.call)
    ensures LegalRun(env, Fresh(), turns + [t])
    ensures Run(env, Fresh(), turns + [t]) == Perform(env, Run(env, Fresh(), turns), t)
    ensures NeverWraps(env, Fresh(), turns) && NoCounterWrap(Run(env, Fresh(), turns).ctx, t.call) ==>
              NeverWraps(env, Fresh(), turns + [t])
  {
    hide Perform, Legal, NoCounterWrap, Fresh;
    assert (turns + [t])[..|turns|] == turns;
  }

  lemma {:induction false} NoTurns(env: Env)
    ensures LegalRun(env, Fresh(), []) && NeverWraps(env, Fresh(), [])
    ensures Run(env, Fresh(), []) == Session(Fresh(), [], [])
  {
  }

  lemma {:induction false} SessionOfA(n: nat)
    requires n >= 1
    ensures LegalRun(EnvA(), Fresh(), TurnsA(n)) && NeverWraps(EnvA(), Fresh(), TurnsA(n))
    ensures Run(EnvA(), Fresh(), TurnsA(n)) == Session(Busy(n % 2), AllA(n), [1, 3])
  {
    hide Perform, Legal, Busy, AllA, Fresh, Run, LegalRun, NeverWraps;
    if n == 1 {
      NoTurns(EnvA());
      FirstCallOfA();
      OneMoreTurn(EnvA(), [], TurnA(0));
      assert TurnsA(0) == [];
    } else {
      SessionOfA(n - 1);
      LaterCallOfA(n - 1, AllA(n - 1));
      OneMoreTurn(EnvA(), TurnsA(n - 1), TurnA(n - 1));
      AllASnoc(n);
    }
  }

  lemma {:induction false} AllASnoc(n: nat)
    requires n >= 1
    ensures AllA(n) == AllA(n - 1) + [SliceA(n - 1)]
  {
  }

  lemma {:induction false} CallOfB()
    ensures Legal(Fresh(), BEGIN_B.call)
    ensures var r := Perform(EnvB(), Session(Fresh(), [], []), BEGIN_B);
            r.out == ALL_B && r.drawn == [1, 3] && !r.ctx.needThreadId
  {
  }

  lemma {:induction false} SessionOfB()
    ensures LegalRun(EnvB(), Fresh(), [BEGIN_B]) && NeverWraps(EnvB(), Fresh(), [BEGIN_B])
    ensures Run(EnvB(), Fresh(), [BEGIN_B]) == Perform(EnvB(), Session(Fresh(), [], []), BEGIN_B)
    ensures var r := Run(EnvB(), Fresh(), [BEGIN_B]); r.out == ALL_B && r.drawn == [1, 3] && !r.ctx.needThreadId
  {
    hide Perform, Fresh, Run, LegalRun, NeverWraps;
    NoTurns(EnvB());
    CallOfB();
    OneMoreTurn(EnvB(), [], BEGIN_B);
    assert [] + [BEGIN_B] == [BEGIN_B];
  }

  // ---------- Their programs ----------

  /** A begin is counted, an end is not. */
  function Counting(k: nat): seq<RecorderRuns.Step> {
    if k % 2 == 0 then [Count(0)] else []
  }

  function LaterStepsOfA(k: nat): seq<RecorderRuns.Step> {
    Counting(k) + [Emit(0, SliceA(k))]
  }

  const FIRST_STEPS_A: seq<RecorderRuns.Step> :=
    [Count(0), Emit(0, SequenceStart), ReadId(0), AddId(0), Emit(0, DEFINE_A[1]), NewThreadId(0), Emit(0, DEFINE_A[2]),
     ReadId(0), AddId(0), Emit(0, DEFINE_A[3]), Emit(0, SliceA(0))]
  const STEPS_B: seq<RecorderRuns.Step> :=
    [Count(1), ReadId(1), AddId(1), Emit(1, ALL_B[0]), NewThreadId(1), Emit(1, ALL_B[1]), ReadId(1), AddId(1),
     Emit(1, ALL_B[2]), Emit(1, ALL_B[3])]

  function StepsOfA(n: nat): seq<RecorderRuns.Step> {
    if n <= 1 then FIRST_STEPS_A else StepsOfA(n - 1) + LaterStepsOfA(n - 1)
  }

  lemma {:induction false} StepsSnoc(t: Thread, ps: seq<Packet>, p: Packet)
    ensures StepsOf(t, ps + [p]) == StepsOf(t, ps) + StepsFor(t, p)
  {
    assert (ps + [p])[..|ps|] == ps;
  }

  lemma {:induction false} StepsOfFour(t: Thread, ps: seq<Packet>)
    requires |ps| == 4
    ensures StepsOf(t, ps) == StepsFor(t, ps[0]) + StepsFor(t, ps[1]) + StepsFor(t, ps[2]) + StepsFor(t, ps[3])
  {
    hide StepsFor;
    assert ps[..1] == [ps[0]] && ps[..2][..1] == ps[..1] && ps[..3][..2] == ps[..2] && ps[..1][..0] == [];
    assert StepsOf(t, ps[..1]) == StepsFor(t, ps[0]);
    assert StepsOf(t, ps[..2]) == StepsOf(t, ps[..1]) + StepsFor(t, ps[1]);
    assert StepsOf(t, ps[..3]) == StepsOf(t, ps[..2]) + StepsFor(t, ps[2]);
  }

  lemma {:induction false} ScriptSnoc(t: Thread, env: Env, turns: seq<Turn>, turn: Turn)
    requires LegalRun(env, Fresh(), turns) && LegalRun(env, Fresh(), turns + [turn])
    requires Legal(Run(env, Fresh(), turns).ctx, turn.call)
    ensures Script(t, env, Fresh(), turns + [turn]) ==
            Script(t, env, Fresh(), turns) + CallSteps(t, env, Run(env, Fresh(), turns), turn)
  {
    hide Perform, Legal, Fresh, CallSteps;
    assert (turns + [turn])[..|turns|] == turns;
  }

  lemma {:induction false} ScriptOfA(n: nat)
    requires n >= 1
    ensures LegalRun(EnvA(), Fresh(), TurnsA(n)) && Script(0, EnvA(), Fresh(), TurnsA(n)) == StepsOfA(n)
  {
    hide Perform, Legal, Busy, AllA, Fresh, Run, LegalRun, NeverWraps, Script, CallSteps;
    SessionOfA(n);
    if n == 1 {
      assert TurnsA(0) == [] && TurnsA(0) + [TurnA(0)] == [TurnA(0)];
      NoTurns(EnvA());
      NoScript(0, EnvA());
      FirstAdded();
      ScriptSnoc(0, EnvA(), [], TurnA(0));
    } else {
      ScriptOfA(n - 1);
      SessionOfA(n - 1);
      LaterAdded(n - 1, AllA(n - 1));
      ScriptSnoc(0, EnvA(), TurnsA(n - 1), TurnA(n - 1));
    }
  }

  lemma {:induction false} NoScript(t: Thread, env: Env)
    ensures LegalRun(env, Fresh(), []) && Script(t, env, Fresh(), []) == []
  {
  }

  lemma {:induction false} FirstAdded()
    ensures Legal(Fresh(), TurnA(0).call)
    ensures CallSteps(0, EnvA(), Session(Fresh(), [], []), TurnA(0)) == FIRST_STEPS_A
  {
    FirstCallOfA();
    hide Perform, StepsOf;
    var ps := Added(EnvA(), Session(Fresh(), [], []), TurnA(0));
    assert AllA(0) == DEFINE_A && AllA(1) == DEFINE_A + [SliceA(0)];
    assert ps == AllA(1);
    StepsOfFour(0, DEFINE_A);
    StepsSnoc(0, DEFINE_A, SliceA(0));
  }

  lemma {:induction false} NoStepsOf(t: Thread)
    ensures StepsOf(t, []) == []
  {
  }

  lemma {:induction false} LaterAdded(k: nat, out: seq<Packet>)
    requires k >= 1
    ensures var s := Session(Busy(k % 2), out, [1, 3]);
            s.WellFormed() && Legal(s.ctx, TurnA(k).call) && CallSteps(0, EnvA(), s, TurnA(k)) == LaterStepsOfA(k)
  {
    LaterCallOfA(k, out);
    hide Perform, StepsOf;
    var s := Session(Busy(k % 2), out, [1, 3]);
    assert Added(EnvA(), s, TurnA(k)) == [SliceA(k)];
    NoStepsOf(0);
    StepsSnoc(0, [], SliceA(k));
    assert [] + [SliceA(k)] == [SliceA(k)];
  }

  lemma {:induction false} AddedByB()
    ensures Legal(Fresh(), BEGIN_B.call)
    ensures CallSteps(1, EnvB(), Session(Fresh(), [], []), BEGIN_B) == STEPS_B
  {
    CallOfB();
    hide Perform, StepsOf;
    assert Added(EnvB(), Session(Fresh(), [], []), BEGIN_B) == ALL_B;
    StepsOfFour(1, ALL_B);
  }

  lemma {:induction false} ScriptOfB()
    ensures LegalRun(EnvB(), Fresh(), [BEGIN_B]) && Script(1, EnvB(), Fresh(), [BEGIN_B]) == STEPS_B
  {
    hide Perform, Legal, Fresh, Run, LegalRun, NeverWraps, Script, CallSteps;
    SessionOfB();
    NoTurns(EnvB());
    NoScript(1, EnvB());
    AddedByB();
    assert [] + [BEGIN_B] == [BEGIN_B];
    ScriptSnoc(1, EnvB(), [], BEGIN_B);
  }
}
