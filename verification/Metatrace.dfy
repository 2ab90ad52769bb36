/**
  * The metatrace ring buffer: many writers, one reader, no locks. Every access to a shared index is
  * one atomic step; a run is any interleaving of steps.
  */
module Metatrace {

  const CAPACITY := 4096
  const U64 := 0x1_0000_0000_0000_0000

  /** Where a writer is inside an append: it holds an index, then also the distance it computed. */
  datatype Append =
    | Fetched(idx: nat)
    | Sized(idx: nat, size: nat)
    | Overrunning(idx: nat)

  /** The read iterator: being created, or between `cur` and `end`. */
  datatype Reader = NoReader | LoadedBegin(begin: nat) | Reading(cur: nat, end: nat)

  datatype State = State(
    wrIndex: nat,
    rdIndex: nat,
    hasOverruns: bool,
    readTaskQueued: bool,
    writers: map<nat, Append>,
    reader: Reader,
    granted: seq<nat>,   // indices whose record was handed to a writer, in order
    visited: seq<nat>)   // indices the reader has looked at, in order

  const INITIAL := State(0, 0, false, false, map[], NoReader, [], [])

  datatype Step =
    | FetchAdd(writer: nat)
    | LoadReadIndex(writer: nat, seen: nat)
    | Decide(writer: nat)
    | FetchSub(writer: nat)
    | ReadTaskDone
    | LoadReadBegin
    | LoadReadEnd
    | Visit
    | EndRead

  /** A relaxed load of the read index may return any value it has passed. */
  predicate Enabled(s: State, step: Step) {
    match step
    case FetchAdd(w) => w !in s.writers && s.wrIndex < U64 / 2
    case LoadReadIndex(w, seen) => w in s.writers && s.writers[w].Fetched? && seen <= s.rdIndex
    case Decide(w) => w in s.writers && s.writers[w].Sized?
    case FetchSub(w) => w in s.writers && s.writers[w].Overrunning? && s.wrIndex > 0
    case ReadTaskDone => s.readTaskQueued
    case LoadReadBegin => s.reader.NoReader?
    case LoadReadEnd => s.reader.LoadedBegin?
    case Visit => s.reader.Reading? && s.reader.cur < s.reader.end
    case EndRead => s.reader.Reading?
  }

  /** The step takes the overrun branch: the distance is not below the capacity. */
  predicate Overruns(s: State, step: Step)
    requires Enabled(s, step)
  {
    step.Decide? && s.writers[step.writer].size >= CAPACITY
  }

  function Apply(s: State, step: Step): State
    requires Enabled(s, step)
  {
    match step
    case FetchAdd(w) => s.(wrIndex := s.wrIndex + 1, writers := s.writers[w := Fetched(s.wrIndex)])
    // The difference is unsigned: a read index past the writer's own wraps around.
    case LoadReadIndex(w, seen) => s.(writers :=
        s.writers[w := Sized(s.writers[w].idx, (s.writers[w].idx - seen) % U64)])
    case Decide(w) =>
      var a := s.writers[w];
      var queued := s.readTaskQueued || a.size >= CAPACITY / 2;
      if a.size < CAPACITY then
        s.(readTaskQueued := queued, writers := s.writers - {w}, granted := s.granted + [a.idx])
      else
        s.(readTaskQueued := queued, hasOverruns := true, writers := s.writers[w := Overrunning(a.idx)])
    case FetchSub(w) => s.(wrIndex := s.wrIndex - 1, writers := s.writers - {w})
    case ReadTaskDone => s.(readTaskQueued := false)
    case LoadReadBegin => s.(reader := LoadedBegin(s.rdIndex))
    case LoadReadEnd => s.(reader := Reading(s.reader.begin, s.wrIndex))
    case Visit => s.(reader := Reading(s.reader.cur + 1, s.reader.end), visited := s.visited + [s.reader.cur])
    case EndRead => s.(rdIndex := s.reader.cur, reader := NoReader)
  }

  predicate Runs(s: State, steps: seq<Step>)
    decreases |steps|
  {
    steps == [] || (Enabled(s, steps[0]) && Runs(Apply(s, steps[0]), steps[1..]))
  }

  function Exec(s: State, steps: seq<Step>): State
    requires Runs(s, steps)
    decreases |steps|
  {
    if steps == [] then s else Exec(Apply(s, steps[0]), steps[1..])
  }

  /** No writer takes the overrun branch. */
  predicate NoOverrun(s: State, steps: seq<Step>)
    requires Runs(s, steps)
    decreases |steps|
  {
    steps == [] || (!Overruns(s, steps[0]) && NoOverrun(Apply(s, steps[0]), steps[1..]))
  }

  // ---------- The invariant of runs without overrun ----------

  /** How far the reader has come. */
  function Frontier(s: State): nat {
    if s.reader.Reading? then s.reader.cur else s.rdIndex
  }

  ghost predicate ReaderOk(s: State) {
    && s.rdIndex <= s.wrIndex <= U64 / 2
    && (s.reader.LoadedBegin? ==> s.reader.begin == s.rdIndex)
    && (s.reader.Reading? ==> s.rdIndex <= s.reader.cur <= s.reader.end <= s.wrIndex)
    && |s.visited| == Frontier(s)
    && forall i :: 0 <= i < |s.visited| ==> s.visited[i] == i
  }

  ghost predicate WritersOk(s: State) {
    && (forall w :: w in s.writers ==> WriterOk(s, s.writers[w]))
    && (forall v, w :: v in s.writers && w in s.writers && v != w ==> s.writers[v].idx != s.writers[w].idx)
  }

  ghost predicate WriterOk(s: State, a: Append) {
    && !a.Overrunning?
    && a.idx < s.wrIndex
    && a.idx !in s.granted
    && (a.Sized? && a.size < CAPACITY ==> a.idx < s.rdIndex + CAPACITY)
  }

  ghost predicate GrantedOk(s: State) {
    && (forall i :: 0 <= i < |s.granted| ==> s.granted[i] < s.wrIndex && s.granted[i] < s.rdIndex + CAPACITY)
    && (forall i, j :: 0 <= i < j < |s.granted| ==> s.granted[i] != s.granted[j])
  }

  ghost predicate Safe(s: State) {
    !s.hasOverruns && ReaderOk(s) && WritersOk(s) && GrantedOk(s)
  }

  lemma {:induction false} FetchKeepsSafe(s: State, w: nat)
    requires Safe(s) && Enabled(s, FetchAdd(w))
    ensures Safe(Apply(s, FetchAdd(w)))
  {
    var s' := Apply(s, FetchAdd(w));
    forall v | v in s'.writers ensures WriterOk(s', s'.writers[v]) {
      assert v != w ==> WriterOk(s, s.writers[v]);
    }
  }

  lemma {:induction false} LoadKeepsSafe(s: State, w: nat, seen: nat)
    requires Safe(s) && Enabled(s, LoadReadIndex(w, seen))
    ensures Safe(Apply(s, LoadReadIndex(w, seen)))
  {
    var s' := Apply(s, LoadReadIndex(w, seen));
    var idx := s.writers[w].idx;
    assert WriterOk(s, s.writers[w]);
    assert seen <= idx ==> (idx - seen) % U64 == idx - seen;
    assert seen > idx ==> (idx - seen) % U64 == idx - seen + U64;
    forall v | v in s'.writers ensures WriterOk(s', s'.writers[v]) {
      assert WriterOk(s, s.writers[v]);
    }
  }

  lemma {:induction false} DecideKeepsSafe(s: State, w: nat)
    requires Safe(s) && Enabled(s, Decide(w)) && !Overruns(s, Decide(w))
    ensures Safe(Apply(s, Decide(w)))
  {
    var s' := Apply(s, Decide(w));
    assert WriterOk(s, s.writers[w]);
    forall v | v in s'.writers ensures WriterOk(s', s'.writers[v]) {
      assert WriterOk(s, s.writers[v]);
    }
  }

  /** Steps that touch neither the writers nor what was granted. */
  lemma {:induction false} ReaderKeepsSafe(s: State, step: Step)
    requires Safe(s) && Enabled(s, step)
    requires step.ReadTaskDone? || step.LoadReadBegin? || step.LoadReadEnd? || step.Visit? || step.EndRead?
    ensures Safe(Apply(s, step))
  {
    var s' := Apply(s, step);
    forall v | v in s'.writers ensures WriterOk(s', s'.writers[v]) {
      assert WriterOk(s, s.writers[v]);
    }
  }

  lemma {:induction false} StepKeepsSafe(s: State, step: Step)
    requires Safe(s) && Enabled(s, step) && !Overruns(s, step)
    ensures Safe(Apply(s, step))
  {
    hide Apply, ReaderOk, GrantedOk;
    match step
    case FetchAdd(w) => FetchKeepsSafe(s, w);
    case LoadReadIndex(w, seen) => LoadKeepsSafe(s, w, seen);
    case Decide(w) => DecideKeepsSafe(s, w);
    case FetchSub(w) =>
      assert false;
    case _ => ReaderKeepsSafe(s, step);
  }

  lemma {:induction false} RunKeepsSafe(s: State, steps: seq<Step>)
    requires Safe(s) && Runs(s, steps) && NoOverrun(s, steps)
    ensures Safe(Exec(s, steps))
    decreases |steps|
  {
    if steps != [] {
      StepKeepsSafe(s, steps[0]);
      RunKeepsSafe(Apply(s, steps[0]), steps[1..]);
    }
  }

  /** Two unreleased indices share a slot only if they are the same grant. */
  ghost predicate DistinctSlots(s: State) {
    forall i, j :: 0 <= i < j < |s.granted| && s.granted[i] >= s.rdIndex && s.granted[j] >= s.rdIndex ==>
      s.granted[i] % CAPACITY != s.granted[j] % CAPACITY
  }

  lemma {:induction false} SafeSlots(s: State)
    requires Safe(s)
    ensures DistinctSlots(s)
  {
    forall i, j | 0 <= i < j < |s.granted| && s.granted[i] >= s.rdIndex && s.granted[j] >= s.rdIndex
      ensures s.granted[i] % CAPACITY != s.granted[j] % CAPACITY
    {
      var a, b := s.granted[i], s.granted[j];
      assert a != b && -CAPACITY < a - b < CAPACITY;
    }
  }

  /**
    * In every interleaving without an overrun: granted indices are pairwise distinct, those not yet
    * released by the reader occupy distinct slots, and the reader visits 0, 1, 2, ... each once.
    */
  lemma {:induction false} RingIsSafe(steps: seq<Step>)
    requires Runs(INITIAL, steps) && NoOverrun(INITIAL, steps)
    ensures var s := Exec(INITIAL, steps);
            && (forall i, j :: 0 <= i < j < |s.granted| ==> s.granted[i] != s.granted[j])
            && DistinctSlots(s)
            && (forall i :: 0 <= i < |s.visited| ==> s.visited[i] == i)
            && |s.visited| <= s.wrIndex
  {
    RunKeepsSafe(INITIAL, steps);
    SafeSlots(Exec(INITIAL, steps));
  }

  // ---------- Runs with overruns ----------

  /** A decrement gives back the decrementing writer's own index. */
  predicate GivesBackOwn(s: State, step: Step)
    requires Enabled(s, step)
  {
    step.FetchSub? ==> s.writers[step.writer].idx + 1 == s.wrIndex
  }

  predicate AllGiveBackOwn(s: State, steps: seq<Step>)
    requires Runs(s, steps)
    decreases |steps|
  {
    steps == [] || (GivesBackOwn(s, steps[0]) && AllGiveBackOwn(Apply(s, steps[0]), steps[1..]))
  }

  ghost predicate ReaderInOrder(s: State) {
    && s.wrIndex <= U64 / 2 && s.rdIndex <= U64 / 2
    && (s.reader.LoadedBegin? ==> s.reader.begin == s.rdIndex)
    && (s.reader.Reading? ==> s.rdIndex <= s.reader.cur <= U64 / 2 && s.reader.end <= U64 / 2)
    && |s.visited| == Frontier(s)
    && forall i :: 0 <= i < |s.visited| ==> s.visited[i] == i
  }

  ghost predicate HoldsOwn(s: State, a: Append) {
    && a.idx < s.wrIndex
    && a.idx !in s.granted
    && (a.Sized? && a.size < CAPACITY ==> a.idx < s.rdIndex + CAPACITY)
  }

  ghost predicate WritersApart(s: State) {
    && (forall w :: w in s.writers ==> HoldsOwn(s, s.writers[w]))
    && (forall v, w :: v in s.writers && w in s.writers && v != w ==> s.writers[v].idx != s.writers[w].idx)
  }

  /** What survives overruns: indices in flight and granted are all different, and the reader goes in order. */
  ghost predicate Settled(s: State) {
    ReaderInOrder(s) && WritersApart(s) && GrantedOk(s)
  }

  lemma {:induction false} WritersStaySettled(s: State, step: Step)
    requires Settled(s) && Enabled(s, step) && GivesBackOwn(s, step)
    requires step.FetchAdd? || step.LoadReadIndex? || step.FetchSub?
    ensures Settled(Apply(s, step))
  {
    var s' := Apply(s, step);
    var w := step.writer;
    if step.LoadReadIndex? {
      var idx := s.writers[w].idx;
      assert HoldsOwn(s, s.writers[w]);
      assert step.seen <= idx ==> (idx - step.seen) % U64 == idx - step.seen;
      assert step.seen > idx ==> (idx - step.seen) % U64 == idx - step.seen + U64;
    }
    forall v | v in s'.writers ensures HoldsOwn(s', s'.writers[v]) {
      assert v in s.writers ==> HoldsOwn(s, s.writers[v]);
    }
  }

  lemma {:induction false} DecideStaysSettled(s: State, w: nat)
    requires Settled(s) && Enabled(s, Decide(w))
    ensures Settled(Apply(s, Decide(w)))
  {
    var s' := Apply(s, Decide(w));
    assert HoldsOwn(s, s.writers[w]);
    forall v | v in s'.writers ensures HoldsOwn(s', s'.writers[v]) {
      assert HoldsOwn(s, s.writers[v]);
    }
  }

  lemma {:induction false} ReaderStaysSettled(s: State, step: Step)
    requires Settled(s) && Enabled(s, step)
    requires step.ReadTaskDone? || step.LoadReadBegin? || step.LoadReadEnd? || step.Visit? || step.EndRead?
    ensures Settled(Apply(s, step))
  {
    var s' := Apply(s, step);
    forall v | v in s'.writers ensures HoldsOwn(s', s'.writers[v]) {
      assert HoldsOwn(s, s.writers[v]);
    }
  }

  lemma {:induction false} StepStaysSettled(s: State, step: Step)
    requires Settled(s) && Enabled(s, step) && GivesBackOwn(s, step)
    ensures Settled(Apply(s, step))
  {
    hide Apply, Settled;
    match step
    case FetchAdd(_) => WritersStaySettled(s, step);
    case LoadReadIndex(_, _) => WritersStaySettled(s, step);
    case FetchSub(_) => WritersStaySettled(s, step);
    case Decide(w) => DecideStaysSettled(s, w);
    case _ => ReaderStaysSettled(s, step);
  }

  lemma {:induction false} RunStaysSettled(s: State, steps: seq<Step>)
    requires Settled(s) && Runs(s, steps) && AllGiveBackOwn(s, steps)
    ensures Settled(Exec(s, steps))
    decreases |steps|
  {
    hide Apply, Settled;
    if steps != [] {
      StepStaysSettled(s, steps[0]);
      RunStaysSettled(Apply(s, steps[0]), steps[1..]);
    }
  }

  lemma {:induction false} SettledSlots(s: State)
    requires Settled(s)
    ensures DistinctSlots(s)
  {
    forall i, j | 0 <= i < j < |s.granted| && s.granted[i] >= s.rdIndex && s.granted[j] >= s.rdIndex
      ensures s.granted[i] % CAPACITY != s.granted[j] % CAPACITY
    {
      SlotsApart(s.granted[i], s.granted[j]);
    }
  }

  lemma {:induction false} SlotsApart(a: nat, b: nat)
    requires a != b && -CAPACITY < a - b < CAPACITY
    ensures a % CAPACITY != b % CAPACITY
  {
  }

  /**
    * Overruns do no harm as long as every decrement gives back the writer's own index, that is, no
    * other writer has come in between: granted indices stay pairwise distinct, unreleased ones use
    * distinct slots, and the reader goes in order.
    */
  lemma {:induction false} OverrunsAreHarmless(steps: seq<Step>)
    requires Runs(INITIAL, steps) && AllGiveBackOwn(INITIAL, steps)
    ensures var s := Exec(INITIAL, steps);
            && (forall i, j :: 0 <= i < j < |s.granted| ==> s.granted[i] != s.granted[j])
            && DistinctSlots(s)
            && (forall i :: 0 <= i < |s.visited| ==> s.visited[i] == i)
  {
    RunStaysSettled(INITIAL, steps);
    SettledSlots(Exec(INITIAL, steps));
  }

  // ---------- When the overrun branch is taken, and what it can do ----------

  /**
    * Exactly which appends overrun: those a capacity ahead of the read index they saw, or behind it. Those
    * half a capacity ahead see to it that the ring is read. Nothing but an overrun costs a writer its index.
    */
  lemma {:induction false} OverrunExactly(s: State, w: nat, seen: nat)
    requires Enabled(s, LoadReadIndex(w, seen)) && s.writers[w].idx < U64 / 2 && seen < U64 / 2
    ensures var idx, t := s.writers[w].idx, Apply(s, LoadReadIndex(w, seen));
            Enabled(t, Decide(w)) && (Overruns(t, Decide(w)) <==> idx < seen || seen + 4096 <= idx)
            && var d := Apply(t, Decide(w));
               && (d.readTaskQueued <==> t.readTaskQueued || idx < seen || seen + 2048 <= idx)
               && (d.hasOverruns <==> t.hasOverruns || idx < seen || seen + 4096 <= idx)
               && d.granted == t.granted + (if seen <= idx < seen + 4096 then [idx] else [])
               && d.wrIndex == t.wrIndex && d.rdIndex == t.rdIndex && d.visited == t.visited
  {
    var idx := s.writers[w].idx;
    assert seen <= idx ==> (idx - seen) % U64 == idx - seen;
    assert seen > idx ==> (idx - seen) % U64 == idx - seen + U64;
  }

  /** The flag tells, at the end of a run, whether any append has overrun. */
  lemma {:induction false} FlagTellsOverruns(s: State, steps: seq<Step>)
    requires Runs(s, steps)
    ensures Exec(s, steps).hasOverruns <==> s.hasOverruns || !NoOverrun(s, steps)
    decreases |steps|
  {
    if steps != [] {
      FlagTellsOverruns(Apply(s, steps[0]), steps[1..]);
    }
  }

  /** A writer overtaken by the reader takes the overrun branch although the ring is empty. */
  lemma {:induction false} OverrunWhenOvertaken()
    ensures var steps := [FetchAdd(1)] + [LoadReadBegin, LoadReadEnd, Visit, EndRead] + [LoadReadIndex(1, 1)];
            && Runs(INITIAL, steps)
            && Exec(INITIAL, steps) == State(1, 1, false, false, map[1 := Sized(0, U64 - 1)], NoReader, [], [0])
            && Enabled(Exec(INITIAL, steps), Decide(1)) && Overruns(Exec(INITIAL, steps), Decide(1))
  {
    var s1 := State(1, 0, false, false, map[1 := Fetched(0)], NoReader, [], []);
    var s5 := s1.(rdIndex := 1, visited := [0]);
    One(INITIAL, FetchAdd(1), s1);
    ReadOne(s1);
    Concat(INITIAL, [FetchAdd(1)], [LoadReadBegin, LoadReadEnd, Visit, EndRead]);
    One(s5, LoadReadIndex(1, 1), s5.(writers := map[1 := Sized(0, U64 - 1)]));
    Concat(INITIAL, [FetchAdd(1)] + [LoadReadBegin, LoadReadEnd, Visit, EndRead], [LoadReadIndex(1, 1)]);
  }

  /** And gives its own index back, so that this overrun is one of the harmless ones. */
  lemma {:induction false} OvertakenIsHarmless()
    ensures var steps := [FetchAdd(1)] + [LoadReadBegin, LoadReadEnd, Visit, EndRead] + [LoadReadIndex(1, 1)] +
              [Decide(1), FetchSub(1)];
            Runs(INITIAL, steps) && Exec(INITIAL, steps).hasOverruns && AllGiveBackOwn(INITIAL, steps)
  {
    var first := [FetchAdd(1)] + [LoadReadBegin, LoadReadEnd, Visit, EndRead] + [LoadReadIndex(1, 1)];
    var last := [Decide(1), FetchSub(1)];
    OverrunWhenOvertaken();
    var s := Exec(INITIAL, first);
    assert s == State(1, 1, false, false, map[1 := Sized(0, U64 - 1)], NoReader, [], [0]);
    var t := Apply(s, Decide(1));
    assert t == State(1, 1, true, true, map[1 := Overrunning(0)], NoReader, [], [0]);
    One(t, FetchSub(1), Apply(t, FetchSub(1)));
    Prepend(s, Decide(1), t, [FetchSub(1)]);
    assert [Decide(1)] + [FetchSub(1)] == last;
    LastTwoGiveBack(s, t, last);
    Concat(INITIAL, first, last);
    NoSubGivesBack(INITIAL, first);
    GiveBackConcat(INITIAL, first, last);
  }

  lemma {:induction false} LastTwoGiveBack(s: State, t: State, last: seq<Step>)
    requires last == [Decide(1), FetchSub(1)] && Runs(s, last) && t == Apply(s, Decide(1))
    requires 1 in t.writers && t.writers[1].idx + 1 == t.wrIndex
    ensures AllGiveBackOwn(s, last)
  {
    hide Apply, Enabled;
    assert last[1..] == [FetchSub(1)] && last[1..][1..] == [];
    assert AllGiveBackOwn(t, last[1..]);
  }

  lemma {:induction false} NoSubGivesBack(s: State, steps: seq<Step>)
    requires Runs(s, steps) && forall k :: 0 <= k < |steps| ==> !steps[k].FetchSub?
    ensures AllGiveBackOwn(s, steps)
    decreases |steps|
  {
    hide Apply, Enabled;
    if steps != [] {
      NoSubGivesBack(Apply(s, steps[0]), steps[1..]);
    }
  }

  lemma {:induction false} GiveBackConcat(s: State, a: seq<Step>, b: seq<Step>)
    requires Runs(s, a) && Runs(Exec(s, a), b) && AllGiveBackOwn(s, a) && AllGiveBackOwn(Exec(s, a), b)
    ensures Runs(s, a + b) && AllGiveBackOwn(s, a + b)
    decreases |a|
  {
    hide Apply, Enabled, GivesBackOwn;
    Concat(s, a, b);
    if a == [] {
      assert a + b == b;
    } else {
      assert (a + b)[1..] == a[1..] + b;
      GiveBackConcat(Apply(s, a[0]), a[1..], b);
    }
  }

  lemma {:induction false} ReadOne(s: State)
    requires s.rdIndex == 0 && s.wrIndex == 1 && s.reader.NoReader? && s.visited == []
    ensures var steps := [LoadReadBegin, LoadReadEnd, Visit, EndRead];
            Runs(s, steps) && Exec(s, steps) == s.(rdIndex := 1, visited := [0])
  {
    var r1, r2 := s.(reader := LoadedBegin(0)), s.(reader := Reading(0, 1));
    var r3 := s.(reader := Reading(1, 1), visited := [0]);
    One(r3, EndRead, s.(rdIndex := 1, visited := [0]));
    Prepend(r2, Visit, r3, [EndRead]);
    Prepend(r1, LoadReadEnd, r2, [Visit, EndRead]);
    Prepend(s, LoadReadBegin, r1, [LoadReadEnd, Visit, EndRead]);
  }

  lemma {:induction false} One(s: State, step: Step, s': State)
    requires Enabled(s, step) && Apply(s, step) == s'
    ensures Runs(s, [step]) && Exec(s, [step]) == s'
  {
    assert [step][1..] == [];
  }

  lemma {:induction false} Prepend(s: State, step: Step, s': State, rest: seq<Step>)
    requires Enabled(s, step) && Apply(s, step) == s' && Runs(s', rest)
    ensures Runs(s, [step] + rest) && Exec(s, [step] + rest) == Exec(s', rest)
  {
    assert ([step] + rest)[1..] == rest;
  }

  lemma {:induction false} Concat(s: State, a: seq<Step>, b: seq<Step>)
    requires Runs(s, a) && Runs(Exec(s, a), b)
    ensures Runs(s, a + b) && Exec(s, a + b) == Exec(Exec(s, a), b)
    decreases |a|
  {
    if a == [] {
      assert a + b == b;
    } else {
      assert (a + b)[1..] == a[1..] + b;
      Concat(Apply(s, a[0]), a[1..], b);
    }
  }

  /** One writer appending `n` records with no reader about. */
  function FillSteps(n: nat): seq<Step> {
    if n == 0 then [] else FillSteps(n - 1) + [FetchAdd(0), LoadReadIndex(0, 0), Decide(0)]
  }

  function Filled(n: nat): State {
    State(n, 0, false, n > CAPACITY / 2, map[], NoReader, seq(n, i => i), [])
  }

  lemma {:induction false} FillRuns(n: nat)
    requires n <= CAPACITY
    ensures Runs(INITIAL, FillSteps(n)) && Exec(INITIAL, FillSteps(n)) == Filled(n)
  {
    if n == 0 {
      assert seq(0, i => i) == [];
    } else {
      FillRuns(n - 1);
      var s := Filled(n - 1);
      var s1 := s.(wrIndex := n, writers := map[0 := Fetched(n - 1)]);
      var s2 := s1.(writers := map[0 := Sized(n - 1, n - 1)]);
      assert seq(n, i => i) == seq(n - 1, i => i) + [n - 1];
      assert map[0 := Sized(n - 1, n - 1)] - {0} == map[];
      One(s2, Decide(0), Filled(n));
      Prepend(s1, LoadReadIndex(0, 0), s2, [Decide(0)]);
      Prepend(s, FetchAdd(0), s1, [LoadReadIndex(0, 0), Decide(0)]);
      Concat(INITIAL, FillSteps(n - 1), [FetchAdd(0), LoadReadIndex(0, 0), Decide(0)]);
    }
  }

  /**
    * After an overrun the decrement can hand an index out twice: with the ring full, writers 1 and 2
    * take indices 4096 and 4097, writer 1 overruns and decrements, the reader releases two records,
    * and writer 3 is issued 4097 again; both are granted it.
    */
  function ReissueSteps(): seq<Step> {
    FillSteps(CAPACITY)
    + [FetchAdd(1), FetchAdd(2), LoadReadIndex(1, 0), Decide(1), FetchSub(1)]
    + [LoadReadBegin, LoadReadEnd, Visit, Visit, EndRead]
    + [FetchAdd(3), LoadReadIndex(2, 2), LoadReadIndex(3, 2), Decide(2), Decide(3)]
  }

  lemma {:induction false} OverrunReissuesIndex()
    ensures Runs(INITIAL, ReissueSteps())
    ensures var s := Exec(INITIAL, ReissueSteps());
            |s.granted| == CAPACITY + 2 && s.granted[CAPACITY] == s.granted[CAPACITY + 1]
    ensures !AllGiveBackOwn(INITIAL, ReissueSteps())
  {
    ReissueRuns();
    if AllGiveBackOwn(INITIAL, ReissueSteps()) {
      OverrunsAreHarmless(ReissueSteps());
    }
  }

  lemma {:induction false} ReissueRuns()
    ensures Runs(INITIAL, ReissueSteps())
    ensures var s := Exec(INITIAL, ReissueSteps());
            |s.granted| == CAPACITY + 2 && s.granted[CAPACITY] == s.granted[CAPACITY + 1]
  {
    hide FillSteps;
    FillRuns(CAPACITY);
    var a := OverrunOnce(Filled(CAPACITY));
    Concat(INITIAL, FillSteps(CAPACITY), [FetchAdd(1), FetchAdd(2), LoadReadIndex(1, 0), Decide(1), FetchSub(1)]);
    var b := ReadTwo(a);
    Concat(INITIAL, FillSteps(CAPACITY) + [FetchAdd(1), FetchAdd(2), LoadReadIndex(1, 0), Decide(1), FetchSub(1)],
           [LoadReadBegin, LoadReadEnd, Visit, Visit, EndRead]);
    GrantTwice(b);
    Concat(INITIAL, FillSteps(CAPACITY) + [FetchAdd(1), FetchAdd(2), LoadReadIndex(1, 0), Decide(1), FetchSub(1)]
           + [LoadReadBegin, LoadReadEnd, Visit, Visit, EndRead],
           [FetchAdd(3), LoadReadIndex(2, 2), LoadReadIndex(3, 2), Decide(2), Decide(3)]);
  }

  lemma {:induction false} OverrunOnce(s: State) returns (t: State)
    requires s.wrIndex == 4096 && s.rdIndex == 0 && s.writers == map[] && s.readTaskQueued
    ensures t == s.(wrIndex := 4097, hasOverruns := true, writers := map[2 := Fetched(4097)])
    ensures var steps := [FetchAdd(1), FetchAdd(2), LoadReadIndex(1, 0), Decide(1), FetchSub(1)];
            Runs(s, steps) && Exec(s, steps) == t
  {
    t := s.(wrIndex := 4097, hasOverruns := true, writers := map[2 := Fetched(4097)]);
    var a1 := s.(wrIndex := 4097, writers := map[1 := Fetched(4096)]);
    var a2 := s.(wrIndex := 4098, writers := map[1 := Fetched(4096), 2 := Fetched(4097)]);
    var a3 := s.(wrIndex := 4098, writers := map[1 := Sized(4096, 4096), 2 := Fetched(4097)]);
    var a4 := a3.(hasOverruns := true, writers := map[1 := Overrunning(4096), 2 := Fetched(4097)]);
    assert map[1 := Overrunning(4096), 2 := Fetched(4097)] - {1} == map[2 := Fetched(4097)];
    One(a4, FetchSub(1), t);
    Prepend(a3, Decide(1), a4, [FetchSub(1)]);
    Prepend(a2, LoadReadIndex(1, 0), a3, [Decide(1), FetchSub(1)]);
    Prepend(a1, FetchAdd(2), a2, [LoadReadIndex(1, 0), Decide(1), FetchSub(1)]);
    Prepend(s, FetchAdd(1), a1, [FetchAdd(2), LoadReadIndex(1, 0), Decide(1), FetchSub(1)]);
  }

  lemma {:induction false} ReadTwo(s: State) returns (t: State)
    requires s.rdIndex == 0 && s.wrIndex == 4097 && s.reader.NoReader? && s.visited == []
    ensures t == s.(rdIndex := 2, visited := [0, 1])
    ensures var steps := [LoadReadBegin, LoadReadEnd, Visit, Visit, EndRead]; Runs(s, steps) && Exec(s, steps) == t
  {
    t := s.(rdIndex := 2, visited := [0, 1]);
    var r1, r2 := s.(reader := LoadedBegin(0)), s.(reader := Reading(0, 4097));
    var r3, r4 := s.(reader := Reading(1, 4097), visited := [0]), s.(reader := Reading(2, 4097), visited := [0, 1]);
    One(r4, EndRead, t);
    Prepend(r3, Visit, r4, [EndRead]);
    Prepend(r2, Visit, r3, [Visit, EndRead]);
    Prepend(r1, LoadReadEnd, r2, [Visit, Visit, EndRead]);
    Prepend(s, LoadReadBegin, r1, [LoadReadEnd, Visit, Visit, EndRead]);
  }

  lemma {:induction false} GrantTwice(s: State)
    requires s.wrIndex == 4097 && s.rdIndex == 2 && s.writers == map[2 := Fetched(4097)] && s.readTaskQueued
    ensures var steps := [FetchAdd(3), LoadReadIndex(2, 2), LoadReadIndex(3, 2), Decide(2), Decide(3)];
            Runs(s, steps) && Exec(s, steps).granted == s.granted + [4097] + [4097]
  {
    var t := s.(wrIndex := 4098);
    var s1 := t.(writers := map[2 := Fetched(4097), 3 := Fetched(4097)]);
    var s2 := t.(writers := map[2 := Sized(4097, 4095), 3 := Fetched(4097)]);
    var s3 := t.(writers := map[2 := Sized(4097, 4095), 3 := Sized(4097, 4095)]);
    var s4 := t.(writers := map[3 := Sized(4097, 4095)], granted := s.granted + [4097]);
    var s5 := t.(writers := map[], granted := s.granted + [4097] + [4097]);
    assert s3.writers - {2} == s4.writers && s4.writers - {3} == map[];
    One(s4, Decide(3), s5);
    Prepend(s3, Decide(2), s4, [Decide(3)]);
    Prepend(s2, LoadReadIndex(3, 2), s3, [Decide(2), Decide(3)]);
    Prepend(s1, LoadReadIndex(2, 2), s2, [LoadReadIndex(3, 2), Decide(2), Decide(3)]);
    Prepend(s, FetchAdd(3), s1, [LoadReadIndex(2, 2), LoadReadIndex(3, 2), Decide(2), Decide(3)]);
  }
}
