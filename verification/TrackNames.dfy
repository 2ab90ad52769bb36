/**
  * The names of tracks tell their threads apart: a reader who knows only the names can sort the
  * events by thread.
  */
module TrackNames {
  import opened WireFormat
  import opened RecorderPackets
  import opened Recorder

  const DASH: byte := 45

  /** The thread's own track, or one of its counters. */
  predicate NamedAfter(text: seq<byte>, thread: u32) {
    text == ThreadTrackName(thread) || ThreadTrackName(thread) + [DASH] <= text
  }

  lemma {:induction false} DecimalDigits(n: nat)
    ensures Decimal(n) != [] && forall k :: 0 <= k < |Decimal(n)| ==> 48 <= Decimal(n)[k] < 58
    ensures Decimal(n)[0] == 48 ==> n == 0
  {
    if n >= 10 {
      DecimalDigits(n / 10);
    }
  }

  function Value(s: seq<byte>): int {
    if s == [] then 0 else 10 * Value(s[..|s| - 1]) + s[|s| - 1] as int - 48
  }

  lemma {:induction false} ValueOfDecimal(n: nat)
    ensures Value(Decimal(n)) == n
  {
    if n < 10 {
      assert [48 + n][..0] == [];
    } else {
      ValueOfDecimal(n / 10);
      var d := Decimal(n);
      assert d[..|d| - 1] == Decimal(n / 10);
    }
  }

  lemma {:induction false} NotShorter(a: seq<byte>, r: seq<byte>, b: seq<byte>, q: seq<byte>)
    requires r == [] || r[0] == DASH
    requires forall k :: 0 <= k < |b| ==> 48 <= b[k]
    requires a + r == b + q
    ensures |b| <= |a|
  {
    var s := b + q;
    assert forall k :: 0 <= k < |b| ==> s[k] == b[k];
    assert r != [] ==> (a + r)[|a|] == r[0];
    assert |s| == |a| + |r|;
  }

  /** Digits end where a dash or nothing follows. */
  lemma {:induction false} DigitsEnd(a: seq<byte>, r: seq<byte>, b: seq<byte>, q: seq<byte>)
    requires forall k :: 0 <= k < |a| ==> 48 <= a[k]
    requires forall k :: 0 <= k < |b| ==> 48 <= b[k]
    requires r == [] || r[0] == DASH
    requires q == [] || q[0] == DASH
    requires a + r == b + q
    ensures a == b
  {
    NotShorter(a, r, b, q);
    NotShorter(b, q, a, r);
    assert a == (a + r)[..|a|] && b == (b + q)[..|b|];
  }

  lemma {:induction false} NameParts(text: seq<byte>, thread: u32)
    requires NamedAfter(text, thread)
    ensures var n := 4 + |Decimal(thread)|;
            n <= |text| && text[4..] == Decimal(thread) + text[n..] && (text[n..] == [] || text[n..][0] == DASH)
  {
    hide Decimal;
    var name := ThreadTrackName(thread);
    assert name[4..] == Decimal(thread) && |name| == 4 + |Decimal(thread)|;
    assert name <= text && text[..|name|] == name;
    assert text[4..] == text[4..|name|] + text[|name|..];
    assert text[4..|name|] == text[..|name|][4..];
    if |text| > |name| {
      assert text[|name|] == (name + [DASH])[|name|];
    }
  }

  /** No name is after two threads. */
  lemma {:induction false} NamesApart(text: seq<byte>, thread1: u32, thread2: u32)
    requires NamedAfter(text, thread1) && NamedAfter(text, thread2)
    ensures thread1 == thread2
  {
    hide NamedAfter, Decimal;
    NameParts(text, thread1);
    NameParts(text, thread2);
    DecimalDigits(thread1);
    DecimalDigits(thread2);
    DigitsEnd(Decimal(thread1), text[4 + |Decimal(thread1)|..], Decimal(thread2), text[4 + |Decimal(thread2)|..]);
    ValueOfDecimal(thread1);
    ValueOfDecimal(thread2);
  }

  lemma {:induction false} BothAreNamedAfter(thread: u32, text: seq<byte>)
    ensures NamedAfter(ThreadTrackName(thread), thread) && NamedAfter(CounterTrackName(thread, text), thread)
  {
    hide Decimal;
    var counter := CounterTrackName(thread, text);
    assert counter[..|ThreadTrackName(thread)| + 1] == ThreadTrackName(thread) + [DASH];
  }

  // ---------- Sorting events by track ----------

  predicate OnTrackOf(e: Event, thread: u32) {
    e.track.Known? && NamedAfter(e.track.text, thread)
  }

  /** The events on the tracks named after a thread. */
  function OnTracks(es: seq<Event>, thread: u32): seq<Event> {
    if es == [] then []
    else OnTracks(es[..|es| - 1], thread) + if OnTrackOf(es[|es| - 1], thread) then [es[|es| - 1]] else []
  }

  // ---------- A session defines only tracks named after its thread ----------

  ghost predicate OwnTracks(ps: seq<Packet>, thread: u32) {
    forall p <- ps :: (p.DefineThreadTrack? ==> p.thread == thread) && (p.DefineCounterTrack? ==> p.thread == thread)
  }

  ghost predicate OneThread(s: Session, thread: u32) {
    OwnTracks(s.out, thread) && (s.ctx.needThreadId || s.ctx.threadId == thread)
  }

  lemma {:induction false} PerformOwnTracks(env: Env, s: Session, t: Turn)
    requires s.WellFormed() && Legal(s.ctx, t.call) && OneThread(s, env.thread)
    ensures OneThread(Perform(env, s, t), env.thread)
  {
    match t.call
    case Begin(name, ts) =>
      if s.ctx.depth < STACK_DEPTH_MAX {
        ThreadInfoOwnTracks(env, s, t.seen);
        hide EnsureThreadInfo;
      }
    case End(ts) =>
    case Counter(name, value, ts) =>
      ThreadInfoOwnTracks(env, s, t.seen);
      hide EnsureThreadInfo;
  }

  lemma {:induction false} ThreadInfoOwnTracks(env: Env, s: Session, seen: Observed)
    requires s.Room() && OneThread(s, env.thread)
    ensures OneThread(EnsureThreadInfo(env, s, seen), env.thread)
  {
  }

  lemma {:induction false} RunOwnTracks(env: Env, c: Ctx, turns: seq<Turn>)
    requires c.Fresh() && LegalRun(env, c, turns)
    ensures OneThread(Run(env, c, turns), env.thread)
  {
    hide Perform;
    if turns != [] {
      RunOwnTracks(env, c, turns[..|turns| - 1]);
      PerformOwnTracks(env, Run(env, c, turns[..|turns| - 1]), turns[|turns| - 1]);
    }
  }
}
