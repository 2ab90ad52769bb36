/**
  * The per-thread recorder as a state machine. A session of one thread is what its context holds,
  * the packets it has emitted and the interning ids it has drawn from the shared counter.
  */
module Recorder {
  import opened WireFormat
  import opened RecorderPackets

  /** Names are interned by the address of their first character. */
  type Address = nat

  const STACK_DEPTH_MAX := 16
  const CATEGORY: Address := 0

  datatype Call =
    | Begin(name: Address, ts: u64)
    | End(ts: u64)
    | Counter(name: Address, value: i64, ts: u64)

  /** What a call finds in the shared counters: whether it is the first, and the ids it would read. */
  datatype Observed = Observed(first: bool, category: u32, name: u32)

  datatype Turn = Turn(call: Call, seen: Observed)

  /** The text behind each address, and the id the thread is granted in this session. */
  datatype Env = Env(text: Address -> seq<byte>, thread: u32)

  datatype Ctx = Ctx(
    needThreadId: bool,
    threadId: u32,
    counterId: u32,
    depth: nat,
    categoryIids: seq<u32>,
    nameIids: seq<u32>,
    categories: map<Address, u32>,
    events: map<Address, u32>,
    counters: map<Address, u64>)
  {
    predicate WellFormed() {
      depth <= STACK_DEPTH_MAX && |categoryIids| == STACK_DEPTH_MAX && |nameIids| == STACK_DEPTH_MAX
    }

    /** After a full reset; what the two arrays hold does not matter. */
    predicate Fresh() {
      WellFormed() && needThreadId && threadId == 0 && counterId == 1 && depth == 0 &&
      categories == map[] && events == map[] && counters == map[]
    }
  }

  /** A full reset forgets everything but the stale contents of the arrays. */
  function FullReset(c: Ctx): (r: Ctx)
    requires c.WellFormed()
    ensures r.Fresh()
  {
    Ctx(true, 0, 1, 0, c.categoryIids, c.nameIids, map[], map[], map[])
  }

  datatype Session = Session(ctx: Ctx, out: seq<Packet>, drawn: seq<u32>) {
    predicate WellFormed() { ctx.WellFormed() }

    predicate Room() { WellFormed() && ctx.depth < STACK_DEPTH_MAX }

    function Emit(p: Packet): Session { this.(out := out + [p]) }
  }

  /** Output and draws only ever grow. */
  predicate Extends(s: Session, r: Session) {
    r.WellFormed() && s.out <= r.out && s.drawn <= r.drawn
  }

  predicate SameThread(s: Session, r: Session) {
    r.ctx.needThreadId == s.ctx.needThreadId && r.ctx.threadId == s.ctx.threadId
  }

  // ---------- The steps of a call ----------

  function Start(s: Session, first: bool): (r: Session)
    requires s.WellFormed()
    ensures Extends(s, r) && r.ctx == s.ctx && r.drawn == s.drawn
  {
    if first then s.Emit(SequenceStart) else s
  }

  function InternCategory(s: Session, id: u32): (r: Session)
    requires s.Room()
    ensures Extends(s, r) && r.ctx.depth == s.ctx.depth && SameThread(s, r)
    ensures r.ctx.counters == s.ctx.counters && r.ctx.counterId == s.ctx.counterId
  {
    var c := s.ctx;
    if CATEGORY in c.categories then
      s.(ctx := c.(categoryIids := c.categoryIids[c.depth := c.categories[CATEGORY]]))
    else
      s.(ctx := c.(categories := c.categories[CATEGORY := id], categoryIids := c.categoryIids[c.depth := id]),
         out := s.out + [DefineCategory(id, CATEGORY_TEXT)],
         drawn := s.drawn + [id])
  }

  function TakeThreadId(s: Session, thread: u32): (r: Session)
    requires s.WellFormed()
    ensures Extends(s, r) && r.drawn == s.drawn && r.ctx.depth == s.ctx.depth && !r.ctx.needThreadId
    ensures r.ctx.counters == s.ctx.counters && r.ctx.counterId == s.ctx.counterId
  {
    if !s.ctx.needThreadId then s
    else s.(ctx := s.ctx.(needThreadId := false, threadId := thread), out := s.out + [DefineThreadTrack(thread)])
  }

  function EnsureThreadInfo(env: Env, s: Session, seen: Observed): (r: Session)
    requires s.Room()
    ensures r.ctx.depth == s.ctx.depth && r.Room() && Extends(s, r) && r.ctx.counters == s.ctx.counters
    ensures r.ctx.counterId == s.ctx.counterId && !r.ctx.needThreadId
  {
    TakeThreadId(InternCategory(Start(s, seen.first), seen.category), env.thread)
  }

  function InternEvent(env: Env, s: Session, name: Address, id: u32): (r: Session)
    requires s.Room()
    ensures Extends(s, r) && r.ctx.depth == s.ctx.depth && SameThread(s, r)
  {
    var c := s.ctx;
    if name in c.events then
      s.(ctx := c.(nameIids := c.nameIids[c.depth := c.events[name]]))
    else
      s.(ctx := c.(events := c.events[name := id], nameIids := c.nameIids[c.depth := id]),
         out := s.out + [DefineEventName(id, env.text(name))],
         drawn := s.drawn + [id])
  }

  function OpenSlice(s: Session, ts: u64): (r: Session)
    requires s.Room()
    ensures Extends(s, r) && r.drawn == s.drawn && SameThread(s, r)
  {
    var c := s.ctx;
    s.(ctx := c.(depth := c.depth + 1),
       out := s.out + [SliceBegin(ts, c.threadId, c.categoryIids[c.depth], c.nameIids[c.depth])])
  }

  function CloseSlice(s: Session, ts: u64): (r: Session)
    requires s.WellFormed() && 0 < s.ctx.depth
    ensures Extends(s, r) && r.drawn == s.drawn && SameThread(s, r)
  {
    var c := s.ctx;
    var d := c.depth - 1;
    s.(ctx := c.(depth := d), out := s.out + [SliceEnd(ts, c.threadId, c.categoryIids[d], c.nameIids[d])])
  }

  /** The counter id in the high word, the thread id in the low one. */
  function CounterUuid(c: Ctx): u64 {
    c.counterId * U32 + c.threadId
  }

  /** Counter ids are 32 bits wide. */
  function Next(id: u32): u32 {
    if id + 1 == U32 then 0 else id + 1
  }

  function GetCounter(env: Env, s: Session, name: Address): (r: Session)
    requires s.WellFormed()
    ensures Extends(s, r) && r.drawn == s.drawn && name in r.ctx.counters && SameThread(s, r)
  {
    var c := s.ctx;
    if name in c.counters then s
    else
      s.(ctx := c.(counters := c.counters[name := CounterUuid(c)], counterId := Next(c.counterId)),
         out := s.out + [DefineCounterTrack(CounterUuid(c), c.threadId, env.text(name))])
  }

  function AddValue(s: Session, name: Address, value: i64, ts: u64): (r: Session)
    requires s.WellFormed() && name in s.ctx.counters
    ensures Extends(s, r) && r.drawn == s.drawn && SameThread(s, r)
  {
    s.Emit(CounterValue(ts, s.ctx.counters[name], value))
  }

  // ---------- Whole calls ----------

  /** A counter may not be traced at full depth: the call would use a slot past the end of the stack. */
  predicate Legal(c: Ctx, call: Call) {
    call.Counter? ==> c.depth < STACK_DEPTH_MAX
  }

  /** No counter is created once the 32-bit counter id has wrapped. */
  predicate NoCounterWrap(c: Ctx, call: Call) {
    call.Counter? ==> call.name in c.counters || c.counterId != 0
  }

  function Perform(env: Env, s: Session, t: Turn): (r: Session)
    requires s.WellFormed() && Legal(s.ctx, t.call)
    ensures Extends(s, r)
  {
    match t.call
    case Begin(name, ts) =>
      if s.ctx.depth == STACK_DEPTH_MAX then s
      else OpenSlice(InternEvent(env, EnsureThreadInfo(env, s, t.seen), name, t.seen.name), ts)
    case End(ts) =>
      if s.ctx.depth == STACK_DEPTH_MAX || s.ctx.depth == 0 then s else CloseSlice(s, ts)
    case Counter(name, value, ts) =>
      AddValue(GetCounter(env, EnsureThreadInfo(env, s, t.seen), name), name, value, ts)
  }

  predicate LegalRun(env: Env, c: Ctx, turns: seq<Turn>)
    requires c.WellFormed()
    decreases turns, 0
  {
    turns == [] ||
    (var n := |turns| - 1;
     LegalRun(env, c, turns[..n]) && Legal(Run(env, c, turns[..n]).ctx, turns[n].call))
  }

  function Run(env: Env, c: Ctx, turns: seq<Turn>): (r: Session)
    requires c.WellFormed() && LegalRun(env, c, turns)
    ensures r.WellFormed()
    decreases turns, 1
  {
    if turns == [] then Session(c, [], [])
    else Perform(env, Run(env, c, turns[..|turns| - 1]), turns[|turns| - 1])
  }

  predicate NeverWraps(env: Env, c: Ctx, turns: seq<Turn>)
    requires c.WellFormed() && LegalRun(env, c, turns)
  {
    turns == [] ||
    (var n := |turns| - 1;
     NeverWraps(env, c, turns[..n]) && NoCounterWrap(Run(env, c, turns[..n]).ctx, turns[n].call))
  }

  /** A session whose counter ids do not wrap and whose interning ids ascend. */
  ghost predicate Regular(env: Env, c: Ctx, turns: seq<Turn>) {
    c.Fresh() && LegalRun(env, c, turns) && NeverWraps(env, c, turns) && Ascending(Run(env, c, turns).drawn)
  }

  // ---------- What a reader of the thread's packets sees ----------

  datatype Name = Unknown | Known(text: seq<byte>)

  datatype Event =
    | Opened(ts: u64, track: Name, category: Name, name: Name)
    | Closed(ts: u64, track: Name, category: Name, name: Name)
    | Counted(ts: u64, track: Name, value: i64)

  datatype Reader = Reader(categories: map<nat, seq<byte>>, names: map<nat, seq<byte>>, tracks: map<nat, seq<byte>>,
      events: seq<Event>)

  function LookUp(table: map<nat, seq<byte>>, id: nat): Name {
    if id in table then Known(table[id]) else Unknown
  }

  /** Ids mean what the latest definition before them says. */
  function Read(r: Reader, p: Packet): Reader {
    match p
    case SequenceStart => r
    case DefineCategory(iid, text) => r.(categories := r.categories[iid := text])
    case DefineEventName(iid, text) => r.(names := r.names[iid := text])
    case DefineThreadTrack(t) => r.(tracks := r.tracks[t := ThreadTrackName(t)])
    case DefineCounterTrack(u, t, text) => r.(tracks := r.tracks[u := CounterTrackName(t, text)])
    case SliceBegin(ts, t, c, n) =>
      r.(events := r.events + [Opened(ts, LookUp(r.tracks, t), LookUp(r.categories, c), LookUp(r.names, n))])
    case SliceEnd(ts, t, c, n) =>
      r.(events := r.events + [Closed(ts, LookUp(r.tracks, t), LookUp(r.categories, c), LookUp(r.names, n))])
    case CounterValue(ts, u, v) =>
      r.(events := r.events + [Counted(ts, LookUp(r.tracks, u), v)])
  }

  function ReadAll(ps: seq<Packet>): Reader {
    if ps == [] then Reader(map[], map[], map[], []) else Read(ReadAll(ps[..|ps| - 1]), ps[|ps| - 1])
  }

  lemma {:induction false} ReadSnoc(ps: seq<Packet>, p: Packet)
    ensures ReadAll(ps + [p]) == Read(ReadAll(ps), p)
  {
    assert (ps + [p])[..|ps|] == ps;
  }

  // ---------- What the calls ask for ----------

  datatype Ideal = Ideal(open: seq<Address>, events: seq<Event>)

  /** The call sequence without its unmatched ends, at any depth. */
  function PlainStep(env: Env, i: Ideal, call: Call): Ideal {
    var track := Known(ThreadTrackName(env.thread));
    var category := Known(CATEGORY_TEXT);
    match call
    case Begin(name, ts) => Ideal(i.open + [name], i.events + [Opened(ts, track, category, Known(env.text(name)))])
    case End(ts) =>
      if i.open == [] then i
      else
        var n := |i.open| - 1;
        Ideal(i.open[..n], i.events + [Closed(ts, track, category, Known(env.text(i.open[n])))])
    case Counter(name, value, ts) =>
      i.(events := i.events + [Counted(ts, Known(CounterTrackName(env.thread, env.text(name))), value)])
  }

  /** The same until sixteen slices are open, and then only the counters. */
  function IdealStep(env: Env, i: Ideal, call: Call): Ideal {
    if |i.open| == 16 && !call.Counter? then i else PlainStep(env, i, call)
  }

  function IdealRun(env: Env, turns: seq<Turn>): Ideal {
    if turns == [] then Ideal([], [])
    else IdealStep(env, IdealRun(env, turns[..|turns| - 1]), turns[|turns| - 1].call)
  }

  // ---------- Definitions come first, once ----------

  /** Nothing is defined twice, and whatever is used has been defined. */
  predicate Admits(r: Reader, p: Packet) {
    match p
    case SequenceStart => true
    case DefineCategory(iid, _) => iid !in r.categories
    case DefineEventName(iid, _) => iid !in r.names
    case DefineThreadTrack(t) => t !in r.tracks
    case DefineCounterTrack(u, _, _) => u !in r.tracks
    case SliceBegin(_, t, c, n) => t in r.tracks && c in r.categories && n in r.names
    case SliceEnd(_, t, c, n) => t in r.tracks && c in r.categories && n in r.names
    case CounterValue(_, u, _) => u in r.tracks
  }

  ghost predicate Orderly(ps: seq<Packet>) {
    forall k :: 0 <= k < |ps| ==> Admits(ReadAll(ps[..k]), ps[k])
  }

  lemma {:induction false} OrderlySnoc(ps: seq<Packet>, p: Packet)
    requires Orderly(ps) && Admits(ReadAll(ps), p)
    ensures Orderly(ps + [p])
  {
    hide Admits;
    var all := ps + [p];
    forall k | 0 <= k < |all| ensures Admits(ReadAll(all[..k]), all[k]) {
      assert all[..k] == ps[..k];
      if k == |ps| {
        assert all[..k] == ps;
      }
    }
  }

  predicate IsCategory(p: Packet, id: nat) { p.DefineCategory? && p.iid == id }

  predicate IsName(p: Packet, id: nat) { p.DefineEventName? && p.iid == id }

  predicate IsTrack(p: Packet, id: nat) {
    (p.DefineThreadTrack? && p.thread == id) || (p.DefineCounterTrack? && p.uuid == id)
  }

  /** The tables hold exactly what some packet defined. */
  lemma {:induction false} TablesAreDefinitions(ps: seq<Packet>, id: nat)
    ensures id in ReadAll(ps).categories <==> exists k :: 0 <= k < |ps| && IsCategory(ps[k], id)
    ensures id in ReadAll(ps).names <==> exists k :: 0 <= k < |ps| && IsName(ps[k], id)
    ensures id in ReadAll(ps).tracks <==> exists k :: 0 <= k < |ps| && IsTrack(ps[k], id)
  {
    if ps != [] {
      var n := |ps| - 1;
      var before := ps[..n];
      TablesAreDefinitions(before, id);
      assert forall k :: 0 <= k < n ==> before[k] == ps[k];
      assert IsCategory(ps[n], id) || !IsCategory(ps[n], id);
      assert IsName(ps[n], id) || !IsName(ps[n], id);
      assert IsTrack(ps[n], id) || !IsTrack(ps[n], id);
    }
  }

  // ---------- Slices nest ----------

  datatype Slice = Slice(track: u32, category: u32, name: u32)

  datatype Word = Broken | Word(open: seq<Slice>)

  function Bracket(w: Word, p: Packet): Word {
    if w.Broken? then w
    else match p
      case SliceBegin(_, t, c, n) => Word(w.open + [Slice(t, c, n)])
      case SliceEnd(_, t, c, n) =>
        if w.open == [] || w.open[|w.open| - 1] != Slice(t, c, n) then Broken else Word(w.open[..|w.open| - 1])
      case _ => w
  }

  /**
    * The slices left open; Broken as soon as an end does not repeat the track, category and name of the
    * begin it closes.
    */
  function Brackets(ps: seq<Packet>): Word {
    if ps == [] then Word([]) else Bracket(Brackets(ps[..|ps| - 1]), ps[|ps| - 1])
  }

  function OpenSlices(c: Ctx): seq<Slice>
    requires c.WellFormed()
  {
    seq(c.depth, k requires 0 <= k < c.depth => Slice(c.threadId, c.categoryIids[k], c.nameIids[k]))
  }

  // ---------- The invariant ----------

  predicate Ascending(s: seq<u32>) {
    forall i, j :: 0 <= i < j < |s| ==> s[i] < s[j]
  }

  predicate Injective<V(==)>(m: map<Address, V>) {
    forall a, b :: a in m && b in m && a != b ==> m[a] != m[b]
  }

  /** Every key of the interning tables is known to the reader under its own text. */
  ghost predicate Interned(env: Env, s: Session) {
    var r := ReadAll(s.out);
    var c := s.ctx;
    && (forall a <- c.categories ::
          && a == CATEGORY
          && c.categories[a] in r.categories && r.categories[c.categories[a]] == CATEGORY_TEXT)
    && (forall a <- c.events :: c.events[a] in r.names && r.names[c.events[a]] == env.text(a))
    && (forall k <- r.categories :: k in s.drawn)
    && (forall k <- r.names :: k in s.drawn)
    && Injective(c.events)
    && (forall a <- c.events :: c.events[a] !in r.categories)
  }

  /** The low word of a track's uuid is the thread's id. */
  ghost predicate OfThread(uuid: nat, thread: u32) {
    uuid % U32 == thread
  }

  /** Every track the thread has taken is known to the reader, and counter uuids stay above all of them. */
  ghost predicate Tracked(env: Env, s: Session) {
    var r := ReadAll(s.out);
    var c := s.ctx;
    && (c.needThreadId ==> c.depth == 0 && c.counters == map[] && r.tracks == map[] && c.counterId == 1)
    && (!c.needThreadId ==>
          && c.threadId == env.thread
          && c.threadId in r.tracks && r.tracks[c.threadId] == ThreadTrackName(env.thread))
    && (forall a <- c.counters ::
          U32 <= c.counters[a] && c.counters[a] in r.tracks &&
              r.tracks[c.counters[a]] == CounterTrackName(env.thread, env.text(a)))
    && (c.counterId != 0 ==> forall k <- r.tracks :: k < c.counterId * U32)
    && (forall k <- r.tracks :: OfThread(k, env.thread))
    && Injective(c.counters)
  }

  ghost predicate SlotHolds(c: Ctx, k: nat, name: Address)
    requires c.WellFormed() && k < c.depth
  {
    && CATEGORY in c.categories && c.categoryIids[k] == c.categories[CATEGORY]
    && name in c.events && c.nameIids[k] == c.events[name]
  }

  /** The open slices carry the ids of the names the calls opened. */
  ghost predicate Stacked(s: Session, open: seq<Address>) {
    var c := s.ctx;
    && c.WellFormed()
    && |open| == c.depth
    && (forall k :: 0 <= k < c.depth ==> SlotHolds(c, k, open[k]))
    && Brackets(s.out) == Word(OpenSlices(c))
  }

  ghost predicate Faithful(env: Env, s: Session, i: Ideal) {
    Interned(env, s) && Tracked(env, s) && Stacked(s, i.open) && ReadAll(s.out).events == i.events && Orderly(s.out)
  }

  /** The step has put the current category in its slot, and the thread has its track. */
  ghost predicate Ready(s: Session) {
    s.Room() && !s.ctx.needThreadId && CATEGORY in s.ctx.categories &&
    s.ctx.categoryIids[s.ctx.depth] == s.ctx.categories[CATEGORY]
  }

  // ---------- Each step keeps it ----------

  lemma {:induction false} Emitted(s: Session, p: Packet)
    requires Orderly(s.out) && Admits(ReadAll(s.out), p)
    ensures Orderly(s.out + [p]) && ReadAll(s.out + [p]) == Read(ReadAll(s.out), p)
    ensures Brackets(s.out + [p]) == Bracket(Brackets(s.out), p)
  {
    OrderlySnoc(s.out, p);
    ReadSnoc(s.out, p);
    assert (s.out + [p])[..|s.out|] == s.out;
  }

  lemma {:induction false} NotDrawnYet(drawn: seq<u32>, id: u32)
    requires Ascending(drawn + [id])
    ensures id !in drawn
  {
    var all := drawn + [id];
    assert forall k :: 0 <= k < |drawn| ==> all[k] == drawn[k] && all[k] < all[|drawn|];
  }

  lemma {:induction false} InternedKept(env: Env, s: Session, r: Session)
    requires Interned(env, s) && r.ctx.categories == s.ctx.categories && r.ctx.events == s.ctx.events
    requires r.drawn == s.drawn
    requires ReadAll(r.out).categories == ReadAll(s.out).categories && ReadAll(r.out).names == ReadAll(s.out).names
    ensures Interned(env, r)
  {
  }

  lemma {:induction false} NotDefinedYet(env: Env, s: Session, id: u32)
    requires Interned(env, s) && id !in s.drawn
    ensures id !in ReadAll(s.out).categories && id !in ReadAll(s.out).names
  {
    hide ReadAll;
  }

  lemma {:induction false} InternedCategory(env: Env, s: Session, r: Session, id: u32)
    requires Interned(env, s) && id !in s.drawn && r.drawn == s.drawn + [id]
    requires r.ctx.categories == s.ctx.categories[CATEGORY := id] && r.ctx.events == s.ctx.events
    requires ReadAll(r.out) == Read(ReadAll(s.out), DefineCategory(id, CATEGORY_TEXT))
    ensures Interned(env, r)
  {
    hide ReadAll;
  }

  lemma {:induction false} InternedEvent(env: Env, s: Session, r: Session, name: Address, id: u32)
    requires Interned(env, s) && id !in s.drawn && r.drawn == s.drawn + [id]
    requires r.ctx.categories == s.ctx.categories && r.ctx.events == s.ctx.events[name := id]
    requires ReadAll(r.out) == Read(ReadAll(s.out), DefineEventName(id, env.text(name)))
    ensures Interned(env, r)
  {
    hide ReadAll;
  }

  lemma {:induction false} TrackedKept(env: Env, s: Session, r: Session)
    requires Tracked(env, s) && r.ctx.counters == s.ctx.counters && r.ctx.counterId == s.ctx.counterId
    requires r.ctx.needThreadId == s.ctx.needThreadId && SameThread(s, r)
    requires ReadAll(r.out).tracks == ReadAll(s.out).tracks && (r.ctx.needThreadId ==> r.ctx.depth == 0)
    ensures Tracked(env, r)
  {
  }

  lemma {:induction false} StackedKept(s: Session, r: Session, open: seq<Address>)
    requires Stacked(s, open) && r.WellFormed() && Brackets(r.out) == Brackets(s.out)
    requires r.ctx.depth == s.ctx.depth && (r.ctx.threadId == s.ctx.threadId || r.ctx.depth == 0)
    requires r.ctx.categoryIids[..r.ctx.depth] == s.ctx.categoryIids[..s.ctx.depth]
    requires r.ctx.nameIids[..r.ctx.depth] == s.ctx.nameIids[..s.ctx.depth]
    requires forall a <- s.ctx.categories :: a in r.ctx.categories && r.ctx.categories[a] == s.ctx.categories[a]
    requires forall a <- s.ctx.events :: a in r.ctx.events && r.ctx.events[a] == s.ctx.events[a]
    ensures Stacked(r, open)
  {
    hide Brackets;
    forall k | 0 <= k < r.ctx.depth
      ensures SlotHolds(r.ctx, k, open[k])
      ensures r.ctx.categoryIids[k] == s.ctx.categoryIids[k] && r.ctx.nameIids[k] == s.ctx.nameIids[k]
    {
      assert SlotHolds(s.ctx, k, open[k]);
      assert r.ctx.categoryIids[..r.ctx.depth][k] == s.ctx.categoryIids[..s.ctx.depth][k];
      assert r.ctx.nameIids[..r.ctx.depth][k] == s.ctx.nameIids[..s.ctx.depth][k];
    }
    assert OpenSlices(r.ctx) == OpenSlices(s.ctx);
  }

  lemma {:induction false} StartKeeps(env: Env, s: Session, i: Ideal, first: bool)
    requires s.WellFormed() && Faithful(env, s, i)
    ensures Faithful(env, Start(s, first), i)
  {
    hide Orderly, ReadAll, Brackets, Interned, Tracked, Stacked;
    var r := Start(s, first);
    if first {
      Emitted(s, SequenceStart);
      assert r.out == s.out + [SequenceStart];
      InternedKept(env, s, r);
      TrackedKept(env, s, r) by { assert s.ctx.needThreadId ==> s.ctx.depth == 0 by { NoThreadNoDepth(env, s); } }
      StackedKept(s, r, i.open);
    }
  }

  lemma {:induction false} NoThreadNoDepth(env: Env, s: Session)
    requires Tracked(env, s)
    ensures s.ctx.needThreadId ==> s.ctx.depth == 0
  {
  }

  lemma {:induction false} InternCategoryKeeps(env: Env, s: Session, i: Ideal, id: u32)
    requires s.Room() && Faithful(env, s, i) && Ascending(InternCategory(s, id).drawn)
    ensures var r := InternCategory(s, id);
            Faithful(env, r, i) && CATEGORY in r.ctx.categories &&
                r.ctx.categoryIids[r.ctx.depth] == r.ctx.categories[CATEGORY]
  {
    hide Orderly, ReadAll, Brackets, Ascending, Tracked, Stacked, Interned;
    var r := InternCategory(s, id);
    if CATEGORY in s.ctx.categories {
      InternedKept(env, s, r);
    } else {
      NotDrawnYet(s.drawn, id);
      NotDefinedYet(env, s, id);
      Emitted(s, DefineCategory(id, CATEGORY_TEXT));
      InternedCategory(env, s, r, id);
    }
    NoThreadNoDepth(env, s);
    TrackedKept(env, s, r);
    StackedKept(s, r, i.open);
  }

  lemma {:induction false} TakeThreadIdKeeps(env: Env, s: Session, i: Ideal)
    requires s.WellFormed() && Faithful(env, s, i)
    ensures Faithful(env, TakeThreadId(s, env.thread), i)
  {
    hide Orderly, ReadAll, Brackets, Interned, Stacked;
    var r := TakeThreadId(s, env.thread);
    if s.ctx.needThreadId {
      Emitted(s, DefineThreadTrack(env.thread));
      InternedKept(env, s, r);
      StackedKept(s, r, i.open);
    }
  }

  lemma {:induction false} EnsureThreadInfoKeeps(env: Env, s: Session, i: Ideal, seen: Observed)
    requires s.Room() && Faithful(env, s, i) && Ascending(EnsureThreadInfo(env, s, seen).drawn)
    ensures Faithful(env, EnsureThreadInfo(env, s, seen), i) && Ready(EnsureThreadInfo(env, s, seen))
  {
    hide Faithful, Ascending;
    var a := Start(s, seen.first);
    StartKeeps(env, s, i, seen.first);
    InternCategoryKeeps(env, a, i, seen.category);
    TakeThreadIdKeeps(env, InternCategory(a, seen.category), i);
  }

  lemma {:induction false} InternEventKeeps(env: Env, s: Session, i: Ideal, name: Address, id: u32)
    requires Ready(s) && Faithful(env, s, i) && Ascending(InternEvent(env, s, name, id).drawn)
    ensures var r := InternEvent(env, s, name, id);
            Faithful(env, r, i) && Ready(r) && name in r.ctx.events && r.ctx.nameIids[r.ctx.depth] == r.ctx.events[name]
  {
    hide Orderly, ReadAll, Brackets, Ascending, Tracked, Stacked, Interned;
    var r := InternEvent(env, s, name, id);
    if name in s.ctx.events {
      InternedKept(env, s, r);
    } else {
      NotDrawnYet(s.drawn, id);
      NotDefinedYet(env, s, id);
      Emitted(s, DefineEventName(id, env.text(name)));
      InternedEvent(env, s, r, name, id);
    }
    TrackedKept(env, s, r);
    StackedKept(s, r, i.open);
  }

  lemma {:induction false} OpenSliceKeeps(env: Env, s: Session, i: Ideal, name: Address, ts: u64)
    requires Ready(s) && Faithful(env, s, i) && name in s.ctx.events
    requires s.ctx.nameIids[s.ctx.depth] == s.ctx.events[name]
    ensures Faithful(env, OpenSlice(s, ts), IdealStep(env, i, Begin(name, ts)))
  {
    hide Orderly, ReadAll, Brackets;
    var r := OpenSlice(s, ts);
    var c := s.ctx;
    var d := c.depth;
    Emitted(s, SliceBegin(ts, c.threadId, c.categoryIids[d], c.nameIids[d]));
    InternedKept(env, s, r);
    TrackedKept(env, s, r);
    assert OpenSlices(r.ctx) == OpenSlices(c) + [Slice(c.threadId, c.categoryIids[d], c.nameIids[d])];
  }

  lemma {:induction false} CloseSliceKeeps(env: Env, s: Session, i: Ideal, ts: u64)
    requires s.Room() && Faithful(env, s, i) && 0 < s.ctx.depth
    ensures Faithful(env, CloseSlice(s, ts), IdealStep(env, i, End(ts)))
  {
    hide Orderly, ReadAll, Brackets;
    var r := CloseSlice(s, ts);
    var c := s.ctx;
    var d := c.depth - 1;
    assert SlotHolds(c, d, i.open[d]);
    Emitted(s, SliceEnd(ts, c.threadId, c.categoryIids[d], c.nameIids[d]));
    InternedKept(env, s, r);
    TrackedKept(env, s, r);
    assert OpenSlices(r.ctx) == OpenSlices(c)[..d];
  }

  lemma {:induction false} LowWord(high: u32, low: u32)
    ensures OfThread(high * U32 + low, low)
  {
  }

  lemma {:induction false} UuidIsNew(env: Env, s: Session)
    requires Tracked(env, s) && s.ctx.counterId != 0
    ensures CounterUuid(s.ctx) !in ReadAll(s.out).tracks
  {
    hide ReadAll;
  }

  lemma {:induction false} TrackedCounter(env: Env, s: Session, r: Session, name: Address)
    requires Tracked(env, s) && !s.ctx.needThreadId && !r.ctx.needThreadId && s.ctx.counterId != 0
    requires name !in s.ctx.counters
    requires r.ctx.counters == s.ctx.counters[name := CounterUuid(s.ctx)] && SameThread(s, r)
    requires r.ctx.counterId == Next(s.ctx.counterId)
    requires ReadAll(r.out) ==
        Read(ReadAll(s.out), DefineCounterTrack(CounterUuid(s.ctx), s.ctx.threadId, env.text(name)))
    ensures Tracked(env, r)
  {
    hide ReadAll, OfThread, CounterTrackName, ThreadTrackName;
    LowWord(s.ctx.counterId, s.ctx.threadId);
    UuidIsNew(env, s);
    var uuid := CounterUuid(s.ctx);
    var tracks := ReadAll(s.out).tracks;
    assert ReadAll(r.out).tracks == tracks[uuid := CounterTrackName(s.ctx.threadId, env.text(name))];
    assert U32 <= uuid < (s.ctx.counterId + 1) * U32;
    forall a <- s.ctx.counters ensures s.ctx.counters[a] != uuid {
      assert s.ctx.counters[a] in tracks;
    }
    hide CounterUuid, Read;
  }

  lemma {:induction false} GetCounterKeeps(env: Env, s: Session, i: Ideal, name: Address)
    requires Ready(s) && Faithful(env, s, i) && (name in s.ctx.counters || s.ctx.counterId != 0)
    ensures var r := GetCounter(env, s, name); Faithful(env, r, i) && Ready(r)
  {
    hide Orderly, ReadAll, Brackets, Interned, Stacked, Tracked;
    var r := GetCounter(env, s, name);
    if name !in s.ctx.counters {
      UuidIsNew(env, s);
      Emitted(s, DefineCounterTrack(CounterUuid(s.ctx), s.ctx.threadId, env.text(name)));
      TrackedCounter(env, s, r, name);
      InternedKept(env, s, r);
      StackedKept(s, r, i.open);
    }
  }

  lemma {:induction false} AddValueKeeps(env: Env, s: Session, i: Ideal, name: Address, value: i64, ts: u64)
    requires Ready(s) && Faithful(env, s, i) && name in s.ctx.counters
    ensures Faithful(env, AddValue(s, name, value, ts), IdealStep(env, i, Counter(name, value, ts)))
  {
    hide Orderly, ReadAll, Brackets, Interned, Stacked;
    var r := AddValue(s, name, value, ts);
    Emitted(s, CounterValue(ts, s.ctx.counters[name], value));
    InternedKept(env, s, r);
    TrackedKept(env, s, r);
    StackedKept(s, r, i.open);
  }

  lemma {:induction false} PerformKeeps(env: Env, s: Session, i: Ideal, t: Turn)
    requires s.WellFormed() && Legal(s.ctx, t.call) && NoCounterWrap(s.ctx, t.call)
    requires Faithful(env, s, i) && Ascending(Perform(env, s, t).drawn)
    ensures Faithful(env, Perform(env, s, t), IdealStep(env, i, t.call))
  {
    hide Interned, Tracked, Orderly, ReadAll, Brackets, EnsureThreadInfo, InternEvent, OpenSlice, CloseSlice;
    hide GetCounter, AddValue;
    match t.call
    case Begin(name, ts) =>
      if s.ctx.depth < STACK_DEPTH_MAX {
        var a := EnsureThreadInfo(env, s, t.seen);
        var b := InternEvent(env, a, name, t.seen.name);
        AscendingPrefix(a.drawn, b.drawn);
        EnsureThreadInfoKeeps(env, s, i, t.seen);
        InternEventKeeps(env, a, i, name, t.seen.name);
        OpenSliceKeeps(env, b, i, name, ts);
      }
    case End(ts) =>
      if 0 < s.ctx.depth < STACK_DEPTH_MAX {
        CloseSliceKeeps(env, s, i, ts);
      }
    case Counter(name, value, ts) =>
      var a := EnsureThreadInfo(env, s, t.seen);
      EnsureThreadInfoKeeps(env, s, i, t.seen);
      GetCounterKeeps(env, a, i, name);
      AddValueKeeps(env, GetCounter(env, a, name), i, name, value, ts);
  }

  // ---------- Whole runs ----------

  /**
    * Whatever the other threads do to the counters, as long as the ids this thread draws ascend:
    * a reader of its packets sees exactly the slices and counters its calls asked for, under their names.
    */
  lemma {:induction false} RunIsFaithful(env: Env, c: Ctx, turns: seq<Turn>)
    requires Regular(env, c, turns)
    ensures Faithful(env, Run(env, c, turns), IdealRun(env, turns))
  {
    hide Faithful, Perform, Ascending;
    if turns == [] {
      FreshIsFaithful(env, c);
    } else {
      var n := |turns| - 1;
      var s := Run(env, c, turns[..n]);
      RegularPrefix(env, c, turns);
      RunIsFaithful(env, c, turns[..n]);
      PerformKeeps(env, s, IdealRun(env, turns[..n]), turns[n]);
    }
  }

  lemma {:induction false} FreshIsFaithful(env: Env, c: Ctx)
    requires c.Fresh()
    ensures Faithful(env, Session(c, [], []), Ideal([], []))
  {
    assert OpenSlices(c) == [];
  }

  lemma {:induction false} RegularPrefix(env: Env, c: Ctx, turns: seq<Turn>)
    requires Regular(env, c, turns) && turns != []
    ensures Regular(env, c, turns[..|turns| - 1])
  {
    hide Perform, Ascending;
    AscendingPrefix(Run(env, c, turns[..|turns| - 1]).drawn, Run(env, c, turns).drawn);
  }

  lemma {:induction false} AscendingPrefix(s: seq<u32>, t: seq<u32>)
    requires s <= t && Ascending(t)
    ensures Ascending(s)
  {
    forall i, j | 0 <= i < j < |s| ensures s[i] < s[j] {
      assert t[i] < t[j];
    }
  }

  // ---------- What the theorem gives ----------

  /** Every id an event uses is defined by an earlier packet of the same thread, whatever buffers they landed in. */
  lemma {:induction false} DefinedBeforeUse(env: Env, c: Ctx, turns: seq<Turn>, k: nat)
    requires Regular(env, c, turns)
    requires k < |Run(env, c, turns).out|
    ensures var ps := Run(env, c, turns).out;
            var p := ps[k];
            && (p.SliceBegin? || p.SliceEnd? ==>
                  && (exists j :: 0 <= j < k && IsCategory(ps[j], p.category))
                  && (exists j :: 0 <= j < k && IsName(ps[j], p.name))
                  && (exists j :: 0 <= j < k && IsTrack(ps[j], p.track)))
            && (p.CounterValue? ==> exists j :: 0 <= j < k && IsTrack(ps[j], p.uuid))
  {
    hide Run, LegalRun, NeverWraps, Ascending, ReadAll;
    RunIsFaithful(env, c, turns);
    var ps := Run(env, c, turns).out;
    var p := ps[k];
    assert Admits(ReadAll(ps[..k]), p);
    if p.SliceBegin? || p.SliceEnd? {
      EarlierDefinition(ps, k, p.category);
      EarlierDefinition(ps, k, p.name);
      EarlierDefinition(ps, k, p.track);
    } else if p.CounterValue? {
      EarlierDefinition(ps, k, p.uuid);
    }
  }

  lemma {:induction false} EarlierDefinition(ps: seq<Packet>, k: nat, id: nat)
    requires k <= |ps|
    ensures id in ReadAll(ps[..k]).categories ==> exists j :: 0 <= j < k && IsCategory(ps[j], id)
    ensures id in ReadAll(ps[..k]).names ==> exists j :: 0 <= j < k && IsName(ps[j], id)
    ensures id in ReadAll(ps[..k]).tracks ==> exists j :: 0 <= j < k && IsTrack(ps[j], id)
  {
    hide ReadAll, IsCategory, IsName, IsTrack;
    TablesAreDefinitions(ps[..k], id);
    assert forall j :: 0 <= j < k ==> ps[..k][j] == ps[j];
  }

  /** Different names get different ids, and no name shares the category's; different counters get different tracks. */
  lemma {:induction false} IdsAreDistinct(env: Env, c: Ctx, turns: seq<Turn>)
    requires Regular(env, c, turns)
    ensures var e := Run(env, c, turns).ctx;
            && Injective(e.events) && Injective(e.counters)
            && (forall a <- e.events, b <- e.categories :: e.events[a] != e.categories[b])
            && (forall a <- e.counters :: e.counters[a] != e.threadId)
  {
    hide Run, LegalRun, NeverWraps, Ascending, ReadAll;
    RunIsFaithful(env, c, turns);
  }

  /** Tracks of threads with different ids never meet. */
  lemma {:induction false} TracksAreDistinct(
    env1: Env, c1: Ctx, turns1: seq<Turn>, env2: Env, c2: Ctx, turns2: seq<Turn>, id: nat)
    requires Regular(env1, c1, turns1)
    requires Regular(env2, c2, turns2)
    requires env1.thread != env2.thread
    ensures !(id in ReadAll(Run(env1, c1, turns1).out).tracks && id in ReadAll(Run(env2, c2, turns2).out).tracks)
  {
    hide Run, LegalRun, NeverWraps, Ascending, ReadAll;
    RunIsFaithful(env1, c1, turns1);
    RunIsFaithful(env2, c2, turns2);
  }

  /** Open slices in the output are the stack of the context, innermost last. */
  lemma {:induction false} SlicesNest(env: Env, c: Ctx, turns: seq<Turn>)
    requires Regular(env, c, turns)
    ensures var r := Run(env, c, turns);
            Brackets(r.out) == Word(OpenSlices(r.ctx)) && |OpenSlices(r.ctx)| == r.ctx.depth
  {
    hide Run, LegalRun, NeverWraps, Ascending, Brackets;
    RunIsFaithful(env, c, turns);
  }

  /** Sixteen open slices silence the thread until a full reset. */
  lemma {:induction false} FullDepthAbsorbs(env: Env, c: Ctx, turns: seq<Turn>, k: nat)
    requires c.WellFormed() && LegalRun(env, c, turns) && k <= |turns|
    ensures LegalRun(env, c, turns[..k])
    ensures Run(env, c, turns[..k]).ctx.depth == STACK_DEPTH_MAX ==> Run(env, c, turns) == Run(env, c, turns[..k])
  {
    if k == |turns| {
      assert turns[..k] == turns;
    } else {
      var n := |turns| - 1;
      assert turns[..n][..k] == turns[..k];
      FullDepthAbsorbs(env, c, turns[..n], k);
    }
  }

  // ---------- The cap of sixteen ----------

  function PlainRun(env: Env, turns: seq<Turn>): Ideal {
    if turns == [] then Ideal([], [])
    else PlainStep(env, PlainRun(env, turns[..|turns| - 1]), turns[|turns| - 1].call)
  }

  /** No call is made with sixteen slices open. */
  predicate NeverFull(env: Env, turns: seq<Turn>) {
    turns == [] ||
    (NeverFull(env, turns[..|turns| - 1]) && |PlainRun(env, turns[..|turns| - 1]).open| < STACK_DEPTH_MAX)
  }

  lemma {:induction false} CapComparison(env: Env, c: Ctx, turns: seq<Turn>)
    requires Regular(env, c, turns)
    ensures NeverFull(env, turns) ==> IdealRun(env, turns) == PlainRun(env, turns)
    ensures !NeverFull(env, turns) ==>
              |IdealRun(env, turns).events| < |PlainRun(env, turns).events| &&
                  |IdealRun(env, turns).open| == STACK_DEPTH_MAX
  {
    hide Perform, Faithful, Ascending;
    if turns != [] {
      var n := |turns| - 1;
      RegularPrefix(env, c, turns);
      CapComparison(env, c, turns[..n]);
      assert |IdealRun(env, turns[..n]).open| == Run(env, c, turns[..n]).ctx.depth <= STACK_DEPTH_MAX by {
        hide *;
        DepthIsIdeal(env, c, turns[..n]);
      }
    }
  }

  lemma {:induction false} DepthIsIdeal(env: Env, c: Ctx, turns: seq<Turn>)
    requires Regular(env, c, turns)
    ensures |IdealRun(env, turns).open| == Run(env, c, turns).ctx.depth <= STACK_DEPTH_MAX
  {
    hide Run, LegalRun, IdealRun, Ascending;
    RunIsFaithful(env, c, turns);
  }

  /** The output is exactly the call sequence minus unmatched ends if and only if no call is made at full depth. */
  lemma {:induction false} ExactWhenNeverFull(env: Env, c: Ctx, turns: seq<Turn>)
    requires Regular(env, c, turns)
    ensures ReadAll(Run(env, c, turns).out).events == PlainRun(env, turns).events <==> NeverFull(env, turns)
  {
    hide Run, LegalRun, NeverWraps, Ascending, ReadAll, IdealRun, PlainRun;
    RunIsFaithful(env, c, turns);
    CapComparison(env, c, turns);
  }

  // ---------- The sequence start ----------

  /** The call reaches the packet counter. */
  predicate Counts(c: Ctx, call: Call) {
    !call.End? && c.depth < STACK_DEPTH_MAX
  }

  /** How many sequence starts a session has emitted. */
  function Starts(ps: seq<Packet>): nat {
    if ps == [] then 0 else Starts(ps[..|ps| - 1]) + if ps[|ps| - 1] == SequenceStart then 1 else 0
  }

  lemma {:induction false} StartsSnoc(ps: seq<Packet>, p: Packet)
    ensures Starts(ps + [p]) == Starts(ps) + if p == SequenceStart then 1 else 0
  {
    assert (ps + [p])[..|ps|] == ps;
  }

  /** A call emits a sequence start exactly when it finds itself first, and then before everything else it emits. */
  lemma {:induction false} StartExactlyWhenFirst(env: Env, s: Session, t: Turn)
    requires s.WellFormed() && Legal(s.ctx, t.call)
    ensures var r := Perform(env, s, t);
            var first := Counts(s.ctx, t.call) && t.seen.first;
            && Starts(r.out) == Starts(s.out) + (if first then 1 else 0)
            && (first ==> s.out + [SequenceStart] <= r.out)
  {
    hide Starts;
    if Counts(s.ctx, t.call) {
      StartOfThreadInfo(env, s, t.seen);
    }
    match t.call
    case Begin(name, ts) =>
      if s.ctx.depth < STACK_DEPTH_MAX {
        var a := EnsureThreadInfo(env, s, t.seen);
        StartOfBegin(env, a, name, t.seen.name, ts);
      }
    case End(ts) =>
      if 0 < s.ctx.depth < STACK_DEPTH_MAX {
        var c, d := s.ctx, s.ctx.depth - 1;
        StartsSnoc(s.out, SliceEnd(ts, c.threadId, c.categoryIids[d], c.nameIids[d]));
      }
    case Counter(name, value, ts) =>
      StartOfCounter(env, EnsureThreadInfo(env, s, t.seen), name, value, ts);
  }

  lemma {:induction false} StartOfThreadInfo(env: Env, s: Session, seen: Observed)
    requires s.Room()
    ensures var r := EnsureThreadInfo(env, s, seen);
            && Starts(r.out) == Starts(s.out) + (if seen.first then 1 else 0)
            && (seen.first ==> s.out + [SequenceStart] <= r.out)
  {
    hide Starts;
    var a := Start(s, seen.first);
    StartsSnoc(s.out, SequenceStart);
    StartsSnoc(a.out, DefineCategory(seen.category, CATEGORY_TEXT));
    StartsSnoc(InternCategory(a, seen.category).out, DefineThreadTrack(env.thread));
  }

  lemma {:induction false} StartOfBegin(env: Env, s: Session, name: Address, id: u32, ts: u64)
    requires s.Room()
    ensures Starts(OpenSlice(InternEvent(env, s, name, id), ts).out) == Starts(s.out)
    ensures s.out <= OpenSlice(InternEvent(env, s, name, id), ts).out
  {
    hide Starts;
    var c := InternEvent(env, s, name, id).ctx;
    StartsSnoc(s.out, DefineEventName(id, env.text(name)));
    StartsSnoc(InternEvent(env, s, name, id).out,
        SliceBegin(ts, c.threadId, c.categoryIids[c.depth], c.nameIids[c.depth]));
  }

  lemma {:induction false} StartOfCounter(env: Env, s: Session, name: Address, value: i64, ts: u64)
    requires s.WellFormed()
    ensures Starts(AddValue(GetCounter(env, s, name), name, value, ts).out) == Starts(s.out)
    ensures s.out <= AddValue(GetCounter(env, s, name), name, value, ts).out
  {
    hide Starts;
    var b := GetCounter(env, s, name);
    StartsSnoc(s.out, DefineCounterTrack(CounterUuid(s.ctx), s.ctx.threadId, env.text(name)));
    StartsSnoc(b.out, CounterValue(ts, b.ctx.counters[name], value));
  }

  // ---------- Sizes of the names ----------

  /** The name a call brings along fits in a packet. */
  predicate ShortCall(text: Address -> seq<byte>, call: Call) {
    match call
    case Begin(name, _) => |text(name)| <= MAX_EVENT_NAME
    case End(_) => true
    case Counter(name, _, _) => |text(name)| <= MAX_COUNTER_NAME
  }

  predicate ShortCalls(text: Address -> seq<byte>, turns: seq<Turn>) {
    forall k :: 0 <= k < |turns| ==> ShortCall(text, turns[k].call)
  }

  ghost predicate AllShort(ps: seq<Packet>) {
    forall p <- ps :: ShortNames(p)
  }

  lemma {:induction false} PerformShort(env: Env, s: Session, t: Turn)
    requires s.WellFormed() && Legal(s.ctx, t.call) && ShortCall(env.text, t.call) && AllShort(s.out)
    ensures AllShort(Perform(env, s, t).out)
  {
    hide LegalRun;
    match t.call
    case Begin(name, ts) =>
      if s.ctx.depth < STACK_DEPTH_MAX {
        ThreadInfoShort(env, s, t.seen);
        hide EnsureThreadInfo;
      }
    case End(ts) =>
    case Counter(name, value, ts) =>
      ThreadInfoShort(env, s, t.seen);
      hide EnsureThreadInfo;
  }

  lemma {:induction false} ThreadInfoShort(env: Env, s: Session, seen: Observed)
    requires s.Room() && AllShort(s.out)
    ensures AllShort(EnsureThreadInfo(env, s, seen).out)
  {
  }

  lemma {:induction false} RunShort(env: Env, c: Ctx, turns: seq<Turn>)
    requires c.WellFormed() && LegalRun(env, c, turns) && ShortCalls(env.text, turns)
    ensures AllShort(Run(env, c, turns).out)
  {
    hide Perform, AllShort;
    if turns == [] {
      NoneLong();
    } else {
      RunShort(env, c, turns[..|turns| - 1]);
      PerformShort(env, Run(env, c, turns[..|turns| - 1]), turns[|turns| - 1]);
    }
  }

  lemma {:induction false} NoneLong()
    ensures AllShort([])
  {
  }

  // ---------- The one category ----------

  /** Every category a session defines is the one the recorder uses. */
  ghost predicate OneCategory(ps: seq<Packet>) {
    forall p <- ps :: p.DefineCategory? ==> p.text == CATEGORY_TEXT
  }

  lemma {:induction false} PerformOneCategory(env: Env, s: Session, t: Turn)
    requires s.WellFormed() && Legal(s.ctx, t.call) && OneCategory(s.out)
    ensures OneCategory(Perform(env, s, t).out)
  {
    match t.call
    case Begin(name, ts) =>
      if s.ctx.depth < STACK_DEPTH_MAX {
        ThreadInfoOneCategory(env, s, t.seen);
        hide EnsureThreadInfo;
      }
    case End(ts) =>
    case Counter(name, value, ts) =>
      ThreadInfoOneCategory(env, s, t.seen);
      hide EnsureThreadInfo;
  }

  lemma {:induction false} ThreadInfoOneCategory(env: Env, s: Session, seen: Observed)
    requires s.Room() && OneCategory(s.out)
    ensures OneCategory(EnsureThreadInfo(env, s, seen).out)
  {
  }

  lemma {:induction false} RunOneCategory(env: Env, c: Ctx, turns: seq<Turn>)
    requires c.WellFormed() && LegalRun(env, c, turns)
    ensures OneCategory(Run(env, c, turns).out)
  {
    hide Perform;
    if turns != [] {
      RunOneCategory(env, c, turns[..|turns| - 1]);
      PerformOneCategory(env, Run(env, c, turns[..|turns| - 1]), turns[|turns| - 1]);
    }
  }
}
