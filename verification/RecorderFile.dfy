/**
  * From the threads' buffers to the saved file: who writes the sequence start, when buffers are
  * handed over, and in which order they reach the file.
  */
module RecorderFile {
  import opened WireFormat
  import opened RecorderPackets

  /** A buffer handed over to the storage. */
  datatype Chunk = Chunk(owner: Thread, first: bool, packets: seq<Packet>)

  // ---------- The file ----------

  function Pick(chunks: seq<Chunk>, first: bool): (r: seq<Chunk>) {
    if chunks == [] then []
    else Pick(chunks[..|chunks| - 1], first) + if chunks[|chunks| - 1].first == first then [chunks[|chunks| - 1]]
        else []
  }

  /** Flagged buffers first, then the others, each group as handed over. */
  function FileOrder(chunks: seq<Chunk>): seq<Chunk> {
    Pick(chunks, true) + Pick(chunks, false)
  }

  function Packets(chunks: seq<Chunk>): seq<Packet> {
    if chunks == [] then [] else Packets(chunks[..|chunks| - 1]) + chunks[|chunks| - 1].packets
  }

  /** The packets of one thread. */
  function Of(chunks: seq<Chunk>, t: Thread): seq<Packet> {
    if chunks == [] then []
    else Of(chunks[..|chunks| - 1], t) + if chunks[|chunks| - 1].owner == t then chunks[|chunks| - 1].packets else []
  }

  lemma {:induction false} PacketsConcat(a: seq<Chunk>, b: seq<Chunk>)
    ensures Packets(a + b) == Packets(a) + Packets(b)
  {
    if b == [] {
      assert a + b == a;
    } else {
      assert (a + b)[..|a + b| - 1] == a + b[..|b| - 1];
      PacketsConcat(a, b[..|b| - 1]);
    }
  }

  lemma {:induction false} OfConcat(a: seq<Chunk>, b: seq<Chunk>, t: Thread)
    ensures Of(a + b, t) == Of(a, t) + Of(b, t)
  {
    if b == [] {
      assert a + b == a;
    } else {
      assert (a + b)[..|a + b| - 1] == a + b[..|b| - 1];
      OfConcat(a, b[..|b| - 1], t);
    }
  }

  lemma {:induction false} StreamConcat(a: seq<Packet>, b: seq<Packet>)
    ensures StreamBytes(a + b) == StreamBytes(a) + StreamBytes(b)
  {
    hide PacketBytes;
    if b == [] {
      assert a + b == a;
    } else {
      assert (a + b)[..|a + b| - 1] == a + b[..|b| - 1];
      StreamConcat(a, b[..|b| - 1]);
    }
  }

  /** Every buffer is written exactly once. */
  lemma {:induction false} FileOrderPermutes(chunks: seq<Chunk>)
    ensures multiset(FileOrder(chunks)) == multiset(chunks)
  {
    if chunks != [] {
      var n := |chunks| - 1;
      FileOrderPermutes(chunks[..n]);
      assert chunks == chunks[..n] + [chunks[n]];
    }
  }

  lemma {:induction false} PickNone(chunks: seq<Chunk>)
    requires forall k :: 0 <= k < |chunks| ==> !chunks[k].first
    ensures Pick(chunks, true) == [] && Pick(chunks, false) == chunks
  {
    if chunks != [] {
      var n := |chunks| - 1;
      PickNone(chunks[..n]);
      assert chunks == chunks[..n] + [chunks[n]];
    }
  }

  /** With one flagged buffer, the file is that buffer and then the others in order. */
  lemma {:induction false} PickOne(chunks: seq<Chunk>, k: nat)
    requires k < |chunks| && forall j :: 0 <= j < |chunks| ==> (chunks[j].first <==> j == k)
    ensures Pick(chunks, true) == [chunks[k]] && Pick(chunks, false) == chunks[..k] + chunks[k + 1..]
  {
    var n := |chunks| - 1;
    if k == n {
      PickNone(chunks[..n]);
      assert chunks[..k] + chunks[k + 1..] == chunks[..n];
    } else {
      PickOne(chunks[..n], k);
      assert chunks[..n][..k] + chunks[..n][k + 1..] + [chunks[n]] == chunks[..k] + chunks[k + 1..];
    }
  }

  lemma {:induction false} OfNobody(chunks: seq<Chunk>, t: Thread)
    requires forall k :: 0 <= k < |chunks| ==> chunks[k].owner != t
    ensures Of(chunks, t) == []
  {
    if chunks != [] {
      OfNobody(chunks[..|chunks| - 1], t);
    }
  }

  // ---------- The threads ----------

  datatype Buffer = NoBuffer | Buffer(packets: seq<Packet>) {
    function Contents(): seq<Packet> { if NoBuffer? then [] else packets }
  }

  /** mustStart: the thread has found the packet count at zero and has not yet written the start packet. */
  datatype Local = Local(first: bool, mustStart: bool, buffer: Buffer, recorded: seq<Packet>)

  /** `size` is the configured size of a buffer. */
  datatype World = World(size: nat, packetsWritten: u32, locals: map<Thread, Local>, saved: seq<Chunk>) {
    function At(t: Thread): Local {
      if t in locals then locals[t] else Local(false, false, NoBuffer, [])
    }

    function Put(t: Thread, l: Local): World { this.(locals := locals[t := l]) }
  }

  datatype Step =
    | Count(t: Thread)
    | Emit(t: Thread, p: Packet)
    | HandOver(t: Thread)

  predicate Enabled(w: World, e: Step) {
    match e
    case Count(t) => !w.At(t).mustStart
    case Emit(t, p) => w.packetsWritten != 0 && (p == SequenceStart <==> w.At(t).mustStart)
    case HandOver(t) => !w.At(t).mustStart
  }

  /** The packet counter stays within 32 bits. */
  predicate NoWrap(w: World, e: Step) {
    e.Count? ==> w.packetsWritten + 1 < U32
  }

  function Saved(t: Thread, l: Local): seq<Chunk> {
    if l.buffer.NoBuffer? then [] else [Chunk(t, l.first, l.buffer.packets)]
  }

  /** Less is free than the recorder asks for before a packet. */
  predicate Full(size: nat, b: Buffer) {
    b.Buffer? && size < |StreamBytes(b.packets)| + NEEDED_SPACE
  }

  /**
    * What a step does to its own thread; `first` says that a count found zero. A full buffer makes way
    * before a packet.
    */
  function Moved(size: nat, l: Local, e: Step, first: bool): Local {
    match e
    case Count(_) => if first then l.(first := true, mustStart := true) else l
    case Emit(_, p) =>
      var r := l.(mustStart := false, recorded := l.recorded + [p]);
      if Full(size, l.buffer) then r.(first := false, buffer := Buffer([p]))
      else r.(buffer := Buffer(l.buffer.Contents() + [p]))
    case HandOver(_) => if l.buffer.NoBuffer? then l else l.(first := false, buffer := NoBuffer)
  }

  /** What a step adds to the storage. */
  function Passed(size: nat, l: Local, e: Step): seq<Chunk> {
    match e
    case Count(_) => []
    case Emit(t, _) => if Full(size, l.buffer) then Saved(t, l) else []
    case HandOver(t) => Saved(t, l)
  }

  function Apply(w: World, e: Step): World {
    var l := w.At(e.t);
    var n := if e.Count? then (w.packetsWritten + 1) % U32 else w.packetsWritten;
    World(w.size, n, w.locals[e.t := Moved(w.size, l, e, n == 1)], w.saved + Passed(w.size, l, e))
  }

  /**
    * Steps are local: a thread that moves as above, and passes on what is said above, takes a step of
    * the machine, whatever the others have done.
    */
  lemma {:induction false} StepsAreLocal(w: World, e: Step)
    ensures var r := Apply(w, e);
            && r.At(e.t) == Moved(w.size, w.At(e.t), e, (w.packetsWritten + 1) % U32 == 1)
            && r.saved == w.saved + Passed(w.size, w.At(e.t), e)
            && forall u :: u != e.t ==> r.At(u) == w.At(u)
  {
    hide StreamBytes;
  }

  function Exec(size: nat, steps: seq<Step>): World {
    if steps == [] then World(size, 0, map[], []) else Apply(Exec(size, steps[..|steps| - 1]), steps[|steps| - 1])
  }

  predicate Runs(size: nat, steps: seq<Step>) {
    steps == [] ||
    (var before, e := steps[..|steps| - 1], steps[|steps| - 1];
     Runs(size, before) && Enabled(Exec(size, before), e) && NoWrap(Exec(size, before), e))
  }

  // ---------- What every interleaving keeps ----------

  predicate Clean(ps: seq<Packet>) {
    forall k :: 0 <= k < |ps| ==> ps[k] != SequenceStart
  }

  predicate Leading(ps: seq<Packet>) {
    ps != [] && ps[0] == SequenceStart && Clean(ps[1..])
  }

  /** Nothing a thread has recorded is lost, duplicated or reordered. */
  ghost predicate Conserved(w: World) {
    forall t :: Of(w.saved, t) + w.At(t).buffer.Contents() == w.At(t).recorded
  }

  ghost predicate Ordinary(l: Local) {
    !l.first && !l.mustStart && Clean(l.buffer.Contents())
  }

  ghost predicate AllClean(w: World) {
    && (forall t :: Ordinary(w.At(t)))
    && (forall k :: 0 <= k < |w.saved| ==> !w.saved[k].first && Clean(w.saved[k].packets))
  }

  /** Thread s holds the start packet, or is about to write it into its first buffer. */
  ghost predicate Holds(w: World, s: Thread) {
    && w.At(s).first
    && (if w.At(s).mustStart then w.At(s).buffer.NoBuffer?
        else w.At(s).buffer.Buffer? && Leading(w.At(s).buffer.packets))
    && (forall t :: t != s ==> Ordinary(w.At(t)))
    && (forall k :: 0 <= k < |w.saved| ==> !w.saved[k].first && w.saved[k].owner != s && Clean(w.saved[k].packets))
  }

  /** Buffer k holds the start packet and comes before everything else its thread handed over. */
  ghost predicate Kept(w: World, k: nat) {
    && k < |w.saved|
    && w.saved[k].first && Leading(w.saved[k].packets)
    && (forall t :: Ordinary(w.At(t)))
    && (forall j :: 0 <= j < |w.saved| && j != k ==> !w.saved[j].first && Clean(w.saved[j].packets))
    && (forall j :: 0 <= j < k ==> w.saved[j].owner != w.saved[k].owner)
  }

  ghost predicate Untouched(w: World) {
    AllClean(w) && w.saved == [] && forall t :: w.At(t).buffer.NoBuffer?
  }

  ghost predicate Started(w: World) {
    if w.packetsWritten == 0 then Untouched(w) else (exists s :: Holds(w, s)) || (exists k: nat :: Kept(w, k))
  }

  lemma {:induction false} OthersUntouched(w: World, e: Step)
    ensures forall u :: u != e.t ==> Apply(w, e).At(u) == w.At(u)
    ensures |Apply(w, e).saved| <= |w.saved| + 1 && w.saved <= Apply(w, e).saved && Apply(w, e).size == w.size
  {
    hide StreamBytes;
  }

  lemma {:induction false} StepConserves(w: World, e: Step)
    requires Conserved(w)
    ensures Conserved(Apply(w, e))
  {
    hide Of, StreamBytes;
    var r := Apply(w, e);
    OthersUntouched(w, e);
    forall t ensures Of(r.saved, t) + r.At(t).buffer.Contents() == r.At(t).recorded {
      assert Of(w.saved, t) + w.At(t).buffer.Contents() == w.At(t).recorded;
      if r.saved != w.saved {
        assert r.saved == w.saved + Saved(e.t, w.At(e.t));
        OfOne(w.saved, Chunk(e.t, w.At(e.t).first, w.At(e.t).buffer.packets), t);
      }
    }
  }

  lemma {:induction false} OfOne(chunks: seq<Chunk>, c: Chunk, t: Thread)
    ensures Of(chunks + [c], t) == Of(chunks, t) + if c.owner == t then c.packets else []
  {
    assert (chunks + [c])[..|chunks|] == chunks;
  }

  lemma {:induction false} CountStarts(w: World, t: Thread)
    requires Started(w) && Enabled(w, Count(t)) && NoWrap(w, Count(t))
    ensures Started(Apply(w, Count(t)))
  {
    hide StreamBytes;
    var r := Apply(w, Count(t));
    OthersUntouched(w, Count(t));
    if w.packetsWritten == 0 {
      assert Holds(r, t);
    } else if s :| Holds(w, s) {
      assert Holds(r, s);
    } else {
      var k: nat :| Kept(w, k);
      assert Kept(r, k);
    }
  }

  lemma {:induction false} EmitHolds(w: World, s: Thread, e: Step)
    requires e.Emit? && Holds(w, s) && Enabled(w, e)
    ensures Holds(Apply(w, e), s) || Kept(Apply(w, e), |w.saved|)
  {
    hide StreamBytes;
    var r := Apply(w, e);
    OthersUntouched(w, e);
    if e.t == s && Full(w.size, w.At(s).buffer) {
      assert Kept(r, |w.saved|);
    } else if e.t == s {
      assert Leading(r.At(s).buffer.packets);
      assert Holds(r, s);
    } else {
      assert Holds(r, s);
    }
  }

  lemma {:induction false} EmitKept(w: World, k: nat, e: Step)
    requires e.Emit? && Kept(w, k) && Enabled(w, e)
    ensures Kept(Apply(w, e), k)
  {
    hide StreamBytes;
    OthersUntouched(w, e);
    assert Ordinary(w.At(e.t)) && Ordinary(Apply(w, e).At(e.t));
  }

  lemma {:induction false} HandOverHolds(w: World, s: Thread, t: Thread)
    requires Holds(w, s) && Enabled(w, HandOver(t))
    ensures Holds(Apply(w, HandOver(t)), s) || Kept(Apply(w, HandOver(t)), |w.saved|)
  {
    var r := Apply(w, HandOver(t));
    OthersUntouched(w, HandOver(t));
    if s == t {
      assert Kept(r, |w.saved|);
    }
  }

  lemma {:induction false} HandOverKept(w: World, k: nat, t: Thread)
    requires Kept(w, k) && Enabled(w, HandOver(t))
    ensures Kept(Apply(w, HandOver(t)), k)
  {
    OthersUntouched(w, HandOver(t));
    assert Ordinary(w.At(t)) && Ordinary(Apply(w, HandOver(t)).At(t));
  }

  lemma {:induction false} StepStarts(w: World, e: Step)
    requires Started(w) && Enabled(w, e) && NoWrap(w, e)
    ensures Started(Apply(w, e))
  {
    hide Holds, Kept, Apply;
    var r := Apply(w, e);
    assert !e.Count? ==> r.packetsWritten == w.packetsWritten by { CountUnchanged(w, e); }
    match e
    case Count(t) => CountStarts(w, t);
    case Emit(t, _) =>
      if s :| Holds(w, s) {
        EmitHolds(w, s, e);
      } else {
        var k: nat :| Kept(w, k);
        EmitKept(w, k, e);
      }
    case HandOver(t) =>
      if w.packetsWritten == 0 {
        NothingToHandOver(w, t);
      } else if s :| Holds(w, s) {
        HandOverHolds(w, s, t);
      } else {
        var k: nat :| Kept(w, k);
        HandOverKept(w, k, t);
      }
  }

  lemma {:induction false} CountUnchanged(w: World, e: Step)
    ensures !e.Count? ==> Apply(w, e).packetsWritten == w.packetsWritten
  {
  }

  lemma {:induction false} NothingToHandOver(w: World, t: Thread)
    requires Untouched(w)
    ensures Untouched(Apply(w, HandOver(t)))
  {
    OthersUntouched(w, HandOver(t));
  }

  lemma {:induction false} RunKeeps(size: nat, steps: seq<Step>)
    requires Runs(size, steps)
    ensures Conserved(Exec(size, steps)) && Started(Exec(size, steps)) && Exec(size, steps).size == size
  {
    hide Conserved, Started, Apply, Enabled, NoWrap;
    if steps == [] {
      EmptyWorld(size);
    } else {
      var n := |steps| - 1;
      RunKeeps(size, steps[..n]);
      StepConserves(Exec(size, steps[..n]), steps[n]);
      StepStarts(Exec(size, steps[..n]), steps[n]);
      OthersUntouched(Exec(size, steps[..n]), steps[n]);
    }
  }

  lemma {:induction false} EmptyWorld(size: nat)
    ensures Conserved(World(size, 0, map[], [])) && Started(World(size, 0, map[], []))
  {
  }

  // ---------- Saving ----------

  /** Every context hands its buffer over, in whatever order the storage visits them. */
  function HandOverAll(order: seq<Thread>): seq<Step> {
    seq(|order|, k requires 0 <= k < |order| => HandOver(order[k]))
  }

  /** No call is under way, and every thread that holds a buffer is visited. */
  ghost predicate Quiet(w: World, order: seq<Thread>) {
    forall t :: !w.At(t).mustStart && (w.At(t).buffer.Buffer? ==> t in order)
  }

  ghost predicate Handed(l: Local) {
    !l.mustStart && l.buffer.NoBuffer?
  }

  lemma {:induction false} SaveRuns(size: nat, steps: seq<Step>, order: seq<Thread>)
    requires Runs(size, steps) && Quiet(Exec(size, steps), order)
    ensures var all := steps + HandOverAll(order);
            && Runs(size, all)
            && (forall t :: Handed(Exec(size, all).At(t)))
            && (forall t :: Exec(size, all).At(t).recorded == Exec(size, steps).At(t).recorded)
    decreases order
  {
    hide Runs, Exec;
    if order == [] {
      assert steps + HandOverAll(order) == steps;
    } else {
      var more := steps + [HandOver(order[0])];
      assert Runs(size, more) && Exec(size, more) == Apply(Exec(size, steps), HandOver(order[0]))
        by { SnocRuns(size, steps, HandOver(order[0])); }
      OthersUntouched(Exec(size, steps), HandOver(order[0]));
      assert Quiet(Exec(size, more), order[1..]);
      SaveRuns(size, more, order[1..]);
      assert steps + HandOverAll(order) == more + HandOverAll(order[1..]);
    }
  }

  lemma {:induction false} SnocRuns(size: nat, steps: seq<Step>, e: Step)
    requires Runs(size, steps) && Enabled(Exec(size, steps), e) && NoWrap(Exec(size, steps), e)
    ensures Runs(size, steps + [e]) && Exec(size, steps + [e]) == Apply(Exec(size, steps), e)
  {
    hide Apply, Enabled, NoWrap;
    assert (steps + [e])[..|steps|] == steps;
  }

  /** In file order every thread's packets are exactly those it recorded, in the order it recorded them. */
  lemma {:induction false} FileOrderKeepsThreads(w: World, t: Thread)
    requires Conserved(w) && Started(w) && forall u :: Handed(w.At(u))
    ensures Of(FileOrder(w.saved), t) == w.At(t).recorded
  {
    hide Of, Pick;
    assert Of(w.saved, t) == w.At(t).recorded;
    if w.saved == [] {
      PickNone(w.saved);
      assert FileOrder(w.saved) == w.saved;
    } else {
      assert w.packetsWritten != 0;
      var k: nat :| Kept(w, k);
      var c := w.saved;
      PickOne(c, k);
      assert c == c[..k] + [c[k]] + c[k + 1..];
      OfConcat([c[k]], c[..k] + c[k + 1..], t);
      OfConcat(c[..k], c[k + 1..], t);
      OfConcat(c[..k] + [c[k]], c[k + 1..], t);
      OfConcat(c[..k], [c[k]], t);
      if t == c[k].owner {
        OfNobody(c[..k], t);
      } else {
        OfNobody([c[k]], t);
      }
    }
  }

  lemma {:induction false} CleanPackets(chunks: seq<Chunk>)
    requires forall k :: 0 <= k < |chunks| ==> Clean(chunks[k].packets)
    ensures Clean(Packets(chunks))
  {
    if chunks != [] {
      CleanPackets(chunks[..|chunks| - 1]);
    }
  }

  lemma {:induction false} LeadingThenClean(a: seq<Packet>, b: seq<Packet>)
    requires Leading(a) && Clean(b)
    ensures Leading(a + b)
  {
    assert (a + b)[1..] == a[1..] + b;
  }

  lemma {:induction false} PacketsOfOne(c: Chunk)
    ensures Packets([c]) == c.packets
  {
    assert [c][..0] == [];
    assert Packets([c][..0]) == [];
  }

  lemma {:induction false} LeadingFile(c: seq<Chunk>, k: nat)
    requires k < |c| && Leading(c[k].packets)
    requires forall j :: 0 <= j < |c| ==> (c[j].first <==> j == k)
    requires forall j :: 0 <= j < |c| && j != k ==> Clean(c[j].packets)
    ensures Leading(Packets(FileOrder(c)))
  {
    hide Pick, Packets, Leading, Clean;
    PickOne(c, k);
    var rest := c[..k] + c[k + 1..];
    CleanPackets(rest);
    PacketsOfOne(c[k]);
    PacketsConcat([c[k]], rest);
    LeadingThenClean(c[k].packets, Packets(rest));
  }

  /** The file starts with the one sequence start. */
  lemma {:induction false} FileLeads(w: World)
    requires Started(w) && w.saved != [] && forall u :: Handed(w.At(u))
    ensures Leading(Packets(FileOrder(w.saved)))
  {
    hide Pick, Packets, Leading, Clean, FileOrder;
    var k: nat :| Kept(w, k);
    LeadingFile(w.saved, k);
  }

  /**
    * Saving after any run, in any order of the contexts: the file is empty only if nothing was
    * recorded, otherwise it starts with the single sequence start; every thread's packets are all
    * there in the order recorded; every buffer handed over is written once.
    */
  lemma {:induction false} SavedFile(size: nat, steps: seq<Step>, order: seq<Thread>)
    requires Runs(size, steps) && Quiet(Exec(size, steps), order)
    ensures var saved := Exec(size, steps + HandOverAll(order)).saved;
            && multiset(FileOrder(saved)) == multiset(saved)
            && (saved != [] ==> Leading(Packets(FileOrder(saved))))
            && (saved == [] ==> Packets(FileOrder(saved)) == [])
            && forall t :: Of(FileOrder(saved), t) == Exec(size, steps).At(t).recorded
  {
    hide Runs, Exec, Conserved, Started, FileOrder, Quiet, Leading, Of;
    var all := steps + HandOverAll(order);
    SaveRuns(size, steps, order);
    RunKeeps(size, all);
    var w := Exec(size, all);
    FileOrderPermutes(w.saved);
    if w.saved != [] {
      FileLeads(w);
    } else {
      NothingSaved();
    }
    forall t ensures Of(FileOrder(w.saved), t) == Exec(size, steps).At(t).recorded {
      FileOrderKeepsThreads(w, t);
    }
  }

  lemma {:induction false} NothingSaved()
    ensures Packets(FileOrder([])) == []
  {
  }
}
