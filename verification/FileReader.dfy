/**
  * A saved file holds the packets of many threads under one packet sequence, so its reader keeps one
  * table for all of them. When does it see each thread as if it were alone? Exactly when no
  * definition of another thread gets between a thread's definition and its use with another text.
  */
module FileReader {
  import opened WireFormat
  import opened RecorderPackets
  import opened Recorder
  import opened RecorderFile

  datatype Tagged = Tagged(owner: Thread, packet: Packet)

  function Plain(ts: seq<Tagged>): seq<Packet> {
    if ts == [] then [] else Plain(ts[..|ts| - 1]) + [ts[|ts| - 1].packet]
  }

  /** The packets of one thread, in file order. */
  function Own(ts: seq<Tagged>, t: Thread): seq<Packet> {
    if ts == [] then []
    else Own(ts[..|ts| - 1], t) + if ts[|ts| - 1].owner == t then [ts[|ts| - 1].packet] else []
  }

  /** What a packet adds to the events, read with the given tables. */
  function Says(r: Reader, p: Packet): seq<Event> {
    match p
    case SliceBegin(ts, t, c, n) => [Opened(ts, LookUp(r.tracks, t), LookUp(r.categories, c), LookUp(r.names, n))]
    case SliceEnd(ts, t, c, n) => [Closed(ts, LookUp(r.tracks, t), LookUp(r.categories, c), LookUp(r.names, n))]
    case CounterValue(ts, u, v) => [Counted(ts, LookUp(r.tracks, u), v)]
    case _ => []
  }

  /** The events of one thread as the reader of the whole file sees them. */
  function EventsOf(ts: seq<Tagged>, t: Thread): seq<Event> {
    if ts == [] then []
    else
      var before := ts[..|ts| - 1];
      EventsOf(before, t) + if ts[|ts| - 1].owner == t then Says(ReadAll(Plain(before)), ts[|ts| - 1].packet) else []
  }

  // ---------- Definitions and uses ----------

  datatype Table = CategoryTable | NameTable | TrackTable

  datatype Definition = NoDefinition | Definition(table: Table, id: nat, text: seq<byte>)

  function DefinitionIn(p: Packet): Definition {
    match p
    case DefineCategory(iid, text) => Definition(CategoryTable, iid, text)
    case DefineEventName(iid, text) => Definition(NameTable, iid, text)
    case DefineThreadTrack(t) => Definition(TrackTable, t, ThreadTrackName(t))
    case DefineCounterTrack(u, t, text) => Definition(TrackTable, u, CounterTrackName(t, text))
    case _ => NoDefinition
  }

  predicate Defines(p: Packet, table: Table, id: nat) {
    DefinitionIn(p).Definition? && DefinitionIn(p).table == table && DefinitionIn(p).id == id
  }

  predicate Uses(p: Packet, table: Table, id: nat) {
    match p
    case SliceBegin(_, t, c, n) => id == (match table case TrackTable => t case CategoryTable => c case NameTable => n)
    case SliceEnd(_, t, c, n) => id == (match table case TrackTable => t case CategoryTable => c case NameTable => n)
    case CounterValue(_, u, _) => table == TrackTable && id == u
    case _ => false
  }

  function TextIn(r: Reader, table: Table, id: nat): Name {
    match table
    case CategoryTable => LookUp(r.categories, id)
    case NameTable => LookUp(r.names, id)
    case TrackTable => LookUp(r.tracks, id)
  }

  /** The last definition of an id. */
  predicate LastAt(ps: seq<Packet>, k: nat, table: Table, id: nat) {
    k < |ps| && Defines(ps[k], table, id) && forall j :: k < j < |ps| ==> !Defines(ps[j], table, id)
  }

  lemma {:induction false} ReadOne(r: Reader, p: Packet, table: Table, id: nat)
    ensures TextIn(Read(r, p), table, id) ==
            if Defines(p, table, id) then Known(DefinitionIn(p).text) else TextIn(r, table, id)
  {
  }

  /** An id means what its last definition says, and nothing without one. */
  lemma {:induction false} LastDefinitionCounts(ps: seq<Packet>, table: Table, id: nat)
    ensures TextIn(ReadAll(ps), table, id) == Unknown <==> forall k :: 0 <= k < |ps| ==> !Defines(ps[k], table, id)
    ensures forall k: nat :: LastAt(ps, k, table, id) ==>
        TextIn(ReadAll(ps), table, id) == Known(DefinitionIn(ps[k]).text)
  {
    hide Read, TextIn, DefinitionIn;
    if ps == [] {
      NothingRead(table, id);
    } else {
      var n := |ps| - 1;
      LastDefinitionCounts(ps[..n], table, id);
      ReadOne(ReadAll(ps[..n]), ps[n], table, id);
      forall k: nat | LastAt(ps, k, table, id)
        ensures TextIn(ReadAll(ps), table, id) == Known(DefinitionIn(ps[k]).text)
      {
        if k < n {
          assert LastAt(ps[..n], k, table, id);
        }
      }
    }
  }

  lemma {:induction false} NothingRead(table: Table, id: nat)
    ensures TextIn(ReadAll([]), table, id) == Unknown
  {
  }

  lemma {:induction false} LastExists(ps: seq<Packet>, a: nat, table: Table, id: nat) returns (k: nat)
    requires a < |ps| && Defines(ps[a], table, id)
    ensures LastAt(ps, k, table, id)
    decreases |ps| - a
  {
    hide Defines;
    if b :| a < b < |ps| && Defines(ps[b], table, id) {
      k := LastExists(ps, b, table, id);
    } else {
      k := a;
    }
  }

  /** Two readers understand a packet alike exactly when the ids it uses mean the same to both. */
  lemma {:induction false} SaysAgree(r: Reader, q: Reader, p: Packet)
    ensures |Says(r, p)| == |Says(q, p)|
    ensures Says(r, p) == Says(q, p) <==> forall table, id: nat :: Uses(p, table, id) ==>
        TextIn(r, table, id) == TextIn(q, table, id)
    ensures Read(r, p).events == r.events + Says(r, p)
  {
    match p
    case SliceBegin(_, t, c, n) =>
      assert Uses(p, TrackTable, t) && Uses(p, CategoryTable, c) && Uses(p, NameTable, n);
    case SliceEnd(_, t, c, n) =>
      assert Uses(p, TrackTable, t) && Uses(p, CategoryTable, c) && Uses(p, NameTable, n);
    case CounterValue(_, u, _) =>
      assert Uses(p, TrackTable, u);
    case _ =>
  }

  /** A packet is admitted only if it defines nothing anew and uses only what is known. */
  lemma {:induction false} AdmitsMeans(r: Reader, p: Packet, table: Table, id: nat)
    requires Admits(r, p)
    ensures Defines(p, table, id) ==> TextIn(r, table, id) == Unknown
    ensures Uses(p, table, id) ==> TextIn(r, table, id) != Unknown
  {
  }

  lemma {:induction false} NotAgain(ps: seq<Packet>, table: Table, id: nat, a: nat, b: nat)
    requires Orderly(ps) && a < b < |ps| && Defines(ps[a], table, id)
    ensures !Defines(ps[b], table, id)
  {
    hide ReadAll, Defines, Admits, TextIn;
    LastDefinitionCounts(ps[..b], table, id);
    assert ps[..b][a] == ps[a];
    AdmitsMeans(ReadAll(ps[..b]), ps[b], table, id);
  }

  /** A thread defines an id once. */
  lemma {:induction false} OnlyOne(ps: seq<Packet>, table: Table, id: nat, a: nat, b: nat)
    requires Orderly(ps) && a < |ps| && b < |ps| && Defines(ps[a], table, id) && Defines(ps[b], table, id)
    ensures a == b
  {
    hide Defines, Orderly;
    if a < b {
      NotAgain(ps, table, id, a, b);
    } else if b < a {
      NotAgain(ps, table, id, b, a);
    }
  }

  // ---------- Positions in the file ----------

  lemma {:induction false} OwnIsSomewhere(ts: seq<Tagged>, t: Thread, k: nat)
    requires k < |Own(ts, t)|
    ensures exists i :: 0 <= i < |ts| && ts[i] == Tagged(t, Own(ts, t)[k])
  {
    var n := |ts| - 1;
    var before := ts[..n];
    if k < |Own(before, t)| {
      OwnIsSomewhere(before, t, k);
      var i :| 0 <= i < |before| && before[i] == Tagged(t, Own(before, t)[k]);
      assert ts[i] == Tagged(t, Own(ts, t)[k]);
    } else {
      assert ts[n] == Tagged(t, Own(ts, t)[k]);
    }
  }

  lemma {:induction false} SomewhereIsOwn(ts: seq<Tagged>, i: nat)
    requires i < |ts|
    ensures exists k :: 0 <= k < |Own(ts, ts[i].owner)| && Own(ts, ts[i].owner)[k] == ts[i].packet
  {
    var n := |ts| - 1;
    var t, before := ts[i].owner, ts[..n];
    if i < n {
      SomewhereIsOwn(before, i);
      assert before[i] == ts[i];
      var k :| 0 <= k < |Own(before, t)| && Own(before, t)[k] == ts[i].packet;
      assert Own(ts, t)[k] == ts[i].packet;
    } else {
      assert Own(ts, t)[|Own(before, t)|] == ts[i].packet;
    }
  }

  lemma {:induction false} PlainAt(ts: seq<Tagged>)
    ensures |Plain(ts)| == |ts| && forall k :: 0 <= k < |ts| ==> Plain(ts)[k] == ts[k].packet
  {
    if ts != [] {
      PlainAt(ts[..|ts| - 1]);
    }
  }

  /** The last definition of an id so far, by whichever thread. */
  predicate LastIn(ts: seq<Tagged>, j: nat, table: Table, id: nat) {
    j < |ts| && Defines(ts[j].packet, table, id) && forall m :: j < m < |ts| ==> !Defines(ts[m].packet, table, id)
  }

  /** The last definition of the id so far has the text thread t gave it. */
  ghost predicate SameText(ts: seq<Tagged>, t: Thread, table: Table, id: nat) {
    forall i: nat, j: nat ::
      i < |ts| && ts[i].owner == t && Defines(ts[i].packet, table, id) && LastIn(ts, j, table, id) ==>
      DefinitionIn(ts[j].packet).text == DefinitionIn(ts[i].packet).text
  }

  /** Whenever thread t uses an id of the table, the last definition before the use has t's own text. */
  ghost predicate Undisturbed(ts: seq<Tagged>, t: Thread, table: Table) {
    forall k: nat, id: nat :: k < |ts| && ts[k].owner == t && Uses(ts[k].packet, table, id) ==>
        SameText(ts[..k], t, table, id)
  }

  /**
    * For an id the thread has defined, the reader of the whole file agrees with the thread's own exactly
    * on the same text.
    */
  lemma {:induction false} UseAgrees(ts: seq<Tagged>, t: Thread, table: Table, id: nat)
    requires Orderly(Own(ts, t)) && TextIn(ReadAll(Own(ts, t)), table, id) != Unknown
    ensures TextIn(ReadAll(Plain(ts)), table, id) == TextIn(ReadAll(Own(ts, t)), table, id) <==>
        SameText(ts, t, table, id)
  {
    hide ReadAll, Defines, TextIn, Orderly, Own, Plain;
    var own, all := Own(ts, t), Plain(ts);
    LastDefinitionCounts(own, table, id);
    LastDefinitionCounts(all, table, id);
    var a: nat :| a < |own| && Defines(own[a], table, id);
    var last := LastExists(own, a, table, id);
    OnlyOne(own, table, id, a, last);
    OwnIsSomewhere(ts, t, a);
    var i :| 0 <= i < |ts| && ts[i] == Tagged(t, own[a]);
    PlainAt(ts);
    var j := LastExists(all, i, table, id);
    assert LastIn(ts, j, table, id);
    forall i': nat, j': nat | i' < |ts| && ts[i'].owner == t && Defines(ts[i'].packet, table, id) &&
        LastIn(ts, j', table, id)
      ensures j' == j && ts[i'].packet == own[a]
    {
      SomewhereIsOwn(ts, i');
      var b :| 0 <= b < |own| && own[b] == ts[i'].packet;
      OnlyOne(own, table, id, a, b);
    }
  }

  // ---------- Events ----------

  lemma {:induction false} OrderlyPrefix(ps: seq<Packet>, p: Packet)
    requires Orderly(ps + [p])
    ensures Orderly(ps) && Admits(ReadAll(ps), p)
  {
    hide ReadAll, Admits;
    var all := ps + [p];
    assert all[..|ps|] == ps && all[|ps|] == p;
    forall k | 0 <= k < |ps| ensures Admits(ReadAll(ps[..k]), ps[k]) {
      assert all[..k] == ps[..k] && all[k] == ps[k];
    }
  }

  /** The packet at a position says the same to the reader of the file as to the thread's own. */
  ghost predicate ReadsAlike(ts: seq<Tagged>, t: Thread, k: nat)
    requires k < |ts|
  {
    Says(ReadAll(Plain(ts[..k])), ts[k].packet) == Says(ReadAll(Own(ts[..k], t)), ts[k].packet)
  }

  lemma {:induction false} EventsAlike(ts: seq<Tagged>, t: Thread)
    ensures |EventsOf(ts, t)| == |ReadAll(Own(ts, t)).events|
    ensures EventsOf(ts, t) == ReadAll(Own(ts, t)).events <==>
            forall k: nat :: k < |ts| && ts[k].owner == t ==> ReadsAlike(ts, t, k)
  {
    hide Read, Says, ReadAll;
    if ts == [] {
      assert ReadAll([]).events == [] by { NoEvents(); }
    } else {
      var n := |ts| - 1;
      var before, x := ts[..n], ts[n];
      EventsAlike(before, t);
      forall k: nat | k < n ensures ReadsAlike(before, t, k) <==> ReadsAlike(ts, t, k) {
        assert before[..k] == ts[..k];
      }
      var own, all := ReadAll(Own(before, t)), ReadAll(Plain(before));
      SaysAgree(own, all, x.packet);
      if x.owner == t {
        ReadSnoc(Own(before, t), x.packet);
        assert ReadAll(Own(ts, t)).events == own.events + Says(own, x.packet);
        assert EventsOf(ts, t) == EventsOf(before, t) + Says(all, x.packet);
        SameParts(EventsOf(before, t), Says(all, x.packet), own.events, Says(own, x.packet));
        assert ReadsAlike(ts, t, n) <==> Says(all, x.packet) == Says(own, x.packet);
      } else {
        assert Own(ts, t) == Own(before, t);
        assert EventsOf(ts, t) == EventsOf(before, t);
      }
    }
  }

  lemma {:induction false} NoEvents()
    ensures ReadAll([]).events == []
  {
  }

  lemma {:induction false} SameParts(a: seq<Event>, b: seq<Event>, c: seq<Event>, d: seq<Event>)
    requires |a| == |c| && |b| == |d|
    ensures a + b == c + d <==> a == c && b == d
  {
    if a + b == c + d {
      assert a == (a + b)[..|a|] == (c + d)[..|c|] == c;
      assert b == (a + b)[|a|..] == (c + d)[|c|..] == d;
    }
  }

  lemma {:induction false} OrderlyAt(ts: seq<Tagged>, t: Thread, k: nat)
    requires Orderly(Own(ts, t)) && k < |ts| && ts[k].owner == t
    ensures Orderly(Own(ts[..k], t)) && Admits(ReadAll(Own(ts[..k], t)), ts[k].packet)
  {
    hide Orderly, ReadAll, Admits;
    var n := |ts| - 1;
    if k == n {
      OrderlyPrefix(Own(ts[..n], t), ts[n].packet);
    } else {
      if ts[n].owner == t {
        OrderlyPrefix(Own(ts[..n], t), ts[n].packet);
      } else {
        assert Own(ts, t) == Own(ts[..n], t);
      }
      assert ts[..n][..k] == ts[..k];
      OrderlyAt(ts[..n], t, k);
    }
  }

  lemma {:induction false} ReadsAlikeExactly(ts: seq<Tagged>, t: Thread, k: nat)
    requires Orderly(Own(ts, t)) && k < |ts| && ts[k].owner == t
    ensures ReadsAlike(ts, t, k) <==> forall table, id: nat :: Uses(ts[k].packet, table, id) ==>
        SameText(ts[..k], t, table, id)
  {
    hide ReadAll, Own, Plain, Orderly, Says, Uses, TextIn, Admits, SameText;
    OrderlyAt(ts, t, k);
    var before, p := ts[..k], ts[k].packet;
    var own, all := ReadAll(Own(before, t)), ReadAll(Plain(before));
    SaysAgree(all, own, p);
    forall table, id: nat | Uses(p, table, id)
      ensures TextIn(all, table, id) == TextIn(own, table, id) <==> SameText(before, t, table, id)
    {
      AdmitsMeans(own, p, table, id);
      UseAgrees(before, t, table, id);
    }
  }

  /**
    * The reader of the whole file sees a thread as the reader of its packets alone would, if and only
    * if every id it uses was last defined, by whichever thread, with its own text.
    */
  lemma {:induction false} ThreadsReadAlone(ts: seq<Tagged>, t: Thread)
    requires Orderly(Own(ts, t))
    ensures EventsOf(ts, t) == ReadAll(Own(ts, t)).events <==>
            forall table :: Undisturbed(ts, t, table)
  {
    hide ReadAll, Own, Orderly, Uses, SameText, EventsOf, ReadsAlike;
    EventsAlike(ts, t);
    forall k: nat | k < |ts| && ts[k].owner == t
      ensures ReadsAlike(ts, t, k) <==> forall table, id: nat :: Uses(ts[k].packet, table, id) ==>
          SameText(ts[..k], t, table, id)
    {
      ReadsAlikeExactly(ts, t, k);
    }
    if EventsOf(ts, t) == ReadAll(Own(ts, t)).events {
      forall table ensures Undisturbed(ts, t, table) {
        forall k: nat, id: nat | k < |ts| && ts[k].owner == t && Uses(ts[k].packet, table, id)
          ensures SameText(ts[..k], t, table, id) {
          assert ReadsAlike(ts, t, k);
        }
      }
    }
    if forall table :: Undisturbed(ts, t, table) {
      forall k: nat | k < |ts| && ts[k].owner == t ensures ReadsAlike(ts, t, k) {
        forall table, id: nat | Uses(ts[k].packet, table, id) ensures SameText(ts[..k], t, table, id) {
          assert Undisturbed(ts, t, table);
        }
      }
    }
  }

  // ---------- The file ----------

  function TagAll(t: Thread, ps: seq<Packet>): seq<Tagged> {
    seq(|ps|, k requires 0 <= k < |ps| => Tagged(t, ps[k]))
  }

  function TagChunks(chunks: seq<Chunk>): seq<Tagged> {
    if chunks == [] then []
    else TagChunks(chunks[..|chunks| - 1]) + TagAll(chunks[|chunks| - 1].owner, chunks[|chunks| - 1].packets)
  }

  lemma {:induction false} TaggedPackets(ts: seq<Tagged>, u: Thread, ps: seq<Packet>, t: Thread)
    ensures Plain(ts + TagAll(u, ps)) == Plain(ts) + ps
    ensures Own(ts + TagAll(u, ps), t) == Own(ts, t) + if u == t then ps else []
  {
    if ps == [] {
      assert ts + TagAll(u, ps) == ts;
    } else {
      var n := |ps| - 1;
      var all := ts + TagAll(u, ps);
      TaggedPackets(ts, u, ps[..n], t);
      assert all[..|all| - 1] == ts + TagAll(u, ps[..n]);
      assert ps == ps[..n] + [ps[n]];
    }
  }

  /** The tagged file is the file, and a thread's part of it is that thread's packets. */
  lemma {:induction false} TaggedFile(chunks: seq<Chunk>, t: Thread)
    ensures Plain(TagChunks(chunks)) == Packets(chunks) && Own(TagChunks(chunks), t) == Of(chunks, t)
  {
    if chunks != [] {
      var n := |chunks| - 1;
      TaggedFile(chunks[..n], t);
      TaggedPackets(TagChunks(chunks[..n]), chunks[n].owner, chunks[n].packets, t);
    }
  }
}
