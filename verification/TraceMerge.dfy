/**
  * Merging a guest and a host trace: the addon trace is shifted in time, its ids are moved past the
  * main trace's maxima, its track uuids are renamed, and its bytes are appended to the main trace's.
  */
module TraceMerge {
  import opened WireFormat
  import opened TraceModel
  import ProtoFields

  // ---------- The maxima of the main trace ----------

  function Max(a: u32, b: u32): u32 {
    if b > a then b else a
  }

  function MaxOf(s: seq<u32>): (m: u32)
    ensures forall i :: 0 <= i < |s| ==> s[i] <= m
    ensures m == 0 || m in s
  {
    if s == [] then 0 else Max(s[0], MaxOf(s[1..]))
  }

  lemma {:induction false} MaxConcat(a: seq<u32>, b: seq<u32>)
    ensures MaxOf(a + b) == Max(MaxOf(a), MaxOf(b))
  {
    if a == [] {
      assert a + b == b;
    } else {
      assert (a + b)[1..] == a[1..] + b;
      MaxConcat(a[1..], b);
    }
  }

  lemma {:induction false} FlatMapSnoc<S, T>(s: seq<S>, x: S, f: S -> seq<T>)
    ensures FlatMap(s + [x], f) == FlatMap(s, f) + f(x)
  {
    if s == [] {
      assert ([] + [x])[1..] == [];
    } else {
      assert (s + [x])[1..] == s[1..] + [x];
      FlatMapSnoc(s[1..], x, f);
    }
  }

  datatype Maxima = Maxima(uid: u32, sequence: u32, pid: u32, tid: u32, cpu: u32) {
    function In(space: IdSpace): u32 {
      match space
      case UidSpace => uid
      case SequenceSpace => sequence
      case PidSpace => pid
      case TidSpace => tid
      case CpuSpace => cpu
    }
  }

  /** A trace that does not parse has all maxima 0. */
  function MaximaOf(main: Opt<Trace>): Maxima {
    if main.Absent? then Maxima(0, 0, 0, 0, 0)
    else
      var ps := main.value;
      Maxima(MaxOf(AllIds(UidSpace, ps)), MaxOf(AllIds(SequenceSpace, ps)), MaxOf(AllIds(PidSpace, ps)),
             MaxOf(AllIds(TidSpace, ps)), MaxOf(AllIds(CpuSpace, ps)))
  }

  method Raise(start: u32, ids: seq<u32>) returns (m: u32)
    ensures m == Max(start, MaxOf(ids))
  {
    m := start;
    for i := 0 to |ids|
      invariant m == Max(start, MaxOf(ids[..i]))
    {
      assert ids[..i + 1] == ids[..i] + [ids[i]];
      MaxConcat(ids[..i], [ids[i]]);
      if ids[i] > m {
        m := ids[i];
      }
    }
    assert ids[..|ids|] == ids;
  }

  lemma {:induction false} MaxStep(space: IdSpace, packets: Trace, i: nat)
    requires i < |packets|
    ensures MaxOf(AllIds(space, packets[..i + 1])) ==
        Max(MaxOf(AllIds(space, packets[..i])), MaxOf(IdsOf(space, packets[i])))
  {
    hide IdsOf, MaxOf;
    assert packets[..i + 1] == packets[..i] + [packets[i]];
    FlatMapSnoc(packets[..i], packets[i], (p: TracePacket) => IdsOf(space, p));
    MaxConcat(AllIds(space, packets[..i]), IdsOf(space, packets[i]));
  }

  /** No field of the space holds more, and some field holds it unless it is 0. */
  ghost predicate IsMaximum(m: u32, space: IdSpace, ps: Trace) {
    && (forall p, x: u32 :: p in ps && IdIn(space, p, x) ==> x <= m)
    && (m == 0 || exists p <- ps :: IdIn(space, p, m))
  }

  lemma {:induction false} MaximaAreMaxima(space: IdSpace, ps: Trace)
    ensures IsMaximum(MaximaOf(Present(ps)).In(space), space, ps)
  {
    hide AllIds, IdIn, MaxOf;
    var m := MaximaOf(Present(ps)).In(space);
    assert m == MaxOf(AllIds(space, ps));
    AllVisited(space, ps, m);
    forall p, x: u32 | p in ps && IdIn(space, p, x) ensures x <= m {
      AllVisited(space, ps, x);
    }
  }

  /** One pass over the packets with five running maxima. */
  method CalcMaxIds(trace: Opt<Trace>) returns (m: Maxima)
    ensures m == MaximaOf(trace)
    ensures trace.Present? ==> forall space :: IsMaximum(m.In(space), space, trace.value)
    ensures trace.Absent? ==> forall space: IdSpace :: m.In(space) == 0
  {
    hide IdsOf, MaxOf, AllIds, Max, IsMaximum;
    if trace.Present? {
      forall space ensures IsMaximum(MaximaOf(trace).In(space), space, trace.value) {
        MaximaAreMaxima(space, trace.value);
      }
    }
    m := Maxima(0, 0, 0, 0, 0);
    if trace.Absent? {
      return;
    }
    var packets := trace.value;
    NothingVisited(packets[..0]);
    for i := 0 to |packets|
      invariant m == MaximaOf(Present(packets[..i]))
    {
      forall space ensures MaxOf(AllIds(space, packets[..i + 1]))
                        == Max(MaxOf(AllIds(space, packets[..i])), MaxOf(IdsOf(space, packets[i]))) {
        MaxStep(space, packets, i);
      }
      var uid := Raise(m.uid, IdsOf(UidSpace, packets[i]));
      var sequence := Raise(m.sequence, IdsOf(SequenceSpace, packets[i]));
      var pid := Raise(m.pid, IdsOf(PidSpace, packets[i]));
      var tid := Raise(m.tid, IdsOf(TidSpace, packets[i]));
      var cpu := Raise(m.cpu, IdsOf(CpuSpace, packets[i]));
      m := Maxima(uid, sequence, pid, tid, cpu);
    }
    assert packets[..|packets|] == packets;
  }

  lemma {:induction false} NothingVisited(ps: Trace)
    requires ps == []
    ensures MaximaOf(Present(ps)) == Maxima(0, 0, 0, 0, 0)
  {
  }

  // ---------- Offsets past the maxima ----------

  /** 32-bit addition. */
  function Offset(x: u32, max: u32): u32 {
    (x + max) % U32
  }

  /** Pids and tids: 0 stays 0. */
  function OffsetNonZero(x: u32, max: u32): u32 {
    if x == 0 then 0 else Offset(x, max)
  }

  function OffsetCpu(x: u32, max: u32): u32 {
    (x + max + 1) % U32
  }

  function OffsetBy(m: Maxima): IdFunctions {
    IdFunctions((x: u32) => Offset(x, m.uid), (x: u32) => Offset(x, m.sequence), (x: u32) => OffsetNonZero(x, m.pid),
                (x: u32) => OffsetNonZero(x, m.tid), (x: u32) => OffsetCpu(x, m.cpu))
  }

  /** The addition does not wrap for this id. */
  predicate Fits(space: IdSpace, x: u32, max: u32) {
    x + max + (if space.CpuSpace? then 1 else 0) < U32
  }

  /** An offset id lies above everything in the main trace exactly when the addition does not wrap. */
  lemma {:induction false} AboveExactlyWhenFits(space: IdSpace, x: u32, m: Maxima)
    requires x != 0 || space.CpuSpace?
    ensures FunctionOf(space, OffsetBy(m))(x) > m.In(space) <==> Fits(space, x, m.In(space))
  {
    match space
    case _ =>
  }

  /** An id that fits is moved by the maximum, and cpus by one more; only pid and tid 0 stay. */
  lemma {:induction false} OffsetWhenFits(space: IdSpace, x: u32, m: Maxima)
    requires Fits(space, x, m.In(space))
    ensures FunctionOf(space, OffsetBy(m))(x) ==
            if x == 0 && (space.PidSpace? || space.TidSpace?) then 0
            else x + m.In(space) + (if space.CpuSpace? then 1 else 0)
  {
  }

  lemma {:induction false} OffsetInjective(space: IdSpace, x: u32, y: u32, m: Maxima)
    requires Fits(space, x, m.In(space)) && Fits(space, y, m.In(space))
    ensures FunctionOf(space, OffsetBy(m))(x) == FunctionOf(space, OffsetBy(m))(y) <==> x == y
  {
    OffsetWhenFits(space, x, m);
    OffsetWhenFits(space, y, m);
    hide FunctionOf, OffsetBy, Fits;
  }

  // ---------- Renaming track uuids ----------

  /** Generated uuids by first appearance of a moving descriptor; `gen(k)` is the k-th one drawn. */
  function BuildMap(ps: Trace, f: IdFunctions, gen: nat -> u64): map<u64, u64> {
    if ps == [] then map[]
    else
      var n := |ps| - 1;
      Note(BuildMap(ps[..n], f, gen), ps[n], f, gen)
  }

  function Note(m: map<u64, u64>, p: TracePacket, f: IdFunctions, gen: nat -> u64): map<u64, u64> {
    if DescriptorMoves(p, f) && UuidKey(p.descriptor.value) !in m
    then m[UuidKey(p.descriptor.value) := gen(|m|)] else m
  }

  /** A uuid that was not noted becomes 0. */
  function Rename(m: map<u64, u64>, u: u64): u64 {
    if u in m then m[u] else 0
  }

  function RewriteIds(ps: Trace, f: IdFunctions, gen: nat -> u64): Trace {
    var m := BuildMap(ps, f, gen);
    var q := MapSeq(ps, p => MapIds(p, f));
    if m == map[] then q else MapSeq(q, p => MapUuids(p, u => Rename(m, u)))
  }

  /** Rewriting the ids changes the packet's descriptor, whose uuid this is; a missing uuid reads as 0. */
  ghost predicate MovesUnder(p: TracePacket, f: IdFunctions, u: u64) {
    && MapIds(p, f).descriptor != p.descriptor
    && p.descriptor.Present?
    && (p.descriptor.value.uuid == Present(u) || (p.descriptor.value.uuid.Absent? && u == 0))
  }

  /** Exactly the uuids of descriptors that change are in the map; what is renamed does not depend on packet order. */
  lemma {:induction false} NotedExactly(ps: Trace, f: IdFunctions, gen: nat -> u64, u: u64)
    ensures u in BuildMap(ps, f, gen) <==> exists p <- ps :: MovesUnder(p, f, u)
  {
    hide BuildMap, MapIds, DescriptorMoves;
    KeysNoted(ps, f, gen, u);
    forall p | p in ps ensures MovesUnder(p, f, u) <==> DescriptorMoves(p, f) && UuidKey(p.descriptor.value) == u {
      MovesExactly(p, f);
    }
  }

  lemma {:induction false} KeysNoted(ps: Trace, f: IdFunctions, gen: nat -> u64, u: u64)
    ensures u in BuildMap(ps, f, gen) <==>
            exists i :: 0 <= i < |ps| && DescriptorMoves(ps[i], f) && UuidKey(ps[i].descriptor.value) == u
  {
    if ps != [] {
      var n := |ps| - 1;
      KeysNoted(ps[..n], f, gen, u);
      assert forall i :: 0 <= i < n ==> ps[..n][i] == ps[i];
    }
  }

  /** The first n generated uuids are non-zero and pairwise distinct. */
  ghost predicate FreshUuids(gen: nat -> u64, n: nat) {
    (forall k :: 0 <= k < n ==> gen(k) != 0) && (forall j, k :: 0 <= j < k < n ==> gen(j) != gen(k))
  }

  /** Counting up is such a generator, for any number of packets a trace can hold. */
  lemma {:induction false} FreshUuidsExist(n: nat)
    requires n < U64
    ensures FreshUuids(k => (k + 1) % U64, n)
  {
    var gen: nat -> u64 := k => (k + 1) % U64;
    forall k | 0 <= k < n ensures gen(k) == k + 1 {
    }
  }

  /** At most one uuid is drawn for each packet. */
  lemma {:induction false} DrawsAtMostOneEach(ps: Trace, f: IdFunctions, gen: nat -> u64)
    ensures |BuildMap(ps, f, gen)| <= |ps|
  {
    hide DescriptorMoves, UuidKey;
    if ps != [] {
      var n := |ps| - 1;
      DrawsAtMostOneEach(ps[..n], f, gen);
      var m := BuildMap(ps[..n], f, gen);
      if DescriptorMoves(ps[n], f) && UuidKey(ps[n].descriptor.value) !in m {
        var key := UuidKey(ps[n].descriptor.value);
        assert m[key := gen(|m|)].Keys == m.Keys + {key};
      }
    }
  }

  /** Every value was drawn from the generator for this map, and no two keys share one. */
  ghost predicate OneToOne(m: map<u64, u64>, gen: nat -> u64) {
    && (forall u :: u in m ==> Drawn(m[u], |m|, gen))
    && (forall u, v :: u in m && v in m && u != v ==> m[u] != m[v])
  }

  ghost predicate Drawn(x: u64, n: nat, gen: nat -> u64) {
    exists k: nat :: k < n && x == gen(k)
  }

  lemma {:induction false} MapIsInjective(ps: Trace, f: IdFunctions, gen: nat -> u64)
    requires FreshUuids(gen, |ps|)
    ensures OneToOne(BuildMap(ps, f, gen), gen)
  {
    hide DescriptorMoves, UuidKey;
    if ps != [] {
      var n := |ps| - 1;
      MapIsInjective(ps[..n], f, gen);
      DrawsAtMostOneEach(ps[..n], f, gen);
      var m := BuildMap(ps[..n], f, gen);
      if DescriptorMoves(ps[n], f) && UuidKey(ps[n].descriptor.value) !in m {
        InsertIsInjective(m, UuidKey(ps[n].descriptor.value), gen);
      }
    }
  }

  lemma {:induction false} InsertCounts(m: map<u64, u64>, key: u64, value: u64)
    requires key !in m
    ensures |m[key := value]| == |m| + 1
  {
    assert m[key := value].Keys == m.Keys + {key};
  }

  lemma {:induction false} NewIsNotOld(x: u64, n: nat, gen: nat -> u64)
    requires FreshUuids(gen, n + 1) && Drawn(x, n, gen)
    ensures x != gen(n) && Drawn(x, n + 1, gen)
  {
  }

  lemma {:induction false} InsertIsInjective(m: map<u64, u64>, key: u64, gen: nat -> u64)
    requires FreshUuids(gen, |m| + 1) && key !in m
    requires OneToOne(m, gen)
    ensures OneToOne(m[key := gen(|m|)], gen)
  {
    var n := |m|;
    InsertCounts(m, key, gen(n));
    assert Drawn(gen(n), n + 1, gen);
    hide FreshUuids, Drawn;
    forall u | u in m ensures Drawn(m[u], n + 1, gen) && m[u] != gen(n) {
      NewIsNotOld(m[u], n, gen);
    }
  }

  /** Renaming keeps the uuids of moving descriptors apart from each other and from every other uuid. */
  lemma {:induction false} RenameSeparates(ps: Trace, f: IdFunctions, gen: nat -> u64, u: u64, v: u64)
    requires FreshUuids(gen, |ps|) && u in BuildMap(ps, f, gen)
    ensures var m := BuildMap(ps, f, gen); Rename(m, u) != 0 && (Rename(m, u) == Rename(m, v) <==> u == v)
  {
    MapIsInjective(ps, f, gen);
    DrawsAtMostOneEach(ps, f, gen);
  }

  lemma {:induction false} UuidsOfMapIds(p: TracePacket, f: IdFunctions)
    ensures Uuids(MapIds(p, f)) == Uuids(p)
  {
    hide MapBundle, MapTree;
  }

  lemma {:induction false} OptMapped<S, T>(o: Opt<S>, s: S -> T)
    ensures OptSeq(MapOpt(o, s)) == MapSeq(OptSeq(o), s)
    ensures MapSeq([], s) == []
  {
  }

  lemma {:induction false} UuidsOfMapUuids(p: TracePacket, s: u64 -> u64)
    ensures Uuids(MapUuids(p, s)) == MapSeq(Uuids(p), s)
  {
    OptMapped(p.defaultsTrackUuid, s);
    OptMapped(p.trackEventUuid, s);
    if p.descriptor.Present? {
      OptMapped(p.descriptor.value.uuid, s);
      OptMapped(p.descriptor.value.parentUuid, s);
      MapSeqConcat(OptSeq(p.descriptor.value.uuid), OptSeq(p.descriptor.value.parentUuid), s);
    }
    hide OptSeq, MapSeq;
    var a, b := OptSeq(p.defaultsTrackUuid), OptSeq(p.trackEventUuid);
    var c := if p.descriptor.Present? then OptSeq(p.descriptor.value.uuid) + OptSeq(p.descriptor.value.parentUuid)
        else [];
    MapSeqConcat(a, b, s);
    MapSeqConcat(a + b, c, s);
  }

  /**
    * One simultaneous substitution: every track uuid of every packet, in descriptors, parents, events
    * and defaults, is replaced by its image under one map computed from the whole trace; with no moving
    * descriptor nothing changes.
    */
  lemma {:induction false} OneSubstitution(ps: Trace, f: IdFunctions, gen: nat -> u64, i: nat)
    requires i < |ps|
    ensures |RewriteIds(ps, f, gen)| == |ps|
    ensures var m, us := BuildMap(ps, f, gen), Uuids(RewriteIds(ps, f, gen)[i]);
            && |us| == |Uuids(ps[i])|
            && forall k :: 0 <= k < |us| ==>
                 us[k] == if m == map[] then Uuids(ps[i])[k] else Rename(m, Uuids(ps[i])[k])
  {
    hide MapIds, MapUuids, Uuids, BuildMap;
    var m := BuildMap(ps, f, gen);
    UuidsOfMapIds(ps[i], f);
    UuidsOfMapUuids(MapIds(ps[i], f), u => Rename(m, u));
  }

  /** The map is empty exactly when rewriting changes no descriptor, and then no uuid changes. */
  lemma {:induction false} NoMoveNoRename(ps: Trace, f: IdFunctions, gen: nat -> u64)
    ensures BuildMap(ps, f, gen) == map[] <==> forall p <- ps :: MapIds(p, f).descriptor == p.descriptor
    ensures (forall p <- ps :: MapIds(p, f).descriptor == p.descriptor) ==>
              forall i :: 0 <= i < |ps| ==> Uuids(RewriteIds(ps, f, gen)[i]) == Uuids(ps[i])
  {
    hide DescriptorMoves, BuildMap, MapIds, Uuids, UuidKey;
    forall p | p in ps ensures DescriptorMoves(p, f) <==> MapIds(p, f).descriptor != p.descriptor {
      MovesExactly(p, f);
    }
    forall u ensures u in BuildMap(ps, f, gen) <==>
            exists i :: 0 <= i < |ps| && DescriptorMoves(ps[i], f) && UuidKey(ps[i].descriptor.value) == u {
      KeysNoted(ps, f, gen, u);
    }
    if j :| 0 <= j < |ps| && DescriptorMoves(ps[j], f) {
      assert UuidKey(ps[j].descriptor.value) in BuildMap(ps, f, gen);
    } else {
      assert forall u :: u !in BuildMap(ps, f, gen);
      assert BuildMap(ps, f, gen) == map[];
      forall i | 0 <= i < |ps| ensures Uuids(RewriteIds(ps, f, gen)[i]) == Uuids(ps[i]) {
        UuidsOfMapIds(ps[i], f);
      }
    }
  }

  /** Which uuids are renamed is a matter of the set of packets, not of their order. */
  lemma {:induction false} RenamedKeysIgnoreOrder(ps: Trace, qs: Trace, f: IdFunctions, gen: nat -> u64)
    requires multiset(ps) == multiset(qs)
    ensures BuildMap(ps, f, gen).Keys == BuildMap(qs, f, gen).Keys
  {
    hide DescriptorMoves, BuildMap, UuidKey;
    forall u: u64 ensures u in BuildMap(ps, f, gen) ==> u in BuildMap(qs, f, gen) {
      KeyCarriesOver(ps, qs, f, gen, u);
    }
    forall u: u64 ensures u in BuildMap(qs, f, gen) ==> u in BuildMap(ps, f, gen) {
      KeyCarriesOver(qs, ps, f, gen, u);
    }
  }

  lemma {:induction false} KeyCarriesOver(ps: Trace, qs: Trace, f: IdFunctions, gen: nat -> u64, u: u64)
    requires multiset(ps) == multiset(qs)
    ensures u in BuildMap(ps, f, gen) ==> u in BuildMap(qs, f, gen)
  {
    hide DescriptorMoves, BuildMap, UuidKey;
    KeysNoted(ps, f, gen, u);
    KeysNoted(qs, f, gen, u);
    if i :| 0 <= i < |ps| && DescriptorMoves(ps[i], f) && UuidKey(ps[i].descriptor.value) == u {
      assert ps[i] in multiset(qs);
      var j :| 0 <= j < |qs| && qs[j] == ps[i];
    }
  }

  /** A pass that returns every id as it is, such as the one that finds the maxima, changes nothing. */
  lemma {:induction false} IdentityChangesNothing(ps: Trace, f: IdFunctions, gen: nat -> u64)
    requires forall x: u32 :: f.uid(x) == x && f.sequence(x) == x && f.pid(x) == x && f.tid(x) == x && f.cpu(x) == x
    ensures RewriteIds(ps, f, gen) == ps
  {
    NoMoveNoRename(ps, f, gen);
    hide MapIds, BuildMap;
    forall i | 0 <= i < |ps| ensures MapIds(ps[i], f) == ps[i] {
      IdentityPass(ps[i], f);
    }
  }

  // ---------- The passes, in place ----------

  /** Looking a uuid up inserts 0 for a missing one, which does not change what any uuid is renamed to. */
  method LookUp(m: map<u64, u64>, o: Opt<u64>) returns (m': map<u64, u64>, o': Opt<u64>)
    ensures o' == MapOpt(o, u => Rename(m, u))
    ensures forall u: u64 :: Rename(m', u) == Rename(m, u)
  {
    m', o' := m, o;
    if o.Present? {
      if o.value !in m' {
        m' := m'[o.value := 0];
      }
      o' := Present(m'[o.value]);
    }
  }

  method RenameUuids(packets: array<TracePacket>, uuidMap: map<u64, u64>)
    modifies packets
    ensures packets[..] == MapSeq(old(packets[..]), p => MapUuids(p, u => Rename(uuidMap, u)))
  {
    var m := uuidMap;
    for i := 0 to packets.Length
      invariant forall u: u64 :: Rename(m, u) == Rename(uuidMap, u)
      invariant forall j :: 0 <= j < i ==> packets[j] == MapUuids(old(packets[j]), u => Rename(uuidMap, u))
      invariant forall j :: i <= j < packets.Length ==> packets[j] == old(packets[j])
    {
      var p := packets[i];
      var defaults, event, uuid, parent;
      m, defaults := LookUp(m, p.defaultsTrackUuid);
      m, event := LookUp(m, p.trackEventUuid);
      var descriptor := p.descriptor;
      if p.descriptor.Present? {
        var d := p.descriptor.value;
        m, uuid := LookUp(m, d.uuid);
        m, parent := LookUp(m, d.parentUuid);
        descriptor := Present(d.(uuid := uuid, parentUuid := parent));
      }
      packets[i] := p.(defaultsTrackUuid := defaults, trackEventUuid := event, descriptor := descriptor);
      assert packets[i] == MapUuids(p, u => Rename(uuidMap, u));
    }
  }

  /** Rewrites the ids of each packet, noting the uuids of descriptors that move, then renames if any did. */
  method IterateTraceIds(packets: array<TracePacket>, f: IdFunctions, gen: nat -> u64)
    modifies packets
    ensures packets[..] == RewriteIds(old(packets[..]), f, gen)
  {
    hide MapIds, MapUuids, DescriptorMoves, UuidKey;
    var uuidMap: map<u64, u64> := map[];
    var needRemapUuids := false;
    ghost var ps := packets[..];
    assert ps[..0] == [];
    for i := 0 to packets.Length
      invariant forall j :: 0 <= j < i ==> packets[j] == MapIds(ps[j], f)
      invariant forall j :: i <= j < packets.Length ==> packets[j] == ps[j]
      invariant uuidMap == BuildMap(ps[..i], f, gen)
      invariant needRemapUuids <==> uuidMap != map[]
    {
      var p := packets[i];
      assert ps[..i + 1][..i] == ps[..i];
      if DescriptorMoves(p, f) && UuidKey(p.descriptor.value) !in uuidMap {
        uuidMap := uuidMap[UuidKey(p.descriptor.value) := gen(|uuidMap|)];
        needRemapUuids := true;
        assert UuidKey(p.descriptor.value) in uuidMap;
      }
      packets[i] := MapIds(p, f);
    }
    assert ps[..|ps|] == ps;
    assert packets[..] == MapSeq(ps, p => MapIds(p, f));
    if needRemapUuids {
      RenameUuids(packets, uuidMap);
    }
  }

  method IterateTraceTimestamps(packets: array<TracePacket>, s: u64 -> u64)
    modifies packets
    ensures packets[..] == MapSeq(old(packets[..]), p => MapTimestamps(p, s))
  {
    hide MapTimestamps;
    for i := 0 to packets.Length
      invariant forall j :: 0 <= j < i ==> packets[j] == MapTimestamps(old(packets[j]), s)
      invariant forall j :: i <= j < packets.Length ==> packets[j] == old(packets[j])
    {
      packets[i] := MapTimestamps(packets[i], s);
    }
  }

  function Cleared(p: TracePacket): TracePacket {
    p.(clockSnapshot := false, serviceEvent := false)
  }

  method ClearClocks(packets: array<TracePacket>)
    modifies packets
    ensures packets[..] == MapSeq(old(packets[..]), p => Cleared(p))
  {
    for i := 0 to packets.Length
      invariant forall j :: 0 <= j < i ==> packets[j] == Cleared(old(packets[j]))
      invariant forall j :: i <= j < packets.Length ==> packets[j] == old(packets[j])
    {
      packets[i] := Cleared(packets[i]);
    }
  }

  /** Adding a signed difference to an unsigned timestamp. */
  function Shift(ts: u64, diff: i64): u64 {
    (ts + diff) % U64
  }

  function ShiftTrace(ps: Trace, diff: i64): Trace {
    MapSeq(ps, p => MapTimestamps(p, ts => Shift(ts, diff)))
  }

  function RewriteAddon(main: Opt<Trace>, addon: Trace, diff: i64, gen: nat -> u64): Trace {
    RewriteIds(ShiftTrace(MapSeq(addon, p => Cleared(p)), diff), OffsetBy(MaximaOf(main)), gen)
  }

  function Combined(mainBytes: seq<byte>, addonBytes: seq<byte>, diff: i64,
                    parse: seq<byte> -> Opt<Trace>, serialize: Trace -> seq<byte>, gen: nat -> u64): (r: seq<byte>)
  {
    if parse(addonBytes).Absent? then []
    else mainBytes + serialize(RewriteAddon(parse(mainBytes), parse(addonBytes).value, diff, gen))
  }

  /**
    * What a reader of the merged file gets. An addon that does not parse leaves nothing; otherwise a
    * fully readable main trace comes out whole, its fields first and then those of the rewritten addon.
    */
  lemma {:induction false} CombinedFields(mainBytes: seq<byte>, addonBytes: seq<byte>, diff: i64,
                                          parse: seq<byte> -> Opt<Trace>, serialize: Trace -> seq<byte>,
                                              gen: nat -> u64)
    ensures var combined := Combined(mainBytes, addonBytes, diff, parse, serialize, gen);
            && (parse(addonBytes).Absent? ==> ProtoFields.Decode(combined) == [])
            && (parse(addonBytes).Present? && ProtoFields.Consumed(mainBytes) == |mainBytes| ==>
                  var rewritten := serialize(RewriteAddon(parse(mainBytes), parse(addonBytes).value, diff, gen));
                  && ProtoFields.Decode(combined) == ProtoFields.Decode(mainBytes) + ProtoFields.Decode(rewritten)
                  && ProtoFields.Consumed(combined) == |mainBytes| + ProtoFields.Consumed(rewritten))
  {
    hide RewriteAddon;
    if parse(addonBytes).Present? && ProtoFields.Consumed(mainBytes) == |mainBytes| {
      ProtoFields.DecodeConcat(mainBytes,
          serialize(RewriteAddon(parse(mainBytes), parse(addonBytes).value, diff, gen)));
    }
  }

  /**
    * The merge. Parsing and serialising a trace are the protobuf library's; an addon that does not
    * parse gives an empty result, a main trace that does not parse is still copied.
    */
  method ConstructCombinedTrace(mainBytes: seq<byte>, addonBytes: seq<byte>, diff: i64,
                                parse: seq<byte> -> Opt<Trace>, serialize: Trace -> seq<byte>, gen: nat -> u64)
    returns (combined: seq<byte>)
    ensures combined == Combined(mainBytes, addonBytes, diff, parse, serialize, gen)
  {
    var maxima := CalcMaxIds(parse(mainBytes));
    var addon := parse(addonBytes);
    if addon.Absent? {
      return [];
    }
    var packets := new TracePacket[|addon.value|](i requires 0 <= i < |addon.value| => addon.value[i]);
    assert packets[..] == addon.value;
    ClearClocks(packets);
    IterateTraceTimestamps(packets, ts => Shift(ts, diff));
    IterateTraceIds(packets, OffsetBy(maxima), gen);
    combined := mainBytes + serialize(packets[..]);
  }

  // ---------- What the merge does to the addon besides its ids ----------

  /** No clock snapshot and no service event of the addon is in the merged trace. */
  lemma {:induction false} AddonIsCleared(main: Opt<Trace>, addon: Trace, diff: i64, gen: nat -> u64)
    ensures forall p <- RewriteAddon(main, addon, diff, gen) :: !p.clockSnapshot && !p.serviceEvent
  {
    hide BuildMap, MaximaOf;
  }

  lemma {:induction false} MapIgnoresTimes(ps: Trace, qs: Trace, f: IdFunctions, gen: nat -> u64)
    requires |ps| == |qs| && forall i :: 0 <= i < |ps| ==> qs[i].descriptor == ps[i].descriptor
    ensures BuildMap(qs, f, gen) == BuildMap(ps, f, gen)
  {
    if ps != [] {
      var n := |ps| - 1;
      MapIgnoresTimes(ps[..n], qs[..n], f, gen);
    }
  }

  /** The one substitution is that of the addon's own descriptors, and clearing and shifting touch no uuid. */
  lemma {:induction false} AddonUuids(main: Opt<Trace>, addon: Trace, diff: i64, gen: nat -> u64, i: nat)
    requires i < |addon|
    ensures |RewriteAddon(main, addon, diff, gen)| == |addon|
    ensures var m := BuildMap(addon, OffsetBy(MaximaOf(main)), gen);
            var us := Uuids(RewriteAddon(main, addon, diff, gen)[i]);
            && |us| == |Uuids(addon[i])|
            && forall k :: 0 <= k < |us| ==>
                 us[k] == if m == map[] then Uuids(addon[i])[k] else Rename(m, Uuids(addon[i])[k])
  {
    hide MapIds, BuildMap, MaximaOf, OffsetBy, RewriteIds;
    var shifted := ShiftTrace(MapSeq(addon, p => Cleared(p)), diff);
    MapIgnoresTimes(addon, shifted, OffsetBy(MaximaOf(main)), gen);
    OneSubstitution(shifted, OffsetBy(MaximaOf(main)), gen, i);
    assert Uuids(shifted[i]) == Uuids(addon[i]);
  }

  /** What a uuid becomes. */
  function Renamed(m: map<u64, u64>, u: u64): u64 {
    if m == map[] then u else Rename(m, u)
  }

  /**
    * Field by field: where the addon has a uuid the merged trace has its image, where it has a time of an
    * event the shifted time, and nowhere else.
    */
  lemma {:induction false} AddonFields(main: Opt<Trace>, addon: Trace, diff: i64, gen: nat -> u64, i: nat)
    requires i < |addon|
    ensures |RewriteAddon(main, addon, diff, gen)| == |addon|
    ensures var m := BuildMap(addon, OffsetBy(MaximaOf(main)), gen);
            var p, q := addon[i], RewriteAddon(main, addon, diff, gen)[i];
            && q.timestamp == MapOpt(p.timestamp, ts => Shift(ts, diff))
            && q.defaultsTrackUuid == MapOpt(p.defaultsTrackUuid, u => Renamed(m, u))
            && q.trackEventUuid == MapOpt(p.trackEventUuid, u => Renamed(m, u))
            && (q.descriptor.Present? <==> p.descriptor.Present?)
            && (p.descriptor.Present? ==>
                  && q.descriptor.value.uuid == MapOpt(p.descriptor.value.uuid, u => Renamed(m, u))
                  && q.descriptor.value.parentUuid == MapOpt(p.descriptor.value.parentUuid, u => Renamed(m, u)))
            && (q.ftrace.Present? <==> p.ftrace.Present?)
            && (p.ftrace.Present? ==>
                  && |q.ftrace.value.events| == |p.ftrace.value.events|
                  && forall j :: 0 <= j < |p.ftrace.value.events| ==>
                       q.ftrace.value.events[j].timestamp ==
                       MapOpt(p.ftrace.value.events[j].timestamp, ts => Shift(ts, diff)))
  {
    hide BuildMap, MaximaOf, OffsetBy, MapTree, MapSched;
    var f := OffsetBy(MaximaOf(main));
    var shifted := ShiftTrace(MapSeq(addon, p => Cleared(p)), diff);
    MapIgnoresTimes(addon, shifted, f, gen);
    var m := BuildMap(addon, f, gen);
    var r := MapIds(shifted[i], f);
    assert RewriteAddon(main, addon, diff, gen)[i] == if m == map[] then r else MapUuids(r, u => Rename(m, u));
    assert r.defaultsTrackUuid == addon[i].defaultsTrackUuid && r.trackEventUuid == addon[i].trackEventUuid;
  }

  // ---------- Merged id spaces are disjoint ----------

  lemma {:induction false} FlatMapSame<S, T>(s: seq<S>, g: S -> S, ids: S -> seq<T>)
    requires forall i :: 0 <= i < |s| ==> ids(g(s[i])) == ids(s[i])
    ensures FlatMap(MapSeq(s, g), ids) == FlatMap(s, ids)
  {
    if s != [] {
      assert MapSeq(s, g)[1..] == MapSeq(s[1..], g);
      FlatMapSame(s[1..], g, ids);
    }
  }

  lemma {:induction false} UuidsKeepIds(space: IdSpace, p: TracePacket, s: u64 -> u64)
    ensures IdsOf(space, MapUuids(p, s)) == IdsOf(space, p)
  {
  }

  lemma {:induction false} TimestampsKeepIds(space: IdSpace, p: TracePacket, s: u64 -> u64)
    ensures IdsOf(space, MapTimestamps(p, s)) == IdsOf(space, p)
  {
    hide FlatMap;
    if p.ftrace.Present? {
      FlatMapSame(p.ftrace.value.events, (e: FtraceEvent) => e.(timestamp := MapOpt(e.timestamp, s)),
          e => EventPids(e));
    }
  }

  lemma {:induction false} TraceKeepsIds(space: IdSpace, ps: Trace, g: TracePacket -> TracePacket)
    requires forall i :: 0 <= i < |ps| ==> IdsOf(space, g(ps[i])) == IdsOf(space, ps[i])
    ensures AllIds(space, MapSeq(ps, g)) == AllIds(space, ps)
  {
    hide IdsOf;
    FlatMapSame(ps, g, (p: TracePacket) => IdsOf(space, p));
  }

  /** In each id space the rewritten addon holds the images of the addon's ids, in order. */
  lemma {:induction false} AddonIds(space: IdSpace, main: Opt<Trace>, addon: Trace, diff: i64, gen: nat -> u64)
    ensures AllIds(space, RewriteAddon(main, addon, diff, gen))
         == MapSeq(AllIds(space, addon), FunctionOf(space, OffsetBy(MaximaOf(main))))
  {
    hide IdsOf, AllIds, MapIds, MapUuids, MapTimestamps, BuildMap, MaximaOf;
    var f := OffsetBy(MaximaOf(main));
    var cleared := MapSeq(addon, p => Cleared(p));
    forall i | 0 <= i < |addon| ensures IdsOf(space, Cleared(addon[i])) == IdsOf(space, addon[i]) {
      ClearedKeepsIds(space, addon[i]);
    }
    TraceKeepsIds(space, addon, p => Cleared(p));
    var shifted := ShiftTrace(cleared, diff);
    forall i | 0 <= i < |cleared|
      ensures IdsOf(space, MapTimestamps(cleared[i], ts => Shift(ts, diff))) == IdsOf(space, cleared[i]) {
      TimestampsKeepIds(space, cleared[i], ts => Shift(ts, diff));
    }
    TraceKeepsIds(space, cleared, p => MapTimestamps(p, ts => Shift(ts, diff)));
    var m, q := BuildMap(shifted, f, gen), MapSeq(shifted, p => MapIds(p, f));
    TraceIdsMapped(space, shifted, f);
    forall i | 0 <= i < |q| ensures IdsOf(space, MapUuids(q[i], u => Rename(m, u))) == IdsOf(space, q[i]) {
      UuidsKeepIds(space, q[i], u => Rename(m, u));
    }
    TraceKeepsIds(space, q, p => MapUuids(p, u => Rename(m, u)));
  }

  lemma {:induction false} ClearedKeepsIds(space: IdSpace, p: TracePacket)
    ensures IdsOf(space, Cleared(p)) == IdsOf(space, p)
  {
  }

  lemma {:induction false} MainBelowMaximum(space: IdSpace, main: Trace, x: u32)
    requires x in AllIds(space, main)
    ensures x <= MaximaOf(Present(main)).In(space)
  {
    hide AllIds, MaxOf;
    match space
    case _ =>
  }

  /**
    * When the main trace parses and no addition wraps, in every id space: an addon id that was not 0
    * (and every cpu) lands outside the main trace's ids, two addon ids become equal only if they were,
    * and pid and tid 0 stay 0.
    */
  lemma {:induction false} MergedIdsDisjoint(space: IdSpace, main: Trace, addon: Trace, diff: i64, gen: nat -> u64)
    requires forall x <- AllIds(space, addon) :: Fits(space, x, MaximaOf(Present(main)).In(space))
    ensures var before, after := AllIds(space, addon), AllIds(space, RewriteAddon(Present(main), addon, diff, gen));
            && |after| == |before|
            && (forall i :: 0 <= i < |before| && (before[i] != 0 || space.CpuSpace?) ==>
                after[i] !in AllIds(space, main))
            && (forall i, j :: 0 <= i < |before| && 0 <= j < |before| ==>
                (after[i] == after[j] <==> before[i] == before[j]))
            && (space.PidSpace? || space.TidSpace? ==> forall i :: 0 <= i < |before| && before[i] == 0 ==>
                after[i] == 0)
            && (space.UidSpace? || space.SequenceSpace? ==>
                  forall i :: 0 <= i < |before| && before[i] == 0 ==> after[i] == MaximaOf(Present(main)).In(space))
  {
    hide AllIds, RewriteAddon, MaximaOf, Fits;
    var m := MaximaOf(Present(main));
    var before, after := AllIds(space, addon), AllIds(space, RewriteAddon(Present(main), addon, diff, gen));
    AddonIds(space, Present(main), addon, diff, gen);
    forall i | 0 <= i < |before| && (before[i] != 0 || space.CpuSpace?) ensures after[i] !in AllIds(space, main) {
      AboveExactlyWhenFits(space, before[i], m);
      if after[i] in AllIds(space, main) {
        MainBelowMaximum(space, main, after[i]);
      }
    }
    forall i, j | 0 <= i < |before| && 0 <= j < |before| ensures after[i] == after[j] <==> before[i] == before[j] {
      OffsetInjective(space, before[i], before[j], m);
    }
  }

  /** The same per packet: the ids of a rewritten packet are the images of its ids, in order. */
  lemma {:induction false} AddonPacketIds(
    space: IdSpace, main: Opt<Trace>, addon: Trace, diff: i64, gen: nat -> u64, i: nat)
    requires i < |addon|
    ensures |RewriteAddon(main, addon, diff, gen)| == |addon|
    ensures IdsOf(space, RewriteAddon(main, addon, diff, gen)[i]) ==
            MapSeq(IdsOf(space, addon[i]), FunctionOf(space, OffsetBy(MaximaOf(main))))
  {
    hide IdsOf, MapIds, MapUuids, MapTimestamps, BuildMap, MaximaOf;
    var f := OffsetBy(MaximaOf(main));
    var shifted := ShiftTrace(MapSeq(addon, p => Cleared(p)), diff);
    var m := BuildMap(shifted, f, gen);
    ClearedKeepsIds(space, addon[i]);
    TimestampsKeepIds(space, Cleared(addon[i]), ts => Shift(ts, diff));
    IdsMapped(space, shifted[i], f);
    UuidsKeepIds(space, MapIds(shifted[i], f), u => Rename(m, u));
  }

  /**
    * Field by field: an id in a rewritten packet stood in the same packet of the addon before it was
    * moved, and unless it was 0 no field of the main trace holds it.
    */
  lemma {:induction false} MergedFieldsDisjoint(
    space: IdSpace, main: Trace, addon: Trace, diff: i64, gen: nat -> u64, i: nat, x: u32)
    requires i < |addon| && |RewriteAddon(Present(main), addon, diff, gen)| == |addon|
    requires IdIn(space, RewriteAddon(Present(main), addon, diff, gen)[i], x)
    requires forall y: u32 :: IdIn(space, addon[i], y) ==> Fits(space, y, MaximaOf(Present(main)).In(space))
    ensures exists y: u32 ::
        && IdIn(space, addon[i], y)
        && x == (if y == 0 && (space.PidSpace? || space.TidSpace?) then 0
                 else y + MaximaOf(Present(main)).In(space) + (if space.CpuSpace? then 1 else 0))
        && (y != 0 || space.CpuSpace? ==> forall p <- main :: !IdIn(space, p, x))
  {
    hide IdsOf, IdIn, RewriteAddon, MaximaOf, Fits;
    var m, q := MaximaOf(Present(main)), RewriteAddon(Present(main), addon, diff, gen)[i];
    AddonPacketIds(space, Present(main), addon, diff, gen, i);
    VisitedExactly(space, q, x);
    var k :| 0 <= k < |IdsOf(space, q)| && IdsOf(space, q)[k] == x;
    var y := IdsOf(space, addon[i])[k];
    VisitedExactly(space, addon[i], y);
    OffsetWhenFits(space, y, m);
    if y != 0 || space.CpuSpace? {
      AboveExactlyWhenFits(space, y, m);
      MaximaAreMaxima(space, main);
    }
  }

  function ProcessPacket(pid: u32): TracePacket {
    TracePacket(Absent, Absent, Absent, Absent, Absent, Absent, Absent,
                Present(ProcessTree([Present(pid)], [])), false, false)
  }

  /** Why wrapping must be excluded: a pid of -1 in the main trace makes an addon pid collide. */
  lemma {:induction false} WrappingCollides(gen: nat -> u64)
    ensures var main, addon := [ProcessPacket(0xFFFF_FFFF), ProcessPacket(4)], [ProcessPacket(5)];
            var after := AllIds(PidSpace, RewriteAddon(Present(main), addon, 0, gen));
            after == [4] && after[0] in AllIds(PidSpace, main)
  {
    var main, addon := [ProcessPacket(0xFFFF_FFFF), ProcessPacket(4)], [ProcessPacket(5)];
    OnePid(0xFFFF_FFFF);
    OnePid(4);
    OnePid(5);
    AddonIds(PidSpace, Present(main), addon, 0, gen);
    hide RewriteAddon, Pids;
    assert main[1..] == [ProcessPacket(4)] && main[1..][1..] == [] && addon[1..] == [];
    assert AllIds(PidSpace, addon) == [5];
    assert AllIds(PidSpace, main) == [0xFFFF_FFFF, 4];
    assert [0xFFFF_FFFF, 4][1..] == [4];
  }

  lemma {:induction false} OnePid(pid: u32)
    ensures Pids(ProcessPacket(pid)) == [pid]
  {
    var pids := [Present(pid)];
    assert pids[1..] == [];
    assert FlatMap(pids, p => OptSeq(p)) == OptSeq(pids[0]) + FlatMap(pids[1..], p => OptSeq(p));
    assert TreePids(ProcessTree(pids, [])) == [pid];
  }
}
