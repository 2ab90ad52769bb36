/**
  * The process-wide counters as the recording threads reach them: other threads may use them
  * between any two accesses.
  */
module TraceConfiguration {
  import opened WireFormat
  import opened RecorderPackets
  import opened SharedCounters

  datatype Path = NoPath | Path(name: string)

  predicate UseFilenameByEnv(s: Path) {
    s.Path? && s.name != ""
  }

  /** The size of a buffer in bytes: a product of 32-bit numbers. */
  function StorageSize(mb: u32): u32 {
    mb * 1048576 % U32
  }

  /** A buffer holds a packet unless the product wraps to zero, as it does at 4096 MB. */
  lemma {:induction false} StorageHoldsAPacket(mb: u32)
    ensures NEEDED_SPACE <= StorageSize(mb) <==> mb % 4096 != 0
    ensures mb % 4096 != 0 ==> 1048576 <= StorageSize(mb)
    ensures mb % 4096 == 0 ==> StorageSize(mb) == 0
  {
    assert mb * 1048576 == mb / 4096 * U32 + mb % 4096 * 1048576;
  }

  class TraceConfig {
    var hostFilename: Path
    var guestFilename: Path
    var combinedFilename: Path
    var saving: bool
    var tracingDisabled: bool
    var guestTimeDiff: i64
    var perThreadStorageMb: u32
    var packetsWritten: u32
    var currentInterningId: u32
    var currentThreadId: u32
    /** Every access to the counters since tracing was enabled. */
    var log: seq<Step>

    ghost predicate Valid()
      reads this
    {
      && Runs(log)
      && packetsWritten == Exec(log).packets
      && currentInterningId == Exec(log).interning
      && currentThreadId == Exec(log).threadIds
    }

    /** The ids thread t has drawn. */
    ghost function Drawn(t: Thread): seq<u32>
      reads this
    {
      Exec(log).Drawn(t)
    }

    /** Thread t has read an id and not yet incremented the counter. */
    ghost predicate Pending(t: Thread)
      reads this
    {
      t in Exec(log).pending
    }

    ghost function Grants(): seq<Grant>
      reads this
    {
      Exec(log).grants
    }

    /** What thread t has done to the counters, and how often it was told that it was the first. */
    ghost function Accesses(t: Thread): seq<Step>
      reads this
    {
      Mine(log, t)
    }

    ghost function Firsts(t: Thread): nat
      reads this
    {
      FirstsOf(Exec(log).firsts, t)
    }

    ghost function Settings(): ((Path, Path, Path), bool, bool, i64, u32)
      reads this
      ensures Settings().4 == perThreadStorageMb
    {
      ((hostFilename, guestFilename, combinedFilename), saving, tracingDisabled, guestTimeDiff, perThreadStorageMb)
    }

    constructor (storageMb: u32)
      ensures Valid() && log == [] && Settings() == ((NoPath, NoPath, NoPath), false, true, 0, storageMb)
    {
      hostFilename, guestFilename, combinedFilename, saving := NoPath, NoPath, NoPath, false;
      tracingDisabled, guestTimeDiff, perThreadStorageMb := true, 0, storageMb;
      packetsWritten, currentInterningId, currentThreadId, log := 0, 1, 1, [];
    }

    /**
      * Tracing starts with the counters at their initial values, unless there is nowhere to save it,
      * it is already on, or the last trace is still being saved. File names in the environment
      * replace the configured ones in any case.
      */
    method EnableTracing(hostByEnv: Path, guestByEnv: Path, combinedByEnv: Path)
      requires Valid()
      modifies this
      ensures Valid()
      ensures hostFilename == if UseFilenameByEnv(hostByEnv) then hostByEnv else old(hostFilename)
      ensures guestFilename == if UseFilenameByEnv(guestByEnv) then guestByEnv else old(guestFilename)
      ensures combinedFilename == if UseFilenameByEnv(combinedByEnv) then combinedByEnv else old(combinedFilename)
      ensures saving == old(saving) && guestTimeDiff == old(guestTimeDiff)
      ensures perThreadStorageMb == old(perThreadStorageMb)
      ensures var starts := hostFilename.Path? && old(tracingDisabled) && !saving;
              && tracingDisabled == (old(tracingDisabled) && !starts)
              && log == if starts then [] else old(log)
    {
      if UseFilenameByEnv(hostByEnv) {
        hostFilename := hostByEnv;
      }
      if UseFilenameByEnv(guestByEnv) {
        guestFilename := guestByEnv;
      }
      if UseFilenameByEnv(combinedByEnv) {
        combinedFilename := combinedByEnv;
      }
      if hostFilename.NoPath? || !tracingDisabled || saving {
        return;
      }
      packetsWritten, currentInterningId, currentThreadId, log := 0, 1, 1, [];
      tracingDisabled := false;
    }

    /** One atomic access. */
    method Access(e: Step)
      requires Valid() && Enabled(Exec(log), e)
      modifies this
      ensures Valid() && log == old(log) + [e] && Settings() == old(Settings())
      ensures Exec(log) == Apply(Exec(old(log)), e)
    {
      ghost var before := log;
      match e {
        case ReadId(_) =>
        case AddId(_) => currentInterningId := (currentInterningId + 1) % U32;
        case NewThreadId(_) => currentThreadId := (currentThreadId + 1) % U32;
        case CountPacket(_) => packetsWritten := (packetsWritten + 1) % U32;
      }
      log := log + [e];
      assert log[..|log| - 1] == before;
    }

    /** Any accesses by threads other than t. */
    method Interference(t: Thread)
      requires Valid()
      modifies this
      ensures Valid() && Settings() == old(Settings())
      ensures Drawn(t) == old(Drawn(t)) && Pending(t) == old(Pending(t)) && old(Grants()) <= Grants()
      ensures Accesses(t) == old(Accesses(t)) && Firsts(t) == old(Firsts(t))
    {
      hide Mine, FirstsOf;
      var n: int := *;
      while 0 < n
        invariant Valid() && Settings() == old(Settings())
        invariant Drawn(t) == old(Drawn(t)) && Pending(t) == old(Pending(t)) && old(Grants()) <= Grants()
        invariant Accesses(t) == old(Accesses(t)) && Firsts(t) == old(Firsts(t))
      {
        var e: Step := *;
        if e.t != t && Enabled(Exec(log), e) {
          ghost var before := log;
          Access(e);
          OneMoreStep(before, e, t);
        }
        n := n - 1;
      }
    }

    method CountPacket(t: Thread) returns (n: u32)
      requires Valid()
      modifies this
      ensures Valid() && Settings() == old(Settings())
      ensures Drawn(t) == old(Drawn(t)) && Pending(t) == old(Pending(t)) && old(Grants()) <= Grants()
      ensures Accesses(t) == old(Accesses(t)) + [Step.CountPacket(t)]
      ensures Firsts(t) == old(Firsts(t)) + if n == 1 then 1 else 0
    {
      hide Mine, FirstsOf;
      Interference(t);
      ghost var before := log;
      Access(Step.CountPacket(t));
      OneMoreStep(before, Step.CountPacket(t), t);
      n := packetsWritten;
    }

    /** Read, then increment; other threads may read the same id in between. */
    method NextInterningId(t: Thread) returns (id: u32)
      requires Valid() && !Pending(t)
      modifies this
      ensures Valid() && Settings() == old(Settings())
      ensures Drawn(t) == old(Drawn(t)) + [id] && !Pending(t) && old(Grants()) <= Grants()
      ensures Accesses(t) == old(Accesses(t)) + [ReadId(t), AddId(t)] && Firsts(t) == old(Firsts(t))
    {
      hide Mine, FirstsOf;
      Interference(t);
      id := currentInterningId;
      ghost var before := log;
      Access(ReadId(t));
      OneMoreStep(before, ReadId(t), t);
      Interference(t);
      before := log;
      Access(AddId(t));
      OneMoreStep(before, AddId(t), t);
    }

    method NextThreadId(t: Thread) returns (id: u32)
      requires Valid()
      modifies this
      ensures Valid() && Settings() == old(Settings())
      ensures Drawn(t) == old(Drawn(t)) && Pending(t) == old(Pending(t)) && old(Grants()) <= Grants()
      ensures Grant(t, id) in Grants() && id == Exec(log).threadIds
      ensures Accesses(t) == old(Accesses(t)) + [Step.NewThreadId(t)] && Firsts(t) == old(Firsts(t))
    {
      hide Mine, FirstsOf;
      Interference(t);
      ghost var before := log;
      Access(NewThreadId(t));
      OneMoreStep(before, Step.NewThreadId(t), t);
      id := currentThreadId;
    }
  }
}
