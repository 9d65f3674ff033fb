/**
 * The lock-action builders of python/dialects/aiex.py: `process_bd`,
 * `hold_lock` and `forward_bd`. The ops they create through `use_lock`,
 * `dma_bd`, `dma` and `lock` are recorded as an abstract op list on a
 * `Builder`, standing for the insertion point of the MLIR module.
 *
 * Beside the builder, a small simulator runs DMA programs over lock
 * counts, so that the protocol `forward_bd` sets up can be checked.
 */
module LockProtocol {
  import opened Results
  import opened AieTypes

  datatype LockAction = Acquire | AcquireGreaterEqual | Release

  /** A lock created by `lock(...)`: the position of its declaration. */
  datatype LockRef = LockRef(id: nat)

  datatype LockDecl = LockDecl(tile: Tile, init: int, symName: Option<string>)

  /** A buffer op, known here only by its optional symbol name. */
  datatype Buffer = Buffer(symName: Option<string>)

  datatype Dim = Dim(size: int, stride: int)

  datatype Op =
    | UseLock(lock: LockRef, action: LockAction, value: Option<int>)
    | DmaBd(buffer: Buffer, offset: Option<int>, len: Option<int>, dims: Option<seq<Dim>>)
    | DmaProgram(dir: DmaChannelDir, channel: nat, loop: bool, repeatCount: Option<nat>, body: seq<Op>)

  /** How the body of a `with hold_lock(...)` block ends. */
  datatype Outcome = Completed | Raised

  /** The name `forward_bd` gives a lock it creates: only when the buffer has a non-empty name. */
  function LockName(buffer: Buffer, suffix: string): Option<string>
  {
    if buffer.symName.Some? && buffer.symName.value != "" then Some(buffer.symName.value + suffix) else None
  }

  /** The S2MM and MM2S programs of `forward_bd`, over its two locks. */
  function ForwardPrograms(readIn: LockRef, writeOut: LockRef, buffer: Buffer): seq<seq<Op>>
  {
    [ [UseLock(readIn, AcquireGreaterEqual, None), DmaBd(buffer, None, None, None), UseLock(writeOut, Release, None)],
      [UseLock(writeOut, AcquireGreaterEqual, None), DmaBd(buffer, None, None, None), UseLock(readIn, Release, None)] ]
  }

  class Builder {
    var locks: seq<LockDecl>
    var ops: seq<Op>

    constructor ()
      ensures locks == [] && ops == []
    {
      locks := [];
      ops := [];
    }

    method UseLock(lock: LockRef, action: LockAction, value: Option<int>)
      modifies this
      ensures locks == old(locks) && ops == old(ops) + [Op.UseLock(lock, action, value)]
    {
      ops := ops + [Op.UseLock(lock, action, value)];
    }

    method DmaBd(buffer: Buffer, offset: Option<int>, len: Option<int>, dims: Option<seq<Dim>>)
      modifies this
      ensures locks == old(locks) && ops == old(ops) + [Op.DmaBd(buffer, offset, len, dims)]
    {
      ops := ops + [Op.DmaBd(buffer, offset, len, dims)];
    }

    method Lock(tile: Tile, init: int, symName: Option<string>) returns (l: LockRef)
      modifies this
      ensures ops == old(ops) && locks == old(locks) + [LockDecl(tile, init, symName)]
      ensures l == LockRef(|old(locks)|)
    {
      l := LockRef(|locks|);
      locks := locks + [LockDecl(tile, init, symName)];
    }

    /** `process_bd`: acquire, one buffer descriptor, release. */
    method ProcessBd(acqLock: LockRef, buffer: Buffer, relLock: LockRef,
                     offset: Option<int>, len: Option<int>, dims: Option<seq<Dim>>,
                     acqAction: LockAction, relAction: LockAction, acqVal: Option<int>, relVal: Option<int>)
      modifies this
      ensures locks == old(locks)
      ensures ops == old(ops) + [Op.UseLock(acqLock, acqAction, acqVal), Op.DmaBd(buffer, offset, len, dims),
                                 Op.UseLock(relLock, relAction, relVal)]
    {
      UseLock(acqLock, acqAction, acqVal);
      DmaBd(buffer, offset, len, dims);
      UseLock(relLock, relAction, relVal);
    }

    /** `process_bd(acq_lock, buffer, rel_lock)` with every keyword at its default. */
    method ProcessBdDefaults(acqLock: LockRef, buffer: Buffer, relLock: LockRef)
      modifies this
      ensures locks == old(locks)
      ensures ops == old(ops) + [Op.UseLock(acqLock, AcquireGreaterEqual, None), Op.DmaBd(buffer, None, None, None),
                                 Op.UseLock(relLock, Release, None)]
    {
      ProcessBd(acqLock, buffer, relLock, None, None, None, AcquireGreaterEqual, Release, None, None);
    }

    /**
     * `with hold_lock(acq, rel): body`: the acquire comes first and the
     * release last whether the body completes or raises; a raised
     * exception is passed on after the release.
     */
    method HoldLock(acqLock: LockRef, relLock: LockRef, acqVal: Option<int>, relVal: Option<int>,
                    body: seq<Op>, outcome: Outcome) returns (raised: bool)
      modifies this
      ensures locks == old(locks)
      ensures ops == old(ops) + [Op.UseLock(acqLock, AcquireGreaterEqual, acqVal)] + body
                     + [Op.UseLock(relLock, Release, relVal)]
      ensures raised <==> outcome == Raised
    {
      UseLock(acqLock, AcquireGreaterEqual, acqVal);
      ops := ops + body;
      UseLock(relLock, Release, relVal);
      raised := outcome == Raised;
    }

    /** The `@dma(...)` decorator: a DMA program on one channel whose body the nested builder recorded. */
    method Dma(dir: DmaChannelDir, channel: nat, loop: bool, repeatCount: Option<nat>, body: seq<Op>)
      modifies this
      ensures locks == old(locks) && ops == old(ops) + [DmaProgram(dir, channel, loop, repeatCount, body)]
    {
      ops := ops + [DmaProgram(dir, channel, loop, repeatCount, body)];
    }

    /**
     * `forward_bd`: creates the missing locks (read_in with count 1,
     * write_out with count 0), then an S2MM program that fills the buffer
     * between acquiring read_in and releasing write_out, and an MM2S
     * program that drains it the other way round. The MM2S channel
     * defaults to the S2MM one; both loop iff no repeat count is given.
     */
    method ForwardBd(tile: Tile, buffer: Buffer, s2mmChannel: nat, mm2sChannel: Option<nat>,
                     readInLock: Option<LockRef>, writeOutLock: Option<LockRef>, repeatCount: Option<nat>)
      modifies this
      ensures var n := |old(locks)|;
        var readIn := if readInLock.Some? then readInLock.value else LockRef(n);
        var writeOut := if writeOutLock.Some? then writeOutLock.value
                        else LockRef(if readInLock.Some? then n else n + 1);
        var programs := ForwardPrograms(readIn, writeOut, buffer);
        && locks == old(locks)
                    + (if readInLock.None? then [LockDecl(tile, 1, LockName(buffer, "_read_in_lock"))] else [])
                    + (if writeOutLock.None? then [LockDecl(tile, 0, LockName(buffer, "_write_out_lock"))] else [])
        && ops == old(ops)
                  + [DmaProgram(S2MM, s2mmChannel, repeatCount.None?, repeatCount, programs[0]),
                     DmaProgram(MM2S, mm2sChannel.GetOr(s2mmChannel), repeatCount.None?, repeatCount, programs[1])]
    {
      var mm2s := if mm2sChannel.Some? then mm2sChannel.value else s2mmChannel;
      var readIn: LockRef;
      if readInLock.None? {
        readIn := Lock(tile, 1, LockName(buffer, "_read_in_lock"));
      } else {
        readIn := readInLock.value;
      }
      var writeOut: LockRef;
      if writeOutLock.None? {
        writeOut := Lock(tile, 0, LockName(buffer, "_write_out_lock"));
      } else {
        writeOut := writeOutLock.value;
      }
      assert readIn == (if readInLock.Some? then readInLock.value else LockRef(|old(locks)|));
      assert writeOut == (if writeOutLock.Some? then writeOutLock.value
                          else LockRef(if readInLock.Some? then |old(locks)| else |old(locks)| + 1));
      var loop := repeatCount.None?;
      var incoming := new Builder();
      incoming.ProcessBdDefaults(readIn, buffer, writeOut);
      assert incoming.ops == ForwardPrograms(readIn, writeOut, buffer)[0];
      Dma(S2MM, s2mmChannel, loop, repeatCount, incoming.ops);
      var outgoing := new Builder();
      outgoing.ProcessBdDefaults(writeOut, buffer, readIn);
      assert outgoing.ops == ForwardPrograms(readIn, writeOut, buffer)[1];
      Dma(MM2S, mm2s, loop, repeatCount, outgoing.ops);
    }
  }

  // ----- Running DMA programs over lock counts -----

  /*
   * Modelling assumption: the hardware semantics of locks is not part of
   * this code. The simulator assumes that AcquireGreaterEqual with value v
   * waits until the count is at least v and subtracts v, that Release
   * adds v, and that a missing value means 1. Acquire (equal) is given no
   * step. Each program loops over its body forever, one op per step.
   */

  /** The lock counts and, for each program, the position of its next op. */
  datatype Machine = Machine(counts: map<LockRef, int>, pcs: seq<nat>)

  function Amount(value: Option<int>): int
  {
    if value.Some? then value.value else 1
  }

  ghost predicate Runs(programs: seq<seq<Op>>, m: Machine)
  {
    && |m.pcs| == |programs|
    && (forall p :: 0 <= p < |programs| ==> m.pcs[p] < |programs[p]|)
    && (forall p, k :: 0 <= p < |programs| && 0 <= k < |programs[p]| && programs[p][k].UseLock? ==>
          programs[p][k].lock in m.counts)
  }

  /** Program `p` can take its next op. */
  ghost predicate Enabled(programs: seq<seq<Op>>, m: Machine, p: nat)
    requires Runs(programs, m) && p < |programs|
  {
    var op := programs[p][m.pcs[p]];
    match op
    case UseLock(l, AcquireGreaterEqual, v) => m.counts[l] >= Amount(v)
    case UseLock(_, Acquire, _) => false
    case _ => true
  }

  /** Program `p` takes its next op and moves on, wrapping round at the end. */
  ghost function Step(programs: seq<seq<Op>>, m: Machine, p: nat): (m': Machine)
    requires Runs(programs, m) && p < |programs|
    ensures Runs(programs, m')
  {
    var op := programs[p][m.pcs[p]];
    var counts :=
      match op
      case UseLock(l, AcquireGreaterEqual, v) => m.counts[l := m.counts[l] - Amount(v)]
      case UseLock(l, Release, v) => m.counts[l := m.counts[l] + Amount(v)]
      case _ => m.counts;
    Machine(counts, m.pcs[p := (m.pcs[p] + 1) % |programs[p]|])
  }

  /**
   * A run under a scheduler: at each turn the chosen program takes its
   * next op if it can, and waits otherwise.
   */
  ghost function Run(programs: seq<seq<Op>>, m: Machine, schedule: seq<nat>): Machine
    requires Runs(programs, m)
    requires forall i :: 0 <= i < |schedule| ==> schedule[i] < |programs|
    decreases |schedule|
  {
    if schedule == [] then m
    else
      var next := if Enabled(programs, m, schedule[0]) then Step(programs, m, schedule[0]) else m;
      Run(programs, next, schedule[1..])
  }

  /** A program holds the buffer between its acquire (position 0) and its release (position 2). */
  function Holding(pc: nat): int
  {
    if pc == 0 then 0 else 1
  }

  /**
   * The invariant of the `forward_bd` pair: the two counts plus the
   * programs holding the buffer always add up to one.
   */
  ghost predicate ForwardInvariant(readIn: LockRef, writeOut: LockRef, buffer: Buffer, m: Machine)
  {
    && Runs(ForwardPrograms(readIn, writeOut, buffer), m)
    && readIn in m.counts && writeOut in m.counts
    && m.counts[readIn] >= 0 && m.counts[writeOut] >= 0
    && m.counts[readIn] + m.counts[writeOut] + Holding(m.pcs[0]) + Holding(m.pcs[1]) == 1
  }

  /** The locks as `forward_bd` creates them: read_in 1, write_out 0, both programs at their start. */
  lemma ForwardStart(readIn: LockRef, writeOut: LockRef, buffer: Buffer)
    requires readIn != writeOut
    ensures ForwardInvariant(readIn, writeOut, buffer, Machine(map[readIn := 1, writeOut := 0], [0, 0]))
  {
  }

  /** The machine a pair of programs starts from: each lock at the `init` of its declaration, both programs at their first op. */
  function StartMachine(locks: seq<LockDecl>, readIn: LockRef, writeOut: LockRef): Machine
    requires readIn.id < |locks| && writeOut.id < |locks|
  {
    Machine(map[readIn := locks[readIn.id].init, writeOut := locks[writeOut.id].init], [0, 0])
  }

  /**
   * When `forward_bd` is given no locks, the two it declares (the lock
   * list `ForwardBd` leaves, with the references it uses) start the pair
   * in the invariant.
   */
  lemma ForwardBdStartsSafe(before: seq<LockDecl>, tile: Tile, buffer: Buffer)
    ensures var n := |before|;
      var locks := before + [LockDecl(tile, 1, LockName(buffer, "_read_in_lock"))]
                          + [LockDecl(tile, 0, LockName(buffer, "_write_out_lock"))];
      && LockRef(n) != LockRef(n + 1)
      && ForwardInvariant(LockRef(n), LockRef(n + 1), buffer, StartMachine(locks, LockRef(n), LockRef(n + 1)))
  {
    var n := |before|;
    var locks := before + [LockDecl(tile, 1, LockName(buffer, "_read_in_lock"))]
                        + [LockDecl(tile, 0, LockName(buffer, "_write_out_lock"))];
    assert locks[n].init == 1 && locks[n + 1].init == 0;
    ForwardStart(LockRef(n), LockRef(n + 1), buffer);
  }

  /** Every enabled step keeps the invariant. */
  lemma ForwardStep(readIn: LockRef, writeOut: LockRef, buffer: Buffer, m: Machine, p: nat)
    requires readIn != writeOut && p < 2
    requires ForwardInvariant(readIn, writeOut, buffer, m)
    requires Enabled(ForwardPrograms(readIn, writeOut, buffer), m, p)
    ensures ForwardInvariant(readIn, writeOut, buffer, Step(ForwardPrograms(readIn, writeOut, buffer), m, p))
  {
    var programs := ForwardPrograms(readIn, writeOut, buffer);
    var m' := Step(programs, m, p);
    var pc := m.pcs[p];
    assert m'.pcs[1 - p] == m.pcs[1 - p];
    if pc == 0 {
      assert m'.pcs[p] == 1;
    } else if pc == 1 {
      assert m'.pcs[p] == 2 && m'.counts == m.counts;
    } else {
      assert m'.pcs[p] == 0;
    }
  }

  /** Every state a run of the pair reaches from an invariant state keeps the invariant. */
  lemma {:induction false} ForwardRun(readIn: LockRef, writeOut: LockRef, buffer: Buffer, m: Machine, schedule: seq<nat>)
    requires readIn != writeOut
    requires forall i :: 0 <= i < |schedule| ==> schedule[i] < 2
    requires ForwardInvariant(readIn, writeOut, buffer, m)
    ensures ForwardInvariant(readIn, writeOut, buffer, Run(ForwardPrograms(readIn, writeOut, buffer), m, schedule))
    decreases |schedule|
  {
    var programs := ForwardPrograms(readIn, writeOut, buffer);
    if schedule != [] {
      var next := if Enabled(programs, m, schedule[0]) then Step(programs, m, schedule[0]) else m;
      if Enabled(programs, m, schedule[0]) {
        ForwardStep(readIn, writeOut, buffer, m, schedule[0]);
      }
      ForwardRun(readIn, writeOut, buffer, next, schedule[1..]);
    }
  }

  /**
   * No deadlock: whatever state the pair reaches, one of the two programs
   * can move. And the buffer is never filled and drained at the same time.
   */
  lemma ForwardProgress(readIn: LockRef, writeOut: LockRef, buffer: Buffer, m: Machine)
    requires readIn != writeOut
    requires ForwardInvariant(readIn, writeOut, buffer, m)
    ensures Enabled(ForwardPrograms(readIn, writeOut, buffer), m, 0)
            || Enabled(ForwardPrograms(readIn, writeOut, buffer), m, 1)
    ensures m.pcs[0] == 0 || m.pcs[1] == 0
  {
    var programs := ForwardPrograms(readIn, writeOut, buffer);
    if m.pcs[0] == 0 && m.pcs[1] == 0 {
      if m.counts[readIn] >= 1 {
        assert Enabled(programs, m, 0);
      } else {
        assert Enabled(programs, m, 1);
      }
    } else if m.pcs[0] != 0 {
      assert Enabled(programs, m, 0);
    } else {
      assert Enabled(programs, m, 1);
    }
  }
}
