/** module/pmu_sync_sample_main.c over real lists and buffers. Each section of its functions refines one step of
    the pool machine, from any state of the other cores and readers; whole functions are runs of such steps. */
module Kernel {
  import opened Bytes
  import opened SampleBuffer
  import opened Options
  import opened PoolMachine
  import opened PoolInvariant
  import opened PoolSteps
  import opened PoolTheorems
  import opened BufferList

  function Pointer(b: Buffer?): Option<Buffer> {
    if b == null then None else Some(b)
  }

  function Count(flags: seq<bool>): nat {
    if flags == [] then 0 else Count(flags[..|flags| - 1]) + if flags[|flags| - 1] then 1 else 0
  }

  lemma CountNone()
    ensures Count([]) == 0
  {
  }

  lemma CountSnoc(flags: seq<bool>, i: nat)
    requires i < |flags|
    ensures Count(flags[..i + 1]) == Count(flags[..i]) + if flags[i] then 1 else 0
  {
    assert flags[..i + 1][..i] == flags[..i];
  }

  /** The module's statics. `machine` is the state of the pool machine they stand for. */
  class Sampler {
    const entries: nat
    const numCtrs: nat
    const emptyBuffers: List
    const fullBuffers: List
    const lbuffer: array<Buffer?>
    var missed: nat
    ghost var machine: Pool<Buffer>

    ghost predicate Coupled()
      reads this, emptyBuffers, emptyBuffers.nodes, fullBuffers, fullBuffers.nodes, lbuffer, machine.bufs.Keys
    {
      && emptyBuffers != fullBuffers && emptyBuffers.Valid() && fullBuffers.Valid()
      && emptyBuffers.nodes == machine.empty && fullBuffers.nodes == machine.full
      && lbuffer.Length == |machine.cores|
      && (forall c :: 0 <= c < lbuffer.Length ==> machine.cores[c].lbuffer == Pointer(lbuffer[c]))
      && (forall b :: b in machine.bufs ==> b.View() == machine.bufs[b])
      && missed == machine.missed && entries == machine.entries && numCtrs == machine.width
    }

    ghost predicate Valid()
      reads this, emptyBuffers, emptyBuffers.nodes, fullBuffers, fullBuffers.nodes, lbuffer, machine.bufs.Keys
    {
      Coupled() && Inv(machine)
    }

    /** The buffer set-up of `init_module`: eight allocations are tried, each may fail. */
    constructor (cores: nat, readers: nat, entries: nat, numCtrs: nat, allocations: seq<bool>)
      requires entries > 0 && numCtrs <= NUM_COUNTERS && |allocations| == 8
      ensures Valid() && Initial(machine)
      ensures this.entries == entries && this.numCtrs == numCtrs
      ensures |machine.cores| == cores && |machine.readers| == readers
      ensures |machine.bufs| == Count(allocations)
      ensures fresh(emptyBuffers) && fresh(fullBuffers) && fresh(lbuffer) && fresh(machine.bufs.Keys)
    {
      this.entries, this.numCtrs := entries, numCtrs;
      emptyBuffers := new List();
      fullBuffers := new List();
      lbuffer := new Buffer?[cores](_ => null);
      missed := 0;
      machine := Pool(entries, numCtrs, [], [], map[], seq(cores, _ => Core(Idle, None, [], 0, 0)),
                      seq(readers, _ => Waiting), [], [], [], 0);
      new;
      AddBuffers(allocations);
      InitiallyInv(machine);
    }

    /** The loop of `init_module`. */
    method AddBuffers(allocations: seq<bool>)
      requires Coupled() && Initial(machine) && machine.bufs == map[]
      modifies this`machine, emptyBuffers
      ensures Coupled() && Initial(machine)
      ensures machine.cores == old(machine.cores) && machine.readers == old(machine.readers)
      ensures |machine.bufs| == Count(allocations) && fresh(machine.bufs.Keys)
    {
      hide Initial, Coupled, Count;
      CountNone();
      for i := 0 to |allocations|
        invariant Coupled() && Initial(machine)
        invariant machine.cores == old(machine.cores) && machine.readers == old(machine.readers)
        invariant |machine.bufs| == Count(allocations[..i]) && fresh(machine.bufs.Keys)
      {
        CountSnoc(allocations, i);
        AddBuffer(allocations[i]);
      }
      assert allocations[..|allocations|] == allocations;
    }

    /** `append_blist(&empty_buffers, kzalloc(...))` during `init_module`. */
    method AddBuffer(granted: bool)
      requires Coupled() && Initial(machine)
      modifies this`machine, emptyBuffers, machine.bufs.Keys`nextBuffer
      ensures Coupled() && Initial(machine)
      ensures machine.cores == old(machine.cores) && machine.readers == old(machine.readers)
      ensures |machine.bufs| == |old(machine.bufs)| + if granted then 1 else 0
      ensures fresh(machine.bufs.Keys - old(machine.bufs.Keys))
    {
      var b: Buffer? := null;
      if granted {
        b := new Buffer(entries);
      }
      Enlist(b);
    }

    method Enlist(b: Buffer?)
      requires Coupled() && Initial(machine)
      requires b != null ==> b !in machine.bufs && |b.samples| == entries && b.numSamples == 0 && Zeroed(b.View())
      modifies this`machine, emptyBuffers, machine.bufs.Keys`nextBuffer, {b}`nextBuffer
      ensures Coupled() && Initial(machine)
      ensures machine == old(machine).(empty := machine.empty, bufs := machine.bufs)
      ensures machine.bufs == if b == null then old(machine.bufs) else old(machine.bufs)[b := b.View()]
    {
      hide Initial, List.Valid;
      InitialLists(machine);
      emptyBuffers.Append(b);
      if b != null {
        OneMore(machine, b, b.View());
        machine := machine.(empty := machine.empty + [b], bufs := machine.bufs[b := b.View()]);
      }
    }

    static lemma InitialLists(p: Pool<Buffer>)
      requires Initial(p)
      ensures p.full == [] && forall b :: b in p.empty ==> b in p.bufs
    {
      forall b | b in p.empty
        ensures b in p.bufs
      {
        assert b in multiset(p.empty);
      }
    }

    static lemma OneMore(p: Pool<Buffer>, b: Buffer, x: Slots)
      requires Initial(p) && b !in p.bufs && |x.samples| == p.entries && x.num == 0 && Zeroed(x)
      ensures Initial(p.(empty := p.empty + [b], bufs := p.bufs[b := x]))
    {
      AppendMultiset(p.empty, b);
      assert multiset(p.bufs.Keys + {b}) == multiset(p.bufs.Keys) + multiset{b};
      assert p.bufs[b := x].Keys == p.bufs.Keys + {b};
    }

    /** What the heap code may rely on: nobody else touches the buffer of its next step, and the lists share none. */
    lemma Safe(a: Action)
      requires Inv(machine) && CanStep(machine, a)
      ensures Sound(machine, a) && Inv(Next(machine, a))
      ensures Accessed(machine, a).Some? ==>
        Accessed(machine, a).value !in machine.empty && Accessed(machine, a).value !in machine.full
      ensures forall i :: 0 <= i < |machine.empty| ==>
        machine.empty[i] in machine.bufs && machine.empty[i] !in machine.full
      ensures forall i :: 0 <= i < |machine.full| ==>
        machine.full[i] in machine.bufs && machine.full[i] !in machine.empty
      ensures Next(machine, a).bufs.Keys == machine.bufs.Keys && |Next(machine, a).cores| == |machine.cores|
    {
      hide Next, CanStep, Sound, Accessed, Held, ReaderHeld;
      StepKeeps(machine, a);
      AccessIsExclusive(machine, a);
      SameBuffers(machine, a);
      forall b | b in machine.empty || b in machine.full
        ensures b in machine.bufs && (b in machine.empty ==> b !in machine.full)
      {
        ListOwnsAlone(machine, b);
      }
    }

    static lemma SameBuffers(p: Pool<Buffer>, a: Action)
      requires Sound(p, a)
      ensures Next(p, a).bufs.Keys == p.bufs.Keys && |Next(p, a).cores| == |p.cores|
    {
    }

    // ------------------------------------------------------------------------- list operations

    /** Two lists without a common buffer, all of whose buffers are in `pool`. */
    static ghost predicate Separate(list: List, other: List, pool: set<Buffer>)
      reads list, list.nodes, other, other.nodes
    {
      && list != other && list.Valid() && other.Valid()
      && forall i :: 0 <= i < |list.nodes| ==> list.nodes[i] in pool && list.nodes[i] !in other.nodes
    }

    /** `append_blist` of a buffer that is in neither list. */
    static method Enqueue(list: List, ghost other: List, b: Buffer, ghost pool: set<Buffer>)
      requires Separate(list, other, pool) && b in pool && b !in list.nodes && b !in other.nodes
      modifies list, pool`nextBuffer
      ensures list.Valid() && other.Valid() && list.nodes == old(list.nodes) + [b]
    {
      hide List.Valid;
      list.Append(b);
    }

    /** `pop_blist` */
    static method Dequeue(list: List, ghost other: List, ghost pool: set<Buffer>) returns (b: Buffer?)
      requires Separate(list, other, pool)
      modifies list, pool`nextBuffer
      ensures list.Valid() && other.Valid()
      ensures if old(list.nodes) == [] then b == null && list.nodes == []
        else b == old(list.nodes)[0] && list.nodes == old(list.nodes)[1..]
    {
      hide List.Valid;
      b := list.Pop();
    }

    // ------------------------------------------------------------------ sections of gatherSample

    /** `b = per_cpu(lbuffer, proc)` */
    method ReadCurrent(proc: nat) returns (b: Buffer?)
      requires Valid() && CanStep(machine, Gather(proc))
      modifies this`machine
      ensures Valid() && Sound(old(machine), Gather(proc)) && machine == Next(old(machine), Gather(proc))
      ensures machine.bufs.Keys == old(machine.bufs.Keys) && |machine.cores| == |old(machine.cores)|
      ensures b == lbuffer[proc]
      ensures if b == null then machine.cores[proc].at == Popping
        else machine.cores[proc].at.Storing? && machine.cores[proc].at.b == b
    {
      hide Inv, List.Valid;
      Safe(Gather(proc));
      b := lbuffer[proc];
      machine := Next(machine, Gather(proc));
    }

    /** `b = pop_blist(&empty_buffers)` */
    method PopEmpty(proc: nat) returns (b: Buffer?)
      requires Valid() && CanStep(machine, Pop(proc))
      modifies this`machine, emptyBuffers, machine.bufs.Keys`nextBuffer
      ensures Valid() && Sound(old(machine), Pop(proc)) && machine == Next(old(machine), Pop(proc))
      ensures machine.bufs.Keys == old(machine.bufs.Keys) && |machine.cores| == |old(machine.cores)|
      ensures b == null <==> old(emptyBuffers.nodes) == []
      ensures proc < |machine.cores| && CanStep(machine, if b == null then Miss(proc) else Initialize(proc))
      ensures b != null ==> machine.cores[proc].at.Initializing? && machine.cores[proc].at.b == b
    {
      hide Inv, List.Valid;
      Safe(Pop(proc));
      b := Dequeue(emptyBuffers, fullBuffers, machine.bufs.Keys);
      machine := Next(machine, Pop(proc));
    }

    /** `missed_attr.value += 1` */
    method CountMiss(proc: nat)
      requires Valid() && CanStep(machine, Miss(proc))
      modifies this`machine, this`missed
      ensures Valid() && Sound(old(machine), Miss(proc)) && machine == Next(old(machine), Miss(proc))
      ensures machine.bufs.Keys == old(machine.bufs.Keys) && |machine.cores| == |old(machine.cores)|
      ensures machine.cores[proc].at == Idle
    {
      hide Inv, List.Valid;
      Safe(Miss(proc));
      missed := missed + 1;
      machine := Next(machine, Miss(proc));
    }

    /** `initialize_buffer(b)` */
    method InitializeBuffer(proc: nat, b: Buffer)
      requires Valid() && CanStep(machine, Initialize(proc)) && machine.cores[proc].at.b == b
      modifies this`machine, machine.bufs.Keys`core, machine.bufs.Keys`numSamples
      ensures Valid() && Sound(old(machine), Initialize(proc)) && machine == Next(old(machine), Initialize(proc))
      ensures machine.bufs.Keys == old(machine.bufs.Keys) && |machine.cores| == |old(machine.cores)|
      ensures machine.cores[proc].at.Publishing? && machine.cores[proc].at.b == b && b.numSamples == 0
    {
      hide Inv, List.Valid;
      Safe(Initialize(proc));
      b.core := proc;
      b.numSamples := 0;
      machine := Next(machine, Initialize(proc));
    }

    /** `per_cpu(lbuffer, proc) = b` */
    method SetCurrent(proc: nat, b: Buffer)
      requires Valid() && CanStep(machine, Publish(proc)) && machine.cores[proc].at.b == b
      modifies this`machine, lbuffer
      ensures Valid() && Sound(old(machine), Publish(proc))
      ensures machine == Next(old(machine), Publish(proc))
      ensures machine.bufs.Keys == old(machine.bufs.Keys) && |machine.cores| == |old(machine.cores)|
      ensures machine.cores[proc].at.Storing? && machine.cores[proc].at.b == b
    {
      hide Inv, List.Valid;
      Safe(Publish(proc));
      lbuffer[proc] := b;
      machine := Next(machine, Publish(proc));
    }

    /** The next slot gets the reading; counters the hardware does not have keep what the slot held. */
    method StoreSample(proc: nat, b: Buffer, cycles: u64, pid: u64, pmn: seq<u32>)
      requires Valid() && CanStep(machine, Store(proc, Reading(cycles, pid, pmn))) && machine.cores[proc].at.b == b
      modifies this`machine, machine.bufs.Keys`numSamples, machine.bufs.Keys`samples
      ensures Valid() && Sound(old(machine), Store(proc, Reading(cycles, pid, pmn)))
      ensures machine == Next(old(machine), Store(proc, Reading(cycles, pid, pmn)))
      ensures machine.bufs.Keys == old(machine.bufs.Keys) && |machine.cores| == |old(machine.cores)|
      ensures machine.cores[proc].at.Checking? && machine.cores[proc].at.b == b
      ensures CanStep(machine, Check(proc)) && b.numSamples == old(b.numSamples) + 1
      ensures Filled(old(b.samples), b.samples, old(b.numSamples), cycles, pid, pmn)
    {
      hide Inv, List.Valid, Overwrite;
      ghost var a := Store(proc, Reading(cycles, pid, pmn));
      Safe(a);
      var index := b.numSamples;
      b.numSamples := b.numSamples + 1;
      var sample := Fill(b.samples[index], cycles, pid, pmn);
      b.samples := b.samples[index := sample];
      machine := Next(machine, a);
    }

    /** Slot `index` has the cycles, the pid and the counters that were read, and its other counters as before; all
        other slots are as before. */
    static ghost predicate Filled(was: seq<Sample>, now: seq<Sample>, index: nat,
                                  cycles: u64, pid: u64, pmn: seq<u32>)
    {
      && index < |now| == |was| && |pmn| <= NUM_COUNTERS
      && now[index].cycles == cycles && now[index].pid == pid
      && (forall i :: 0 <= i < NUM_COUNTERS ==>
            now[index].counters[i] == if i < |pmn| then pmn[i] else was[index].counters[i])
      && forall j :: 0 <= j < |now| && j != index ==> now[j] == was[j]
    }

    /** The fields of a slot are overwritten one by one. */
    method Fill(slot: Sample, cycles: u64, pid: u64, pmn: seq<u32>) returns (s: Sample)
      requires |pmn| <= NUM_COUNTERS
      ensures s == Overwrite(slot, Reading(cycles, pid, pmn))
      ensures s.cycles == cycles && s.pid == pid
      ensures forall i :: 0 <= i < NUM_COUNTERS ==> s.counters[i] == if i < |pmn| then pmn[i] else slot.counters[i]
    {
      s := slot.(cycles := cycles);
      s := s.(pid := pid);
      for i := 0 to |pmn|
        invariant s.cycles == cycles && s.pid == pid
        invariant s.counters[..i] == pmn[..i] && s.counters[i..] == slot.counters[i..]
      {
        s := s.(counters := s.counters[i := pmn[i]]);
      }
      assert s.counters == s.counters[..|pmn|] + s.counters[|pmn|..];
    }

    /** A buffer with `BUFFER_ENTRIES` samples goes to the full list. */
    method HandOver(proc: nat, b: Buffer) returns (full: bool)
      requires Valid() && CanStep(machine, Check(proc)) && machine.cores[proc].at.b == b
      modifies this`machine, fullBuffers, machine.bufs.Keys`nextBuffer
      ensures Valid() && Sound(old(machine), Check(proc))
      ensures machine == Next(old(machine), Check(proc))
      ensures machine.bufs.Keys == old(machine.bufs.Keys) && |machine.cores| == |old(machine.cores)|
      ensures full <==> b.numSamples >= entries
      ensures full ==> CanStep(machine, Retire(proc))
      ensures proc < |machine.cores| && machine.cores[proc].at == if full then Retiring else Idle
    {
      hide Inv, List.Valid;
      Safe(Check(proc));
      full := b.numSamples >= entries;
      if full {
        Enqueue(fullBuffers, emptyBuffers, b, machine.bufs.Keys);
      }
      machine := Next(machine, Check(proc));
    }

    /** `per_cpu(lbuffer, proc) = NULL` */
    method ClearCurrent(proc: nat, a: Action)
      requires Valid() && CanStep(machine, a) && (a == Retire(proc) || a == Drop(proc))
      modifies this`machine, lbuffer
      ensures Valid() && Sound(old(machine), a) && machine == Next(old(machine), a)
      ensures machine.bufs.Keys == old(machine.bufs.Keys) && |machine.cores| == |old(machine.cores)|
      ensures machine.cores[proc].at == Idle && proc < lbuffer.Length && lbuffer[proc] == null
    {
      hide Inv, List.Valid;
      Safe(a);
      lbuffer[proc] := null;
      machine := Next(machine, a);
    }

    /** The same assignment when there was no buffer. */
    method StaysClear(proc: nat)
      requires Valid() && proc < lbuffer.Length && lbuffer[proc] == null
      modifies lbuffer
      ensures Valid() && lbuffer[proc] == null
    {
      lbuffer[proc] := null;
    }

    // ------------------------------------------------------- sections of startCtrs and my_read

    /** The current buffer, if any, goes back to the empty list. */
    method GiveBack(proc: nat)
      requires Valid() && CanStep(machine, Start(proc)) && proc < lbuffer.Length
      modifies this`machine, emptyBuffers, machine.bufs.Keys`nextBuffer
      ensures Valid() && Sound(old(machine), Start(proc)) && machine == Next(old(machine), Start(proc))
      ensures machine.bufs.Keys == old(machine.bufs.Keys) && |machine.cores| == |old(machine.cores)|
      ensures machine.cores[proc].at == if lbuffer[proc] == null then Idle else Dropping
    {
      hide Inv, List.Valid;
      Safe(Start(proc));
      if lbuffer[proc] != null {
        Enqueue(emptyBuffers, fullBuffers, lbuffer[proc], machine.bufs.Keys);
      }
      machine := Next(machine, Start(proc));
    }

    /** `b = pop_blist(&full_buffers)` when there is one; otherwise the reader goes on waiting. */
    method TakeFull(r: nat) returns (b: Buffer?)
      requires Valid() && r < |machine.readers| && machine.readers[r] == Waiting
      modifies this`machine, fullBuffers, machine.bufs.Keys`nextBuffer
      ensures Valid() && |machine.readers| == |old(machine.readers)|
      ensures machine.bufs.Keys == old(machine.bufs.Keys) && |machine.cores| == |old(machine.cores)|
      ensures if old(machine).full == [] then b == null && machine == old(machine)
        else machine.bufs == old(machine).bufs && Sound(old(machine), Take(r)) && machine == Next(old(machine), Take(r))
             && b == old(machine).full[0] && machine.readers[r].Copying? && machine.readers[r].b == b
    {
      hide Inv, List.Valid;
      if machine.full != [] {
        Safe(Take(r));
      }
      b := Dequeue(fullBuffers, emptyBuffers, machine.bufs.Keys);
      if b != null {
        machine := Next(machine, Take(r));
      }
    }

    /** `copy_to_user`, which may fail; the user gets the buffer as it is. */
    method CopyToUser(r: nat, b: Buffer, succeeds: bool) returns (content: Slots)
      requires Valid() && CanStep(machine, Copy(r, succeeds)) && machine.readers[r].b == b
      modifies this`machine
      ensures |machine.readers| == |old(machine.readers)|
      ensures Valid() && Sound(old(machine), Copy(r, succeeds)) && machine == Next(old(machine), Copy(r, succeeds))
      ensures b in machine.bufs && content == old(machine).bufs[b]
      ensures machine.bufs.Keys == old(machine.bufs.Keys) && |machine.cores| == |old(machine.cores)|
      ensures machine.readers[r].Returning? && machine.readers[r].b == b
    {
      hide Inv, List.Valid;
      Safe(Copy(r, succeeds));
      content := Slots(b.core, b.numSamples, b.samples);
      machine := Next(machine, Copy(r, succeeds));
    }

    /** `append_blist(&empty_buffers, b)` */
    method ReturnBuffer(r: nat, b: Buffer)
      requires Valid() && CanStep(machine, Return(r)) && machine.readers[r].b == b
      modifies this`machine, emptyBuffers, machine.bufs.Keys`nextBuffer
      ensures Valid() && Sound(old(machine), Return(r)) && machine == Next(old(machine), Return(r))
      ensures |machine.readers| == |old(machine.readers)| && machine.readers[r] == Waiting
    {
      hide Inv, List.Valid;
      Safe(Return(r));
      Enqueue(emptyBuffers, fullBuffers, b, machine.bufs.Keys);
      machine := Next(machine, Return(r));
    }

    // --------------------------------------------------------------------- whole functions

    /** One more step of a run. */
    ghost method Record(before: Pool<Buffer>, acts: seq<Action>, q: Pool<Buffer>, a: Action) returns (more: seq<Action>)
      requires RunsTo(before, acts, q) && Sound(q, a) && machine == Next(q, a)
      ensures more == acts + [a] && RunsTo(before, more, machine)
    {
      RunsOn(before, acts, q, a);
      more := acts + [a];
    }

    /** The first half of `gatherSample`: the current buffer, or a fresh one from the empty list. */
    method CurrentBuffer(proc: nat) returns (b: Buffer?, ghost acts: seq<Action>)
      requires Valid() && CanStep(machine, Gather(proc)) && proc < lbuffer.Length
      modifies this`machine, this`missed, lbuffer, emptyBuffers, machine.bufs.Keys
      ensures Valid() && RunsTo(old(machine), acts, machine)
      ensures machine.bufs.Keys == old(machine.bufs.Keys) && proc < |machine.cores| == |old(machine.cores)|
      ensures b == null <==> old(lbuffer[proc]) == null && old(emptyBuffers.nodes) == []
      ensures if b == null then machine.cores[proc].at == Idle
        else
          && machine.cores[proc].at.Storing? && machine.cores[proc].at.b == b
          && b.numSamples == if old(lbuffer[proc]) == null then 0 else old(lbuffer[proc].numSamples)
      ensures acts ==
        if b == null then [Gather(proc), Pop(proc), Miss(proc)]
        else if old(lbuffer[proc]) == null then [Gather(proc), Pop(proc), Initialize(proc), Publish(proc)]
        else [Gather(proc)]
    {
      hide Valid, Next, Sound, RunsTo;
      ghost var start, q := machine, machine;
      RunsNowhere(start);
      b := ReadCurrent(proc);
      acts := Record(start, [], q, Gather(proc));
      if b == null {
        b, acts := FreshBuffer(proc, start, acts);
      }
    }

    /** No buffer is at hand: one is popped, reset and made current, or a miss is counted. */
    method FreshBuffer(proc: nat, ghost start: Pool<Buffer>, ghost before: seq<Action>)
      returns (b: Buffer?, ghost acts: seq<Action>)
      requires Valid() && CanStep(machine, Pop(proc)) && RunsTo(start, before, machine)
      modifies this`machine, this`missed, lbuffer, emptyBuffers, machine.bufs.Keys
      ensures Valid() && RunsTo(start, acts, machine)
      ensures machine.bufs.Keys == old(machine.bufs.Keys) && proc < |machine.cores| == |old(machine.cores)|
      ensures b == null <==> old(emptyBuffers.nodes) == []
      ensures if b == null then machine.cores[proc].at == Idle
        else machine.cores[proc].at.Storing? && machine.cores[proc].at.b == b && b.numSamples == 0
      ensures acts == before + if b == null then [Pop(proc), Miss(proc)]
                               else [Pop(proc), Initialize(proc), Publish(proc)]
    {
      hide Valid, Next, Sound, RunsTo, CanStep;
      ghost var q := machine;
      b := PopEmpty(proc);
      acts := Record(start, before, q, Pop(proc));
      q := machine;
      if b == null {
        CountMiss(proc);
        acts := Record(start, acts, q, Miss(proc));
      } else {
        acts := MakeCurrent(proc, b, start, acts);
      }
    }

    /** A popped buffer is reset and made current. */
    method MakeCurrent(proc: nat, b: Buffer, ghost start: Pool<Buffer>, ghost before: seq<Action>)
      returns (ghost acts: seq<Action>)
      requires Valid() && CanStep(machine, Initialize(proc)) && machine.cores[proc].at.b == b
      requires RunsTo(start, before, machine)
      modifies this`machine, lbuffer, machine.bufs.Keys`core, machine.bufs.Keys`numSamples
      ensures Valid() && RunsTo(start, acts, machine)
      ensures machine.bufs.Keys == old(machine.bufs.Keys) && |machine.cores| == |old(machine.cores)|
      ensures machine.cores[proc].at.Storing? && machine.cores[proc].at.b == b && b.numSamples == 0
      ensures acts == before + [Initialize(proc), Publish(proc)]
    {
      hide Valid, Next, Sound, RunsTo;
      ghost var q := machine;
      InitializeBuffer(proc, b);
      acts := Record(start, before, q, Initialize(proc));
      q := machine;
      SetCurrent(proc, b);
      acts := Record(start, acts, q, Publish(proc));
    }

    lemma AtStoring(proc: nat, reading: Reading)
      requires Valid() && proc < |machine.cores| && machine.cores[proc].at.Storing? && |reading.counters| == numCtrs
      requires numCtrs <= NUM_COUNTERS
      ensures CanStep(machine, Store(proc, reading))
    {
      hide Inv;
    }

    /** The second half of `gatherSample`: the sample is stored, and the buffer handed over when it is full. */
    method StoreAndCheck(proc: nat, b: Buffer, cycles: u64, pid: u64, pmn: seq<u32>,
                         ghost start: Pool<Buffer>, ghost before: seq<Action>)
      returns (ghost acts: seq<Action>)
      requires Valid() && CanStep(machine, Store(proc, Reading(cycles, pid, pmn))) && machine.cores[proc].at.b == b
      requires RunsTo(start, before, machine)
      modifies this`machine, lbuffer, fullBuffers, machine.bufs.Keys
      ensures Valid() && RunsTo(start, acts, machine)
      ensures proc < |machine.cores| && machine.cores[proc].at == Idle
      ensures acts == before + [Store(proc, Reading(cycles, pid, pmn)), Check(proc)]
                      + if old(b.numSamples) + 1 >= entries then [Retire(proc)] else []
    {
      hide Valid, Next, Sound, RunsTo, CanStep;
      ghost var q := machine;
      StoreSample(proc, b, cycles, pid, pmn);
      acts := Record(start, before, q, Store(proc, Reading(cycles, pid, pmn)));
      acts := CheckFull(proc, b, start, acts);
    }

    /** The end of `gatherSample`. */
    method CheckFull(proc: nat, b: Buffer, ghost start: Pool<Buffer>, ghost before: seq<Action>)
      returns (ghost acts: seq<Action>)
      requires Valid() && CanStep(machine, Check(proc)) && machine.cores[proc].at.b == b
      requires RunsTo(start, before, machine)
      modifies this`machine, lbuffer, fullBuffers, machine.bufs.Keys`nextBuffer
      ensures Valid() && RunsTo(start, acts, machine)
      ensures proc < |machine.cores| && machine.cores[proc].at == Idle
      ensures acts == before + [Check(proc)] + if b.numSamples >= entries then [Retire(proc)] else []
    {
      hide Valid, Next, Sound, RunsTo, CanStep;
      ghost var q := machine;
      var full := HandOver(proc, b);
      acts := Record(start, before, q, Check(proc));
      if full {
        q := machine;
        ClearCurrent(proc, Retire(proc));
        acts := Record(start, acts, q, Retire(proc));
      }
    }

    /** `gatherSample`, entered in any state of the others, is exactly this run of the machine: it takes the current
        buffer or a fresh one, stores the reading and hands the buffer over when it is full, or, when there is neither a
        current nor an empty buffer, counts a miss. */
    method GatherSample(proc: nat, cycles: u64, pid: u64, pmn: seq<u32>) returns (ghost acts: seq<Action>)
      requires Valid() && CanStep(machine, Gather(proc)) && proc < lbuffer.Length
      requires |pmn| == numCtrs <= NUM_COUNTERS
      modifies this`machine, this`missed, lbuffer, emptyBuffers, fullBuffers, machine.bufs.Keys
      ensures Valid() && RunsTo(old(machine), acts, machine)
      ensures proc < |machine.cores| && machine.cores[proc].at == Idle
      ensures acts ==
        if old(lbuffer[proc]) == null && old(emptyBuffers.nodes) == [] then [Gather(proc), Pop(proc), Miss(proc)]
        else
          var used := if old(lbuffer[proc]) == null then 0 else old(lbuffer[proc].numSamples);
          (if old(lbuffer[proc]) == null then [Gather(proc), Pop(proc), Initialize(proc), Publish(proc)]
           else [Gather(proc)])
          + [Store(proc, Reading(cycles, pid, pmn)), Check(proc)]
          + if used + 1 >= entries then [Retire(proc)] else []
    {
      hide Valid, Next, Sound, RunsTo, CanStep;
      ghost var start := machine;
      var b;
      b, acts := CurrentBuffer(proc);
      if b != null {
        AtStoring(proc, Reading(cycles, pid, pmn));
        acts := StoreAndCheck(proc, b, cycles, pid, pmn, start, acts);
      }
    }

    static lemma RunsNowhere(p: Pool<Buffer>)
      ensures RunsTo(p, [], p)
    {
    }

    /** `startCtrs`, as far as the pool goes. */
    method StartCtrs(proc: nat) returns (ghost acts: seq<Action>)
      requires Valid() && CanStep(machine, Start(proc)) && proc < lbuffer.Length
      modifies this`machine, lbuffer, emptyBuffers, machine.bufs.Keys
      ensures Valid() && RunsTo(old(machine), acts, machine)
      ensures proc < |machine.cores| && machine.cores[proc].at == Idle && lbuffer[proc] == null
      ensures acts == if old(lbuffer[proc]) == null then [Start(proc)] else [Start(proc), Drop(proc)]
    {
      hide Valid, Next, Sound, RunsTo;
      ghost var start := machine;
      RunsNowhere(start);
      var current := lbuffer[proc];
      GiveBack(proc);
      acts := Record(start, [], start, Start(proc));
      if current != null {
        ghost var q := machine;
        ClearCurrent(proc, Drop(proc));
        acts := Record(start, acts, q, Drop(proc));
      } else {
        StaysClear(proc);
      }
    }

    /** `my_read` after its checks of `count` and `shutdown`: `None` when there is nothing to read yet or the wait is
        interrupted. The buffer goes back to the empty list whether or not it could be copied. */
    method MyRead(r: nat, copyWorks: bool) returns (content: Option<Slots>, ghost acts: seq<Action>)
      requires Valid() && r < |machine.readers| && machine.readers[r] == Waiting
      modifies this`machine, emptyBuffers, fullBuffers, machine.bufs.Keys
      ensures Valid() && RunsTo(old(machine), acts, machine)
      ensures r < |machine.readers| && machine.readers[r] == Waiting
      ensures if old(machine).full == [] then content == None && acts == []
        else
          && acts == [Take(r), Copy(r, copyWorks), Return(r)]
          && old(machine).full[0] in old(machine).bufs
          && content == if copyWorks then Some(old(machine).bufs[old(machine).full[0]]) else None
    {
      hide Valid, Next, Sound, RunsTo;
      ghost var start := machine;
      RunsNowhere(start);
      var b := TakeFull(r);
      if b == null {
        return None, [];
      }
      acts := Record(start, [], start, Take(r));
      ghost var q := machine;
      var copied := CopyToUser(r, b, copyWorks);
      acts := Record(start, acts, q, Copy(r, copyWorks));
      q := machine;
      ReturnBuffer(r, b);
      acts := Record(start, acts, q, Return(r));
      content := if copyWorks then Some(copied) else None;
    }

    // ----------------------------------------------------------------------------- unloading

    /** `while ((b = pop_blist(list))) kfree(b);` */
    method Drain(list: List, ghost pool: set<Buffer>) returns (freed: seq<Buffer>)
      requires list.Valid() && forall b :: b in list.nodes ==> b in pool
      modifies list, pool`nextBuffer
      ensures list.Valid() && list.nodes == [] && freed == old(list.nodes)
    {
      hide List.Valid;
      freed := [];
      while true
        invariant list.Valid() && old(list.nodes) == freed + list.nodes
        invariant forall b :: b in list.nodes ==> b in pool
        decreases |list.nodes|
      {
        var b := list.Pop();
        if b == null {
          break;
        }
        freed := freed + [b];
      }
    }

    /** Nobody is inside `gatherSample`, `startCtrs` or `my_read`. */
    ghost predicate Quiescent()
      reads this
    {
      && (forall c :: 0 <= c < |machine.cores| ==> machine.cores[c].at == Idle)
      && forall r :: 0 <= r < |machine.readers| ==> machine.readers[r] == Waiting
    }

    /** Buffers that are each in one of three places are in only one of them. */
    static lemma Apart(a: seq<Buffer>, b: seq<Buffer>, held: multiset<Buffer>, all: set<Buffer>)
      requires multiset(a) + multiset(b) + held == multiset(all)
      ensures forall i :: 0 <= i < |a| ==> a[i] in all && a[i] !in b
      ensures forall i :: 0 <= i < |b| ==> b[i] in all && b[i] !in a
      ensures forall x :: x in held ==> x in all && x !in a && x !in b
    {
      forall x | x in a || x in b || x in held
        ensures x in all && !(x in a && x in b) && !(x in a && x in held) && !(x in b && x in held)
      {
        assert x in a ==> x in multiset(a);
        assert x in b ==> x in multiset(b);
        assert (multiset(a) + multiset(b) + held)[x] <= 1;
      }
    }

    /** `cores` is what is left in the cores' hands while `cleanup_module` empties them. */
    ghost predicate Left(cores: seq<Core<Buffer>>)
      reads this, emptyBuffers, emptyBuffers.nodes, fullBuffers, fullBuffers.nodes, lbuffer
    {
      && emptyBuffers != fullBuffers && emptyBuffers.Valid() && fullBuffers.Valid()
      && |cores| == lbuffer.Length
      && (forall c :: 0 <= c < |cores| ==> cores[c].at == Idle && cores[c].lbuffer == Pointer(lbuffer[c]))
      && multiset(emptyBuffers.nodes) + multiset(fullBuffers.nodes) + CoresHeld(cores) == multiset(machine.bufs.Keys)
    }

    /** `cores` after the buffer in the hands of an idle core was taken from it. */
    static ghost function Released(cores: seq<Core<Buffer>>, proc: nat): seq<Core<Buffer>>
      requires proc < |cores|
    {
      cores[proc := cores[proc].(lbuffer := None)]
    }

    /** A buffer that goes from an idle core to the end of a list was in neither list, and then each is in one place. */
    static lemma Passed(empty: seq<Buffer>, full: seq<Buffer>, cores: seq<Core<Buffer>>, proc: nat, b: Buffer,
                        all: set<Buffer>)
      requires multiset(empty) + multiset(full) + CoresHeld(cores) == multiset(all)
      requires proc < |cores| && cores[proc].at == Idle && cores[proc].lbuffer == Some(b)
      ensures b in all && b !in empty && b !in full
      ensures forall i :: 0 <= i < |full| ==> full[i] in all && full[i] !in empty
      ensures multiset(empty) + multiset(full + [b]) + CoresHeld(Released(cores, proc)) == multiset(all)
    {
      hide CoresHeld;
      CoreHolds(cores, proc);
      CoresHeldUpdate(cores, proc, cores[proc].(lbuffer := None));
      AppendMultiset(full, b);
      assert b in CoresHeld(cores);
      Apart(empty, full, CoresHeld(cores), all);
      Moved(multiset(empty), multiset(full), CoresHeld(Released(cores, proc)), b);
    }

    static lemma Moved(e: multiset<Buffer>, f: multiset<Buffer>, held: multiset<Buffer>, b: Buffer)
      ensures e + (f + multiset{b}) + held == e + f + (held + multiset{b})
    {
    }

    method FlushOne(proc: nat, ghost cores: seq<Core<Buffer>>) returns (ghost left: seq<Core<Buffer>>)
      requires Left(cores) && proc < lbuffer.Length
      modifies fullBuffers, lbuffer, machine.bufs.Keys`nextBuffer
      ensures Left(left) && lbuffer[proc] == null
      ensures forall c :: 0 <= c < lbuffer.Length && c != proc ==> lbuffer[c] == old(lbuffer[c])
    {
      hide CoresHeld, List.Valid;
      left := cores;
      var b := lbuffer[proc];
      if b != null {
        Passed(emptyBuffers.nodes, fullBuffers.nodes, cores, proc, b, machine.bufs.Keys);
        Enqueue(fullBuffers, emptyBuffers, b, machine.bufs.Keys);
        lbuffer[proc] := null;
        left := Released(cores, proc);
      }
    }

    /** The current buffers go to the full list, core by core. */
    method FlushCurrent()
      requires Valid() && Quiescent()
      modifies fullBuffers, lbuffer, machine.bufs.Keys`nextBuffer
      ensures emptyBuffers != fullBuffers && emptyBuffers.Valid() && fullBuffers.Valid()
      ensures forall c :: 0 <= c < lbuffer.Length ==> lbuffer[c] == null
      ensures multiset(emptyBuffers.nodes) + multiset(fullBuffers.nodes) + multiset{} == multiset(machine.bufs.Keys)
    {
      ghost var cores := machine.cores;
      StartLeft();
      for proc := 0 to lbuffer.Length
        invariant Left(cores)
        invariant forall c :: 0 <= c < proc ==> lbuffer[c] == null
      {
        hide Left;
        cores := FlushOne(proc, cores);
      }
      NoCores(cores);
    }

    lemma StartLeft()
      requires Valid() && Quiescent()
      ensures Left(machine.cores)
    {
      NoReaders(machine.readers);
      assert Owned(machine);
    }

    static lemma {:induction false} NoReaders(readers: seq<Reader<Buffer>>)
      requires forall r :: 0 <= r < |readers| ==> readers[r] == Waiting
      ensures ReadersHeld(readers) == multiset{}
    {
      AllWaiting(readers);
    }

    static lemma {:induction false} NoCores(cores: seq<Core<Buffer>>)
      requires forall c :: 0 <= c < |cores| ==> cores[c].at == Idle && cores[c].lbuffer == None
      ensures CoresHeld(cores) == multiset{}
    {
      if cores != [] {
        NoCores(cores[..|cores| - 1]);
      }
    }

    /** `cleanup_module`, from any state of a run in which nobody is inside the pool's functions: it ends, and frees
        every buffer that was ever allocated exactly once. */
    method CleanupModule() returns (freed: seq<Buffer>)
      requires Valid() && Quiescent()
      modifies emptyBuffers, fullBuffers, lbuffer, machine.bufs.Keys`nextBuffer
      ensures multiset(freed) == multiset(machine.bufs.Keys)
      ensures emptyBuffers.nodes == [] && fullBuffers.nodes == []
      ensures forall c :: 0 <= c < lbuffer.Length ==> lbuffer[c] == null
    {
      hide Valid, Quiescent, List.Valid;
      FlushCurrent();
      Apart(emptyBuffers.nodes, fullBuffers.nodes, multiset{}, machine.bufs.Keys);
      freed := Drain(emptyBuffers, set b | b in emptyBuffers.nodes);
      var more := Drain(fullBuffers, set b | b in fullBuffers.nodes);
      freed := freed + more;
    }
  }
}
