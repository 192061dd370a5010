/** What holds in every reachable state of the buffer pool. */
module PoolTheorems {
  import opened SampleBuffer
  import opened Options
  import opened PoolMachine
  import opened PoolInvariant
  import opened PoolSteps

  /** Ownership: whatever the interleaving, each buffer is in exactly one place, counting the empty list, the full
      list, the cores' hands and the readers' hands. */
  lemma {:induction false} OnePlace<B>(p: Pool<B>, acts: seq<Action>, q: Pool<B>, b: B)
    requires Initial(p) && RunsTo(p, acts, q) && b in p.bufs
    ensures multiset(q.empty)[b] + multiset(q.full)[b] + CoresHeld(q.cores)[b] + ReadersHeld(q.readers)[b] == 1
  {
    hide Held, ReaderHeld, Next;
    ReachableInv(p, acts, q);
    BuffersStay(p, acts, q);
    assert Everywhere(q)[b] == 1;
  }

  /** In every reachable state, whoever touches a buffer's fields next has it alone, and the step is sound: the buffer
      exists, and a store finds a free slot. */
  lemma {:induction false} ExclusiveAccess<B>(p: Pool<B>, acts: seq<Action>, q: Pool<B>, a: Action)
    requires Initial(p) && RunsTo(p, acts, q) && CanStep(q, a)
    ensures Sound(q, a)
    ensures Accessed(q, a).Some? ==>
      var b := Accessed(q, a).value;
      && b !in q.empty && b !in q.full
      && (forall c :: 0 <= c < |q.cores| && b in Held(q.cores[c]) ==> !a.Copy? && !a.Return? && c == a.c)
      && (forall r :: 0 <= r < |q.readers| && b in ReaderHeld(q.readers[r]) ==> (a.Copy? || a.Return?) && r == a.r)
  {
    hide Held, ReaderHeld, Accessed, Next, Sound;
    ReachableInv(p, acts, q);
    InvIsStructured(q);
    AccessIsExclusive(q, a);
  }

  lemma {:induction false} BuffersStay<B>(p: Pool<B>, acts: seq<Action>, q: Pool<B>)
    requires RunsTo(p, acts, q)
    ensures q.bufs.Keys == p.bufs.Keys && q.entries == p.entries && q.width == p.width
    ensures |q.cores| == |p.cores| && |q.readers| == |p.readers|
    decreases |acts|
  {
    if acts != [] {
      BuffersStay(Next(p, acts[0]), acts[1..], q);
    }
  }

  lemma {:induction false} RunsOn<B>(p: Pool<B>, acts: seq<Action>, q: Pool<B>, a: Action)
    requires RunsTo(p, acts, q) && CanStep(q, a) && Sound(q, a)
    ensures RunsTo(p, acts + [a], Next(q, a))
    decreases |acts|
  {
    hide CanStep, Sound, Next;
    if acts == [] {
      assert (acts + [a])[1..] == [];
    } else {
      RunsOn(Next(p, acts[0]), acts[1..], q, a);
      assert (acts + [a])[1..] == acts[1..] + [a];
    }
  }

  lemma Extend(p: Pool<int>, acts: seq<Action>, q: Pool<int>, a: Action) returns (more: seq<Action>, r: Pool<int>)
    requires RunsTo(p, acts, q) && CanStep(q, a) && Sound(q, a)
    ensures RunsTo(p, more, r) && r == Next(q, a)
  {
    RunsOn(p, acts, q, a);
    more, r := acts + [a], Next(q, a);
  }

  /** A pool whose only buffer, number 7, has one slot. */
  ghost function Small(width: nat, cores: seq<Core<int>>, reader: Reader<int>, empty: seq<int>, full: seq<int>,
                       x: Slots, ds: seq<Delivery>, copied: seq<Copied>): Pool<int>
  {
    Pool(1, width, empty, full, map[7 := x], cores, [reader], ds, copied, [], 0)
  }

  const IDLE: Core<int> := Core(Idle, None, [], 0, 0)

  /** An idle core takes the buffer and makes it current. */
  lemma Acquire(w: nat, p: Pool<int>, acts: seq<Action>, cores: seq<Core<int>>, c: nat, x: Slots, ds: seq<Delivery>,
                copied: seq<Copied>)
    returns (more: seq<Action>)
    requires c < |cores| && cores[c] == IDLE && |x.samples| == 1 && x.num <= 1
    requires RunsTo(p, acts, Small(w, cores, Waiting, [7], [], x, ds, copied))
    ensures RunsTo(p, more, Small(w, cores[c := Core(Storing(7), Some(7), [], 1, 0)], Waiting, [], [],
                                  x.(core := c, num := 0), ds, copied))
  {
    hide RunsTo;
    var q;
    more, q := Extend(p, acts, Small(w, cores, Waiting, [7], [], x, ds, copied), Gather(c));
    assert q == Small(w, cores[c := Core(Popping, None, [], 1, 0)], Waiting, [7], [], x, ds, copied);
    more, q := Extend(p, more, q, Pop(c));
    assert q == Small(w, cores[c := Core(Initializing(7), None, [], 1, 0)], Waiting, [], [], x, ds, copied);
    more, q := Extend(p, more, q, Initialize(c));
    assert q == Small(w, cores[c := Core(Publishing(7), None, [], 1, 0)], Waiting, [], [],
                      x.(core := c, num := 0), ds, copied);
    more, q := Extend(p, more, q, Publish(c));
    assert q == Small(w, cores[c := Core(Storing(7), Some(7), [], 1, 0)], Waiting, [], [],
                      x.(core := c, num := 0), ds, copied);
  }

  /** The core fills the only slot. */
  lemma Fill(w: nat, p: Pool<int>, acts: seq<Action>, cores: seq<Core<int>>, x: Slots, reading: Reading, s: Sample)
    returns (more: seq<Action>)
    requires |cores| > 0 && cores[0] == Core(Storing(7), Some(7), [], 1, 0) && |x.samples| == 1 && x.num == 0
    requires |reading.counters| == w <= NUM_COUNTERS && s == Overwrite(x.samples[0], reading)
    requires RunsTo(p, acts, Small(w, cores, Waiting, [], [], x, [], []))
    ensures RunsTo(p, more, Small(w, cores[0 := Core(Checking(7), Some(7), [Stored(s)], 1, 0)], Waiting, [], [],
                                  Slots(x.core, 1, [s]), [], []))
  {
    hide RunsTo, Overwrite;
    var q;
    more, q := Extend(p, acts, Small(w, cores, Waiting, [], [], x, [], []), Store(0, reading));
    assert x.samples[0 := s] == [s] && [] + [Stored(s)] == [Stored(s)];
    assert map[7 := x][7 := Slots(x.core, 1, [s])] == map[7 := Slots(x.core, 1, [s])];
    assert q == Small(w, cores[0 := Core(Checking(7), Some(7), [Stored(s)], 1, 0)], Waiting, [], [],
                      Slots(x.core, 1, [s]), [], []);
  }

  /** The core hands the full buffer over, but does not clear its pointer yet. */
  lemma HandOver(w: nat, p: Pool<int>, acts: seq<Action>, cores: seq<Core<int>>, core: nat, s: Sample)
    returns (more: seq<Action>)
    requires |cores| > 0 && cores[0] == Core(Checking(7), Some(7), [Stored(s)], 1, 0)
    requires RunsTo(p, acts, Small(w, cores, Waiting, [], [], Slots(core, 1, [s]), [], []))
    ensures RunsTo(p, more, Small(w, cores[0 := Core(Retiring, Some(7), [Stored(s)], 1, 0)], Waiting, [], [7],
                                  Slots(core, 1, [s]), [], []))
  {
    hide RunsTo;
    var q;
    more, q := Extend(p, acts, Small(w, cores, Waiting, [], [], Slots(core, 1, [s]), [], []), Check(0));
    assert [] + [7] == [7];
  }

  /** A reader takes the buffer, copies it and returns it. */
  lemma ReadOut(w: nat, p: Pool<int>, acts: seq<Action>, cores: seq<Core<int>>, x: Slots)
    returns (more: seq<Action>, ds: seq<Delivery>, copied: seq<Copied>)
    requires |x.samples| == 1 && x.num == 1
    requires RunsTo(p, acts, Small(w, cores, Waiting, [], [7], x, [], []))
    ensures RunsTo(p, more, Small(w, cores, Waiting, [7], [], x, ds, copied))
  {
    hide RunsTo;
    ds := [Content(x)];
    copied := [Copied(0, Content(x))];
    var q;
    more, q := Extend(p, acts, Small(w, cores, Waiting, [], [7], x, [], []), Take(0));
    assert q == Small(w, cores, Copying(7, 0), [], [], x, ds, []);
    more, q := Extend(p, more, q, Copy(0, true));
    assert q == Small(w, cores, Returning(7), [], [], x, ds, copied);
    more, q := Extend(p, more, q, Return(0));
    assert q == Small(w, cores, Waiting, [7], [], x, ds, copied);
  }

  lemma StartsSmall(p: Pool<int>, w: nat)
    requires p == Small(w, [IDLE, IDLE], Waiting, [7], [], Slots(0, 0, [ZERO_SAMPLE]), [], []) && w <= NUM_COUNTERS
    ensures Initial(p) && RunsTo(p, [], p)
  {
    assert multiset(p.empty) == multiset(p.bufs.Keys);
  }

  /** The window between handing a full buffer over and clearing `lbuffer` is real: with one buffer and two cores,
      core 1 can be about to store into the buffer core 0 still points to. */
  lemma {:induction false} StaleWindowIsReal(reading: Reading) returns (p: Pool<int>, acts: seq<Action>, q: Pool<int>)
    requires |reading.counters| <= NUM_COUNTERS
    ensures Initial(p) && RunsTo(p, acts, q)
    ensures |q.cores| == 2 && q.cores[0].at == Retiring && q.cores[1].at.Storing?
    ensures q.cores[0].lbuffer == q.cores[1].lbuffer == Some(q.cores[1].at.b)
  {
    var w, x, s := |reading.counters|, Slots(0, 0, [ZERO_SAMPLE]), Overwrite(ZERO_SAMPLE, reading);
    p := Small(w, [IDLE, IDLE], Waiting, [7], [], x, [], []);
    StartsSmall(p, w);
    hide RunsTo, CanStep, Sound, Next, Initial, Overwrite;
    acts := Acquire(w, p, [], [IDLE, IDLE], 0, x, [], []);
    var cores := [Core(Storing(7), Some(7), [], 1, 0), IDLE];
    assert [IDLE, IDLE][0 := cores[0]] == cores;
    acts := Fill(w, p, acts, cores, x, reading, s);
    cores := cores[0 := Core(Checking(7), Some(7), [Stored(s)], 1, 0)];
    acts := HandOver(w, p, acts, cores, 0, s);
    cores := cores[0 := Core(Retiring, Some(7), [Stored(s)], 1, 0)];
    var ds, copied;
    acts, ds, copied := ReadOut(w, p, acts, cores, Slots(0, 1, [s]));
    acts := Acquire(w, p, acts, cores, 1, Slots(0, 1, [s]), ds, copied);
    cores := cores[1 := Core(Storing(7), Some(7), [], 1, 0)];
    q := Small(w, cores, Waiting, [], [], Slots(1, 0, [s]), ds, copied);
  }

  lemma {:induction false} OfCoreAppend(a: seq<Delivery>, b: seq<Delivery>, c: nat)
    ensures OfCore(a + b, c) == OfCore(a, c) + OfCore(b, c)
  {
    if b == [] {
      assert a + b == a;
    } else {
      OfCoreAppend(a, b[..|b| - 1], c);
      assert (a + b)[..|a + b| - 1] == a + b[..|b| - 1];
    }
  }

  /** Conservation, in order: for each core, the samples readers took, those waiting in the full list and those in
      the partly filled buffer are together the samples the core stored and did not give up; every call of
      `gatherSample` stored a sample or counted a miss, or is still under way. */
  lemma {:induction false} Conservation<B>(p: Pool<B>, acts: seq<Action>, q: Pool<B>, c: nat)
    requires Initial(p) && RunsTo(p, acts, q) && c < |q.cores|
    ensures Structured(q)
    ensures OfCore(q.delivered, c) + OfCore(Contents(q.entries, q.bufs, q.full), c) + Partial(q.bufs, q.cores[c])
         == Kept(q.cores[c].log)
    ensures q.cores[c].calls
         == StoredCount(q.cores[c].log) + q.cores[c].misses + if Pending(q.cores[c].at) then 1 else 0
    ensures q.missed == Misses(q.cores)
  {
    ReachableInv(p, acts, q);
    OfCoreAppend(q.delivered, Contents(q.entries, q.bufs, q.full), c);
  }

  /** Fill discipline: what is delivered, and what waits to be, has exactly `entries` samples; a core stores into a
      buffer of its own with a free slot; a successful copy is what was popped. */
  lemma {:induction false} FillDiscipline<B>(p: Pool<B>, acts: seq<Action>, q: Pool<B>)
    requires Initial(p) && RunsTo(p, acts, q)
    ensures forall i :: 0 <= i < |q.delivered| ==> FullBuffer(p.entries, |p.cores|, q.delivered[i])
    ensures forall i :: 0 <= i < |q.full| ==>
      q.full[i] in q.bufs && q.bufs[q.full[i]].num == p.entries && q.bufs[q.full[i]].core < |p.cores|
    ensures forall c :: 0 <= c < |q.cores| && q.cores[c].at.Storing? ==>
      var b := q.cores[c].at.b;
      b in q.bufs && q.bufs[b].core == c && q.bufs[b].num < p.entries
    ensures forall i :: 0 <= i < |q.copied| ==>
      q.copied[i].ticket < |q.delivered| && q.delivered[q.copied[i].ticket] == q.copied[i].content
  {
    hide Next, Kept, OfCore, Partial, Counted, ReaderOk, Held, ReaderHeld;
    ReachableInv(p, acts, q);
    BuffersStay(p, acts, q);
    var history := History(q);
    forall i | 0 <= i < |q.delivered|
      ensures FullBuffer(p.entries, |p.cores|, q.delivered[i])
    {
      assert history[i] == q.delivered[i];
    }
    forall i | 0 <= i < |q.full|
      ensures q.bufs[q.full[i]].num == p.entries && q.bufs[q.full[i]].core < |p.cores|
    {
      assert history[|q.delivered| + i] == Content(q.bufs[q.full[i]]);
      assert FullBuffer(q.entries, |q.cores|, history[|q.delivered| + i]);
    }
    forall c | 0 <= c < |q.cores| && q.cores[c].at.Storing?
      ensures Tagged(q.bufs, q.cores[c].at.b, c) && q.bufs[q.cores[c].at.b].num < p.entries
    {
      assert CoreOk(q.entries, q.bufs, q.cores[c], c);
    }
  }

  // ----------------------------------------------------------- counters that do not exist

  /** The counters the hardware does not have are zero. */
  ghost predicate Padded(width: nat, s: Sample) {
    forall i :: width <= i < NUM_COUNTERS ==> s.counters[i] == 0
  }

  ghost predicate AllPadded(width: nat, ss: seq<Sample>) {
    forall i :: 0 <= i < |ss| ==> Padded(width, ss[i])
  }

  ghost predicate EventPadded(width: nat, e: Event) {
    e.Stored? ==> Padded(width, e.s)
  }

  ghost predicate LogPadded(width: nat, log: seq<Event>) {
    forall i :: 0 <= i < |log| ==> EventPadded(width, log[i])
  }

  /** Everything that was ever a slot of a buffer is padded with zeros. */
  ghost predicate PoolPadded<B>(p: Pool<B>) {
    && p.width <= NUM_COUNTERS
    && (forall b :: b in p.bufs ==> AllPadded(p.width, p.bufs[b].samples))
    && (forall i :: 0 <= i < |p.delivered| ==> AllPadded(p.width, p.delivered[i].samples))
    && (forall i :: 0 <= i < |p.copied| ==> AllPadded(p.width, p.copied[i].content.samples))
    && forall c :: 0 <= c < |p.cores| ==> LogPadded(p.width, p.cores[c].log)
  }

  lemma OverwriteStaysPadded(width: nat, ss: seq<Sample>, k: nat, reading: Reading)
    requires AllPadded(width, ss) && k < |ss| && |reading.counters| == width <= NUM_COUNTERS
    ensures Padded(width, Overwrite(ss[k], reading)) && AllPadded(width, ss[k := Overwrite(ss[k], reading)])
  {
    assert Padded(width, ss[k]);
  }

  lemma LogGrows(width: nat, log: seq<Event>, e: Event)
    requires LogPadded(width, log) && EventPadded(width, e)
    ensures LogPadded(width, log + [e])
  {
  }

  lemma ContentPadded(width: nat, x: Slots)
    requires AllPadded(width, x.samples) && x.num <= |x.samples|
    ensures AllPadded(width, Content(x).samples)
  {
  }

  lemma StorePadded<B>(p: Pool<B>, c: nat, reading: Reading)
    requires PoolPadded(p) && Sound(p, Store(c, reading))
    ensures PoolPadded(Next(p, Store(c, reading)))
  {
    hide AllPadded, LogPadded, Overwrite;
    var x := p.bufs[p.cores[c].at.b];
    OverwriteStaysPadded(p.width, x.samples, x.num, reading);
    LogGrows(p.width, p.cores[c].log, Stored(Overwrite(x.samples[x.num], reading)));
  }

  lemma StartPadded<B>(p: Pool<B>, c: nat)
    requires PoolPadded(p) && Sound(p, Start(c))
    ensures PoolPadded(Next(p, Start(c)))
  {
    hide AllPadded, LogPadded;
    if p.cores[c].lbuffer.Some? {
      LogGrows(p.width, p.cores[c].log, GivenUp(p.bufs[p.cores[c].lbuffer.value].num));
    }
  }

  lemma ReadPadded<B>(p: Pool<B>, a: Action)
    requires PoolPadded(p) && Sound(p, a) && (a.Take? || a.Copy? || a.Return?)
    ensures PoolPadded(Next(p, a))
  {
    hide AllPadded, LogPadded, Content;
    if a.Take? {
      ContentPadded(p.width, p.bufs[p.full[0]]);
    } else if a.Copy? {
      ContentPadded(p.width, p.bufs[p.readers[a.r].b]);
    }
  }

  lemma OtherPadded<B>(p: Pool<B>, a: Action)
    requires PoolPadded(p) && Sound(p, a) && !a.Store? && !a.Start? && !a.Take? && !a.Copy? && !a.Return?
    ensures PoolPadded(Next(p, a))
  {
    hide AllPadded, LogPadded;
  }

  lemma StepKeepsPadding<B>(p: Pool<B>, a: Action)
    requires PoolPadded(p) && Sound(p, a)
    ensures PoolPadded(Next(p, a))
  {
    hide PoolPadded, Next, Sound;
    match a
    case Store(c, reading) => StorePadded(p, c, reading);
    case Start(c) => StartPadded(p, c);
    case Take(r) => ReadPadded(p, a);
    case Copy(r, _) => ReadPadded(p, a);
    case Return(r) => ReadPadded(p, a);
    case _ => OtherPadded(p, a);
  }

  lemma {:induction false} RunKeepsPadding<B>(p: Pool<B>, acts: seq<Action>, q: Pool<B>)
    requires PoolPadded(p) && RunsTo(p, acts, q)
    ensures PoolPadded(q)
    decreases |acts|
  {
    hide PoolPadded, Next, Sound, CanStep;
    if acts != [] {
      StepKeepsPadding(p, acts[0]);
      RunKeepsPadding(Next(p, acts[0]), acts[1..], q);
    }
  }

  /** The number of counters is fixed and buffers are zero at first, so although a store leaves the other counters of a
      slot alone and slots are used again and again, no sample ever has anything but zeros there. */
  lemma {:induction false} Padding<B>(p: Pool<B>, acts: seq<Action>, q: Pool<B>)
    requires Initial(p) && RunsTo(p, acts, q)
    ensures q.width == p.width
    ensures forall i :: 0 <= i < |q.delivered| ==> AllPadded(p.width, q.delivered[i].samples)
    ensures forall i :: 0 <= i < |q.copied| ==> AllPadded(p.width, q.copied[i].content.samples)
    ensures forall b :: b in q.bufs ==> AllPadded(p.width, q.bufs[b].samples)
  {
    hide RunsTo;
    assert forall b :: b in p.bufs ==> AllPadded(p.width, p.bufs[b].samples);
    BuffersStay(p, acts, q);
    RunKeepsPadding(p, acts, q);
  }

  /** How many readers hold a buffer. */
  ghost function Busy<B>(readers: seq<Reader<B>>): nat {
    if readers == [] then 0 else Busy(readers[..|readers| - 1]) + if readers[|readers| - 1].Waiting? then 0 else 1
  }

  lemma {:induction false} ReadersHoldOneEach<B>(readers: seq<Reader<B>>)
    ensures |ReadersHeld(readers)| == Busy(readers) <= |readers|
  {
    if readers != [] {
      ReadersHoldOneEach(readers[..|readers| - 1]);
    }
  }

  lemma HoldsOneAtMost<B>(core: Core<B>)
    ensures |Held(core)| <= 1
  {
  }

  lemma {:induction false} CoresHoldOneEach<B>(cores: seq<Core<B>>)
    ensures |CoresHeld(cores)| <= |cores|
  {
    hide Held;
    if cores != [] {
      CoresHoldOneEach(cores[..|cores| - 1]);
      HoldsOneAtMost(cores[|cores| - 1]);
    }
  }

  lemma {:induction false} OneHoldsNothing<B>(cores: seq<Core<B>>, c: nat)
    requires c < |cores| && Held(cores[c]) == multiset{}
    ensures |CoresHeld(cores)| <= |cores| - 1
  {
    hide Held;
    var last := |cores| - 1;
    if c < last {
      OneHoldsNothing(cores[..last], c);
      HoldsOneAtMost(cores[last]);
    } else {
      CoresHoldOneEach(cores[..last]);
    }
  }

  /** Pool exhaustion: when a core finds no empty buffer, all buffers but one for each other core and one for each
      busy reader are waiting in the full list. */
  lemma {:induction false} Exhaustion<B>(p: Pool<B>, acts: seq<Action>, q: Pool<B>, c: nat)
    requires Initial(p) && RunsTo(p, acts, q)
    requires c < |q.cores| && q.cores[c].at == Popping && q.empty == []
    ensures |q.full| >= |p.bufs| - (|p.cores| - 1) - Busy(q.readers)
    ensures |q.full| >= |p.bufs| - (|p.cores| - 1) - |p.readers|
  {
    ReachableInv(p, acts, q);
    BuffersStay(p, acts, q);
    OneHoldsNothing(q.cores, c);
    ReadersHoldOneEach(q.readers);
    assert |Everywhere(q)| == |multiset(q.bufs.Keys)|;
    assert |q.bufs.Keys| == |p.bufs.Keys|;
  }
}
