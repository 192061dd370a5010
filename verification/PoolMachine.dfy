/** The kernel's buffer pool as a step system: any number of cores and readers, one step per spinlock section
    or per access to a buffer, interleaved in any way. `B` is the type of buffer pointers. */
module PoolMachine {
  import opened Bytes
  import opened SampleBuffer
  import opened Options

  /** A `struct buffer` without its link: all slots, of which the first `num` are in use. */
  datatype Slots = Slots(core: nat, num: nat, samples: seq<Sample>)

  /** Where a core is inside `gatherSample` or `startCtrs`.
      `Popping`, `Initializing`, `Publishing`: no buffer was at hand, one is popped, reset and made current;
      `Storing`, `Checking`: before and after the sample is stored;
      `Retiring`: the full buffer is in the full list, but `lbuffer` still points to it;
      `Missing`: there was no empty buffer and the miss is not counted yet;
      `Dropping`: `startCtrs` put the buffer back into the empty list, but `lbuffer` still points to it. */
  datatype Place<B> =
    | Idle | Popping | Initializing(b: B) | Publishing(b: B) | Storing(b: B) | Checking(b: B)
    | Retiring | Missing | Dropping

  /** What happened to a core's samples: one was stored, or the latest `n` were given up. */
  datatype Event = Stored(s: Sample) | GivenUp(n: nat)

  datatype Core<B> = Core(at: Place<B>, lbuffer: Option<B>, log: seq<Event>, calls: nat, misses: nat)

  /** A buffer's content as a reader popped it. */
  datatype Delivery = Delivery(core: nat, samples: seq<Sample>)

  /** Where a reader is inside `my_read`; `ticket` says which delivery it popped. */
  datatype Reader<B> = Waiting | Copying(b: B, ticket: nat) | Returning(b: B)

  datatype Copied = Copied(ticket: nat, content: Delivery)

  /** What a core reads from its hardware: as many counters as there are. */
  datatype Reading = Reading(cycles: u64, pid: u64, counters: seq<u32>)

  /** `entries` is the number of slots of a buffer, `width` the number of hardware counters; `failed` holds the tickets
      of the deliveries that could not be copied to user space. */
  datatype Pool<B> = Pool(
    entries: nat, width: nat, empty: seq<B>, full: seq<B>, bufs: map<B, Slots>,
    cores: seq<Core<B>>, readers: seq<Reader<B>>,
    delivered: seq<Delivery>, copied: seq<Copied>, failed: seq<nat>, missed: nat)

  datatype Action =
    | Gather(c: nat) | Pop(c: nat) | Miss(c: nat) | Initialize(c: nat) | Publish(c: nat)
    | Store(c: nat, reading: Reading) | Check(c: nat) | Retire(c: nat)
    | Start(c: nat) | Drop(c: nat)
    | Take(r: nat) | Copy(r: nat, succeeds: bool) | Return(r: nat)

  /** A slot after a reading was written into it: counters the hardware does not have keep the slot's values. */
  ghost function Overwrite(slot: Sample, reading: Reading): Sample
    requires |reading.counters| <= NUM_COUNTERS
  {
    Sample(reading.cycles, reading.pid, reading.counters + slot.counters[|reading.counters|..])
  }

  ghost function Content(x: Slots): Delivery
    requires x.num <= |x.samples|
  {
    Delivery(x.core, x.samples[..x.num])
  }

  // ----------------------------------------------------------------------------- steps

  ghost predicate CanStep<B>(p: Pool<B>, a: Action) {
    match a
    case Gather(c) => c < |p.cores| && p.cores[c].at == Idle
    case Pop(c) => c < |p.cores| && p.cores[c].at == Popping
    case Miss(c) => c < |p.cores| && p.cores[c].at == Missing
    case Initialize(c) => c < |p.cores| && p.cores[c].at.Initializing?
    case Publish(c) => c < |p.cores| && p.cores[c].at.Publishing?
    case Store(c, x) => c < |p.cores| && p.cores[c].at.Storing? && |x.counters| == p.width <= NUM_COUNTERS
    case Check(c) => c < |p.cores| && p.cores[c].at.Checking?
    case Retire(c) => c < |p.cores| && p.cores[c].at == Retiring
    case Start(c) => c < |p.cores| && p.cores[c].at == Idle
    case Drop(c) => c < |p.cores| && p.cores[c].at == Dropping
    case Take(r) => r < |p.readers| && p.readers[r] == Waiting && p.full != []
    case Copy(r, _) => r < |p.readers| && p.readers[r].Copying?
    case Return(r) => r < |p.readers| && p.readers[r].Returning?
  }

  /** The buffer whose fields a step reads or writes, apart from links inside the lists. */
  ghost function Accessed<B>(p: Pool<B>, a: Action): Option<B>
    requires CanStep(p, a)
  {
    match a
    case Initialize(c) => Some(p.cores[c].at.b)
    case Store(c, _) => Some(p.cores[c].at.b)
    case Check(c) => Some(p.cores[c].at.b)
    case Start(c) => p.cores[c].lbuffer
    case Copy(r, _) => Some(p.readers[r].b)
    case Return(r) => Some(p.readers[r].b)
    case _ => None
  }

  /** Every accessed buffer exists and a store finds a free slot. */
  ghost predicate Sound<B>(p: Pool<B>, a: Action) {
    && CanStep(p, a)
    && (Accessed(p, a).Some? ==>
          var b := Accessed(p, a).value;
          b in p.bufs && p.bufs[b].num <= |p.bufs[b].samples|
          && (a.Store? ==> p.bufs[b].num < |p.bufs[b].samples|))
    && (a.Take? ==> p.full[0] in p.bufs && p.bufs[p.full[0]].num <= |p.bufs[p.full[0]].samples|)
  }

  ghost function Next<B>(p: Pool<B>, a: Action): Pool<B>
    requires Sound(p, a)
  {
    match a
    case Gather(c) =>
      var core := p.cores[c];
      At(p, c, core.(at := if core.lbuffer == None then Popping else Storing(core.lbuffer.value),
                     calls := core.calls + 1))
    case Pop(c) =>
      if p.empty == [] then At(p, c, p.cores[c].(at := Missing))
      else At(p, c, p.cores[c].(at := Initializing(p.empty[0]))).(empty := p.empty[1..])
    case Miss(c) =>
      At(p, c, p.cores[c].(at := Idle, misses := p.cores[c].misses + 1)).(missed := p.missed + 1)
    case Initialize(c) =>
      var b := p.cores[c].at.b;
      At(p, c, p.cores[c].(at := Publishing(b))).(bufs := p.bufs[b := p.bufs[b].(core := c, num := 0)])
    case Publish(c) =>
      var b := p.cores[c].at.b;
      At(p, c, p.cores[c].(at := Storing(b), lbuffer := Some(b)))
    case Store(c, reading) =>
      var b := p.cores[c].at.b;
      var x := p.bufs[b];
      var s := Overwrite(x.samples[x.num], reading);
      At(p, c, p.cores[c].(at := Checking(b), log := p.cores[c].log + [Stored(s)])).(
        bufs := p.bufs[b := x.(num := x.num + 1, samples := x.samples[x.num := s])])
    case Check(c) =>
      var b := p.cores[c].at.b;
      if p.bufs[b].num >= p.entries then At(p, c, p.cores[c].(at := Retiring)).(full := p.full + [b])
      else At(p, c, p.cores[c].(at := Idle))
    case Retire(c) => At(p, c, p.cores[c].(at := Idle, lbuffer := None))
    case Start(c) =>
      var core := p.cores[c];
      if core.lbuffer == None then p
      else
        var b := core.lbuffer.value;
        At(p, c, core.(at := Dropping, log := core.log + [GivenUp(p.bufs[b].num)])).(empty := p.empty + [b])
    case Drop(c) => At(p, c, p.cores[c].(at := Idle, lbuffer := None))
    case Take(r) =>
      var b := p.full[0];
      p.(full := p.full[1..], readers := p.readers[r := Copying(b, |p.delivered|)],
         delivered := p.delivered + [Content(p.bufs[b])])
    case Copy(r, succeeds) =>
      var b := p.readers[r].b;
      p.(readers := p.readers[r := Returning(b)],
         copied := if succeeds then p.copied + [Copied(p.readers[r].ticket, Content(p.bufs[b]))] else p.copied,
         failed := if succeeds then p.failed else p.failed + [p.readers[r].ticket])
    case Return(r) =>
      p.(empty := p.empty + [p.readers[r].b], readers := p.readers[r := Waiting])
  }

  ghost function At<B>(p: Pool<B>, c: nat, core: Core<B>): Pool<B>
    requires c < |p.cores|
  {
    p.(cores := p.cores[c := core])
  }

  ghost predicate Zeroed(x: Slots) {
    forall i :: 0 <= i < |x.samples| ==> x.samples[i] == ZERO_SAMPLE
  }

  ghost predicate Initial<B>(p: Pool<B>) {
    && p.entries > 0 && p.width <= NUM_COUNTERS && p.full == [] && multiset(p.empty) == multiset(p.bufs.Keys)
    && (forall b :: b in p.bufs ==> |p.bufs[b].samples| == p.entries && p.bufs[b].num == 0 && Zeroed(p.bufs[b]))
    && (forall c :: 0 <= c < |p.cores| ==> p.cores[c] == Core(Idle, None, [], 0, 0))
    && (forall r :: 0 <= r < |p.readers| ==> p.readers[r] == Waiting)
    && p.delivered == [] && p.copied == [] && p.failed == [] && p.missed == 0
  }

  // ------------------------------------------------------------------------- ownership

  /** The buffers in a core's hands. A stale `lbuffer` does not count. */
  ghost function Held<B>(core: Core<B>): multiset<B> {
    match core.at
    case Idle => if core.lbuffer.Some? then multiset{core.lbuffer.value} else multiset{}
    case Initializing(b) => multiset{b}
    case Publishing(b) => multiset{b}
    case Storing(b) => multiset{b}
    case Checking(b) => multiset{b}
    case _ => multiset{}
  }

  ghost function ReaderHeld<B>(reader: Reader<B>): multiset<B> {
    if reader.Waiting? then multiset{} else multiset{reader.b}
  }

  ghost function CoresHeld<B>(cores: seq<Core<B>>): multiset<B> {
    if cores == [] then multiset{} else CoresHeld(cores[..|cores| - 1]) + Held(cores[|cores| - 1])
  }

  ghost function ReadersHeld<B>(readers: seq<Reader<B>>): multiset<B> {
    if readers == [] then multiset{} else ReadersHeld(readers[..|readers| - 1]) + ReaderHeld(readers[|readers| - 1])
  }

  /** Every place a buffer can be in, with multiplicities. */
  ghost function Everywhere<B>(p: Pool<B>): multiset<B> {
    multiset(p.empty) + multiset(p.full) + CoresHeld(p.cores) + ReadersHeld(p.readers)
  }

  lemma AddToBoth<B>(a: multiset<B>, b: multiset<B>, x: multiset<B>, y: multiset<B>, extra: multiset<B>)
    requires a + x == b + y
    ensures a + extra + x == b + extra + y
  {
    assert a + extra + x == (a + x) + extra;
    assert b + extra + y == (b + y) + extra;
  }

  lemma {:induction false} CoresHeldUpdate<B>(cores: seq<Core<B>>, c: nat, core: Core<B>)
    requires c < |cores|
    ensures CoresHeld(cores[c := core]) + Held(cores[c]) == CoresHeld(cores) + Held(core)
  {
    hide Held;
    var last, updated := |cores| - 1, cores[c := core];
    if c < last {
      CoresHeldUpdate(cores[..last], c, core);
      assert updated[..last] == cores[..last][c := core];
      assert updated[last] == cores[last];
      AddToBoth(CoresHeld(updated[..last]), CoresHeld(cores[..last]), Held(cores[c]), Held(core), Held(cores[last]));
    } else {
      assert updated[..last] == cores[..last];
      AddToBoth(CoresHeld(cores[..last]), CoresHeld(cores[..last]), multiset{}, multiset{},
                Held(core) + Held(cores[last]));
    }
  }

  lemma {:induction false} ReadersHeldUpdate<B>(readers: seq<Reader<B>>, r: nat, reader: Reader<B>)
    requires r < |readers|
    ensures ReadersHeld(readers[r := reader]) + ReaderHeld(readers[r]) == ReadersHeld(readers) + ReaderHeld(reader)
  {
    hide ReaderHeld;
    var last, updated := |readers| - 1, readers[r := reader];
    if r < last {
      ReadersHeldUpdate(readers[..last], r, reader);
      assert updated[..last] == readers[..last][r := reader];
      assert updated[last] == readers[last];
      AddToBoth(ReadersHeld(updated[..last]), ReadersHeld(readers[..last]), ReaderHeld(readers[r]), ReaderHeld(reader),
                ReaderHeld(readers[last]));
    } else {
      assert updated[..last] == readers[..last];
      AddToBoth(ReadersHeld(readers[..last]), ReadersHeld(readers[..last]), multiset{}, multiset{},
                ReaderHeld(reader) + ReaderHeld(readers[last]));
    }
  }

  lemma {:induction false} CoreHolds<B>(cores: seq<Core<B>>, c: nat)
    requires c < |cores|
    ensures Held(cores[c]) <= CoresHeld(cores)
  {
    hide Held;
    var last := |cores| - 1;
    if c < last {
      CoreHolds(cores[..last], c);
    }
  }

  lemma {:induction false} TwoCoresHold<B>(cores: seq<Core<B>>, c: nat, d: nat)
    requires c < |cores| && d < |cores| && c != d
    ensures Held(cores[c]) + Held(cores[d]) <= CoresHeld(cores)
  {
    hide Held;
    var last := |cores| - 1;
    if c == last {
      CoreHolds(cores[..last], d);
    } else if d == last {
      CoreHolds(cores[..last], c);
    } else {
      TwoCoresHold(cores[..last], c, d);
    }
  }

  lemma {:induction false} ReaderHolds<B>(readers: seq<Reader<B>>, r: nat)
    requires r < |readers|
    ensures ReaderHeld(readers[r]) <= ReadersHeld(readers)
  {
    hide ReaderHeld;
    var last := |readers| - 1;
    if r < last {
      ReaderHolds(readers[..last], r);
    }
  }

  lemma {:induction false} TwoReadersHold<B>(readers: seq<Reader<B>>, r: nat, q: nat)
    requires r < |readers| && q < |readers| && r != q
    ensures ReaderHeld(readers[r]) + ReaderHeld(readers[q]) <= ReadersHeld(readers)
  {
    hide ReaderHeld;
    var last := |readers| - 1;
    if r == last {
      ReaderHolds(readers[..last], q);
    } else if q == last {
      ReaderHolds(readers[..last], r);
    } else {
      TwoReadersHold(readers[..last], r, q);
    }
  }

  /** Each buffer is in exactly one place: the multiplicities add up to one. */
  ghost predicate Owned<B>(p: Pool<B>) {
    Everywhere(p) == multiset(p.bufs.Keys)
  }

  lemma AppendMultiset<T>(s: seq<T>, x: T)
    ensures multiset(s + [x]) == multiset(s) + multiset{x}
  {
  }

  lemma PopMultiset<T>(s: seq<T>)
    requires s != []
    ensures multiset(s) == multiset(s[1..]) + multiset{s[0]}
  {
    assert s == [s[0]] + s[1..];
  }

  /** A buffer in a core's hands is nowhere else. */
  lemma CoreOwnsAlone<B>(p: Pool<B>, c: nat, b: B)
    requires Owned(p) && c < |p.cores| && b in Held(p.cores[c])
    ensures b in p.bufs && b !in p.empty && b !in p.full
    ensures forall d :: 0 <= d < |p.cores| && d != c ==> b !in Held(p.cores[d])
    ensures forall r :: 0 <= r < |p.readers| ==> b !in ReaderHeld(p.readers[r])
  {
    hide Held, ReaderHeld;
    CoreHolds(p.cores, c);
    assert Everywhere(p)[b] <= 1;
    forall d | 0 <= d < |p.cores| && d != c
      ensures b !in Held(p.cores[d])
    {
      TwoCoresHold(p.cores, c, d);
    }
    forall r | 0 <= r < |p.readers|
      ensures b !in ReaderHeld(p.readers[r])
    {
      ReaderHolds(p.readers, r);
    }
  }

  /** A buffer in a reader's hands is nowhere else. */
  lemma ReaderOwnsAlone<B>(p: Pool<B>, r: nat, b: B)
    requires Owned(p) && r < |p.readers| && b in ReaderHeld(p.readers[r])
    ensures b in p.bufs && b !in p.empty && b !in p.full
    ensures forall c :: 0 <= c < |p.cores| ==> b !in Held(p.cores[c])
    ensures forall q :: 0 <= q < |p.readers| && q != r ==> b !in ReaderHeld(p.readers[q])
  {
    hide Held, ReaderHeld;
    ReaderHolds(p.readers, r);
    assert Everywhere(p)[b] <= 1;
    forall c | 0 <= c < |p.cores|
      ensures b !in Held(p.cores[c])
    {
      CoreHolds(p.cores, c);
    }
    forall q | 0 <= q < |p.readers| && q != r
      ensures b !in ReaderHeld(p.readers[q])
    {
      TwoReadersHold(p.readers, r, q);
    }
  }

  /** A buffer in a list is there once and in nobody's hands. */
  lemma ListOwnsAlone<B>(p: Pool<B>, b: B)
    requires Owned(p) && (b in p.empty || b in p.full)
    ensures b in p.bufs && multiset(p.empty)[b] + multiset(p.full)[b] == 1
    ensures forall c :: 0 <= c < |p.cores| ==> b !in Held(p.cores[c])
    ensures forall r :: 0 <= r < |p.readers| ==> b !in ReaderHeld(p.readers[r])
  {
    hide Held, ReaderHeld;
    assert b in multiset(p.empty) || b in multiset(p.full);
    assert Everywhere(p)[b] <= 1;
    forall c | 0 <= c < |p.cores|
      ensures b !in Held(p.cores[c])
    {
      CoreHolds(p.cores, c);
    }
    forall r | 0 <= r < |p.readers|
      ensures b !in ReaderHeld(p.readers[r])
    {
      ReaderHolds(p.readers, r);
    }
  }
}
