/** Every step of the buffer pool keeps the invariant; consequences for every run. */
module PoolSteps {
  import opened SampleBuffer
  import opened Options
  import opened PoolMachine
  import opened PoolInvariant

  // ------------------------------------------------------------------ steps of a core

  /** Steps that neither change a buffer nor append to the full list. */
  lemma QuietStep<B>(p: Pool<B>, q: Pool<B>, c: nat)
    requires Inv(p) && c < |p.cores| == |q.cores|
    requires q == p.(cores := p.cores[c := q.cores[c]], empty := q.empty, missed := q.missed)
    requires multiset(q.empty) + Held(q.cores[c]) == multiset(p.empty) + Held(p.cores[c])
    requires CoreOk(p.entries, p.bufs, q.cores[c], c) && Balanced(p.bufs, History(p), q.cores[c], c)
    requires q.missed + p.cores[c].misses == p.missed + q.cores[c].misses
    ensures Inv(q) && History(q) == History(p)
  {
    hide CoreOk, Partial, Held, Balanced, Misses, Owned, AllFull, CopiesMatch, ReaderOk;
    var waiting := Contents(p.entries, p.bufs, p.full);
    assert waiting + [] == waiting && History(p) + [] == History(p);
    assert multiset(q.empty) + multiset(q.full) + Held(q.cores[c])
        == multiset(q.empty) + Held(q.cores[c]) + multiset(p.full);
    assert multiset(p.empty) + multiset(p.full) + Held(p.cores[c])
        == multiset(p.empty) + Held(p.cores[c]) + multiset(p.full);
    CoreStep(p, q, c, []);
  }

  lemma GatherKeeps<B>(p: Pool<B>, c: nat)
    requires Inv(p) && Sound(p, Gather(c))
    ensures Inv(Next(p, Gather(c)))
  {
    hide Kept, OfCore, Structured, StoredCount, Inv, History, Owned;
    AtCore(p, c);
    QuietStep(p, Next(p, Gather(c)), c);
  }

  /** The facts of the invariant about one core. */
  lemma AtCore<B>(p: Pool<B>, c: nat)
    requires Inv(p) && c < |p.cores|
    ensures WellShaped(p.entries, p.bufs) && Owned(p) && Structured(p)
    ensures CoreOk(p.entries, p.bufs, p.cores[c], c) && Balanced(p.bufs, History(p), p.cores[c], c)
  {
  }

  lemma PopKeeps<B>(p: Pool<B>, c: nat)
    requires Inv(p) && Sound(p, Pop(c))
    ensures Inv(Next(p, Pop(c)))
  {
    if p.empty == [] {
      FindsNone(p, c);
    } else {
      FindsOne(p, c);
    }
  }

  lemma FindsNone<B>(p: Pool<B>, c: nat)
    requires Inv(p) && Sound(p, Pop(c)) && p.empty == []
    ensures Inv(Next(p, Pop(c)))
  {
    hide Kept, OfCore, Structured, StoredCount, Inv, History, Owned;
    AtCore(p, c);
    QuietStep(p, Next(p, Pop(c)), c);
  }

  lemma FindsOne<B>(p: Pool<B>, c: nat)
    requires Inv(p) && Sound(p, Pop(c)) && p.empty != []
    ensures Inv(Next(p, Pop(c)))
  {
    hide Kept, OfCore, Structured, StoredCount, Inv, History, Owned;
    AtCore(p, c);
    PopMultiset(p.empty);
    EmptyListed(p, p.empty[0]);
    QuietStep(p, Next(p, Pop(c)), c);
  }

  lemma EmptyListed<B>(p: Pool<B>, b: B)
    requires Owned(p) && b in p.empty
    ensures b in p.bufs
  {
    ListOwnsAlone(p, b);
  }

  lemma MissKeeps<B>(p: Pool<B>, c: nat)
    requires Inv(p) && Sound(p, Miss(c))
    ensures Inv(Next(p, Miss(c)))
  {
    hide Kept, OfCore, Structured, StoredCount, Inv, History, Owned;
    AtCore(p, c);
    QuietStep(p, Next(p, Miss(c)), c);
  }

  lemma PublishKeeps<B>(p: Pool<B>, c: nat)
    requires Inv(p) && Sound(p, Publish(c))
    ensures Inv(Next(p, Publish(c)))
  {
    hide Kept, OfCore, Structured, StoredCount, Inv, History, Owned;
    AtCore(p, c);
    QuietStep(p, Next(p, Publish(c)), c);
  }

  lemma RetireKeeps<B>(p: Pool<B>, c: nat)
    requires Inv(p) && Sound(p, Retire(c))
    ensures Inv(Next(p, Retire(c)))
  {
    hide Kept, OfCore, Structured, StoredCount, Inv, History, Owned;
    AtCore(p, c);
    QuietStep(p, Next(p, Retire(c)), c);
  }

  lemma DropKeeps<B>(p: Pool<B>, c: nat)
    requires Inv(p) && Sound(p, Drop(c))
    ensures Inv(Next(p, Drop(c)))
  {
    hide Kept, OfCore, Structured, StoredCount, Inv, History, Owned;
    AtCore(p, c);
    QuietStep(p, Next(p, Drop(c)), c);
  }

  /** From `p` to `q`, core `c` gives up what is in its own buffer, and nothing that is in the history. */
  ghost predicate GivesUp<B>(p: Pool<B>, q: Pool<B>, c: nat)
    requires Structured(p) && Structured(q) && c < |p.cores|
  {
    && History(q) == History(p) && c < |q.cores| && Partial(q.bufs, q.cores[c]) == []
    && Kept(q.cores[c].log) == OfCore(History(p), c)
    && Kept(p.cores[c].log) == Kept(q.cores[c].log) + Partial(p.bufs, p.cores[c])
  }

  /** Restarting the counters gives up exactly the samples of the partly filled buffer: afterwards the core wants only
      what is in the history, which is as it was. */
  lemma {:induction false} StartKeeps<B>(p: Pool<B>, c: nat)
    requires Inv(p) && Sound(p, Start(c))
    ensures Inv(Next(p, Start(c))) && GivesUp(p, Next(p, Start(c)), c)
  {
    hide Kept, OfCore, Structured, StoredCount, Inv, History, Owned;
    AtCore(p, c);
    var core := p.cores[c];
    var kept := Kept(core.log);
    assert OfCore(History(p), c) + [] == OfCore(History(p), c);
    if core.lbuffer.Some? {
      var b := core.lbuffer.value;
      AppendMultiset(p.empty, b);
      KeptSnoc(core.log, GivenUp(p.bufs[b].num));
      assert kept[..|kept| - p.bufs[b].num] == OfCore(History(p), c);
      QuietStep(p, Next(p, Start(c)), c);
    }
  }

  /** A step of core `c` that changes only the buffer it holds. */
  lemma BufferStep<B>(p: Pool<B>, q: Pool<B>, c: nat, b: B, y: Slots)
    requires Inv(p) && c < |p.cores| == |q.cores| && b in Held(p.cores[c])
    requires q == p.(cores := p.cores[c := q.cores[c]], bufs := p.bufs[b := y])
    requires Held(q.cores[c]) == Held(p.cores[c]) && |y.samples| == p.entries && y.num <= p.entries
    requires CoreOk(p.entries, p.bufs[b := y], q.cores[c], c)
    requires Balanced(p.bufs[b := y], History(p), q.cores[c], c)
    requires p.cores[c].misses == q.cores[c].misses
    ensures Inv(q) && History(q) == History(p)
  {
    hide CoreOk, Partial, Held, Balanced, Misses, Owned, AllFull, CopiesMatch, ReaderOk;
    OthersKeep(p, c, b, y);
    var waiting := Contents(p.entries, p.bufs, p.full);
    assert waiting + [] == waiting && History(p) + [] == History(p);
    CoreStep(p, q, c, []);
  }

  lemma InitializeKeeps<B>(p: Pool<B>, c: nat)
    requires Inv(p) && Sound(p, Initialize(c))
    ensures Inv(Next(p, Initialize(c)))
  {
    hide Kept, OfCore, Structured, StoredCount, Inv, History, Owned;
    AtCore(p, c);
    var b := p.cores[c].at.b;
    BufferStep(p, Next(p, Initialize(c)), c, b, p.bufs[b].(core := c, num := 0));
  }

  /** The slot a store writes, as it is afterwards. */
  ghost function Written<B>(p: Pool<B>, c: nat, reading: Reading): Sample
    requires Sound(p, Store(c, reading))
  {
    var x := p.bufs[p.cores[c].at.b];
    Overwrite(x.samples[x.num], reading)
  }

  /** From `p` to `q`, a sample is added to those core `c` wants and to those in its buffer; the history is as
      it was. */
  ghost predicate Adds<B>(p: Pool<B>, q: Pool<B>, c: nat, s: Sample)
    requires Structured(p) && Structured(q) && c < |p.cores|
  {
    && History(q) == History(p) && c < |q.cores|
    && Partial(q.bufs, q.cores[c]) == Partial(p.bufs, p.cores[c]) + [s]
    && Kept(q.cores[c].log) == Kept(p.cores[c].log) + [s]
  }

  /** The stored sample becomes the last of its core's samples and of the buffer the core is filling. */
  lemma {:induction false} StoreKeeps<B>(p: Pool<B>, c: nat, reading: Reading)
    requires Inv(p) && Sound(p, Store(c, reading))
    ensures Inv(Next(p, Store(c, reading))) && Adds(p, Next(p, Store(c, reading)), c, Written(p, c, reading))
  {
    hide Kept, OfCore, Structured, StoredCount, Inv, History, Owned, Overwrite;
    AtCore(p, c);
    var b := p.cores[c].at.b;
    var x := p.bufs[b];
    var s := Overwrite(x.samples[x.num], reading);
    var y := x.(num := x.num + 1, samples := x.samples[x.num := s]);
    KeptSnoc(p.cores[c].log, Stored(s));
    assert y.samples[..y.num] == x.samples[..x.num] + [s];
    assert OfCore(History(p), c) + x.samples[..x.num] + [s] == OfCore(History(p), c) + y.samples[..y.num];
    BufferStep(p, Next(p, Store(c, reading)), c, b, y);
  }

  /** From `p` to `q`, what is in the buffer of core `c` moves into the history, with the buffer itself at the end of
      the full list, when it holds `entries` samples, and stays where it is when it does not. */
  ghost predicate HandsOver<B>(p: Pool<B>, q: Pool<B>, c: nat)
    requires Sound(p, Check(c)) && Structured(p) && Structured(q)
  {
    var b, own := p.cores[c].at.b, Partial(p.bufs, p.cores[c]);
    && c < |q.cores|
    && if p.bufs[b].num < p.entries then
         q.full == p.full && History(q) == History(p) && Partial(q.bufs, q.cores[c]) == own
       else
         q.full == p.full + [b] && History(q) == History(p) + [Delivery(c, own)] && Partial(q.bufs, q.cores[c]) == []
  }

  /** A buffer goes to the full list, and thereby into the history, when, and only when, it holds `entries` samples. */
  lemma {:induction false} CheckKeeps<B>(p: Pool<B>, c: nat)
    requires Inv(p) && Sound(p, Check(c))
    ensures Inv(Next(p, Check(c))) && HandsOver(p, Next(p, Check(c)), c)
  {
    hide Kept, OfCore, Structured, StoredCount, Inv, History, Owned;
    AtCore(p, c);
    var b := p.cores[c].at.b;
    if p.bufs[b].num < p.entries {
      QuietStep(p, Next(p, Check(c)), c);
    } else {
      FullKeeps(p, c);
    }
  }

  lemma ContentsSnoc<B>(entries: nat, bufs: map<B, Slots>, bs: seq<B>, b: B)
    requires WellShaped(entries, bufs) && b in bufs && forall i :: 0 <= i < |bs| ==> bs[i] in bufs
    ensures forall i :: 0 <= i < |bs + [b]| ==> (bs + [b])[i] in bufs
    ensures Contents(entries, bufs, bs + [b]) == Contents(entries, bufs, bs) + [Content(bufs[b])]
  {
  }

  lemma FullKeeps<B>(p: Pool<B>, c: nat)
    requires Inv(p) && Sound(p, Check(c)) && p.bufs[p.cores[c].at.b].num >= p.entries
    ensures var q := Next(p, Check(c));
      Inv(q) && History(q) == History(p) + [Content(p.bufs[p.cores[c].at.b])]
  {
    hide Kept, OfCore, StoredCount, Inv, History, Owned, Contents, ReaderOk, AllFull, CopiesMatch;
    AtCore(p, c);
    var b, q := p.cores[c].at.b, Next(p, Check(c));
    var d := Content(p.bufs[b]);
    ContentsSnoc(p.entries, p.bufs, p.full, b);
    AppendMultiset(p.full, b);
    OfCoreSnoc(History(p), d, c);
    Handed(multiset(p.empty), multiset(p.full), multiset(q.full), b);
    assert p.bufs[b].samples[..p.bufs[b].num] == d.samples && |d.samples| == p.entries;
    hide WellShaped;
    assert OfCore(History(p) + [d], c) + [] == OfCore(History(p) + [d], c);
    CoreStep(p, q, c, [d]);
  }

  lemma Handed<B>(empty: multiset<B>, full: multiset<B>, more: multiset<B>, b: B)
    requires more == full + multiset{b}
    ensures empty + more + multiset{} == empty + full + multiset{b}
  {
  }

  // ---------------------------------------------------------------- steps of a reader

  /** Steps of a reader leave the cores, the buffers and the history alone. */
  lemma ReaderStep<B>(p: Pool<B>, q: Pool<B>, r: nat)
    requires Inv(p) && r < |p.readers| == |q.readers|
    requires q == p.(empty := q.empty, full := q.full, readers := p.readers[r := q.readers[r]],
                     delivered := q.delivered, copied := q.copied, failed := q.failed)
    requires multiset(q.empty) + multiset(q.full) + ReaderHeld(q.readers[r])
          == multiset(p.empty) + multiset(p.full) + ReaderHeld(p.readers[r])
    requires forall i :: 0 <= i < |q.full| ==> q.full[i] in q.bufs
    requires q.delivered + Contents(q.entries, q.bufs, q.full) == History(p) && p.delivered <= q.delivered
    requires ReaderOk(q.bufs, q.delivered, q.readers[r])
    requires CopiesMatch(q.delivered, q.copied)
    ensures Inv(q) && History(q) == History(p)
  {
    hide Balanced, CoreOk, Partial, Held, ReaderOk, ReaderHeld, Contents, Owned, AllFull, Misses, CopiesMatch;
    ReaderStepOwned(p, q, r);
    forall k | 0 <= k < |q.readers|
      ensures ReaderOk(q.bufs, q.delivered, q.readers[k])
    {
      if k != r {
        MoreDelivered(p.bufs, p.delivered, q.delivered, p.readers[k]);
      }
    }
    assert Structured(q) && History(q) == History(p);
  }

  /** From `p` to `q`, the deliveries grow by the oldest entry of the history that was not taken yet. */
  ghost predicate Takes<B>(p: Pool<B>, q: Pool<B>)
    requires Structured(p) && Structured(q)
  {
    && History(q) == History(p) && |p.delivered| < |History(p)|
    && q.delivered == p.delivered + [History(p)[|p.delivered|]]
  }

  /** What a reader takes is the oldest entry of the history that was not taken yet. */
  lemma {:induction false} TakeKeeps<B>(p: Pool<B>, r: nat)
    requires Inv(p) && Sound(p, Take(r))
    ensures Inv(Next(p, Take(r))) && Takes(p, Next(p, Take(r)))
  {
    hide Balanced, CoreOk, Partial, Held, Owned, AllFull, Misses;
    var q := Next(p, Take(r));
    PopMultiset(p.full);
    assert multiset(q.empty) + multiset(q.full) + ReaderHeld(q.readers[r])
        == multiset(p.empty) + multiset(p.full) + ReaderHeld(p.readers[r]);
    assert Contents(p.entries, p.bufs, p.full)
        == [Content(p.bufs[p.full[0]])] + Contents(p.entries, p.bufs, p.full[1..]);
    ReaderStep(p, q, r);
  }

  lemma CopyKeeps<B>(p: Pool<B>, r: nat, succeeds: bool)
    requires Inv(p) && Sound(p, Copy(r, succeeds))
    ensures Inv(Next(p, Copy(r, succeeds)))
  {
    hide Balanced, CoreOk, Partial, Held, Owned, AllFull, Misses, Contents;
    assert ReaderOk(p.bufs, p.delivered, p.readers[r]);
    ReaderStep(p, Next(p, Copy(r, succeeds)), r);
  }

  lemma ReturnKeeps<B>(p: Pool<B>, r: nat)
    requires Inv(p) && Sound(p, Return(r))
    ensures Inv(Next(p, Return(r)))
  {
    hide Balanced, CoreOk, Partial, Held, Owned, AllFull, Misses, Contents;
    var q := Next(p, Return(r));
    AppendMultiset(p.empty, p.readers[r].b);
    assert multiset(q.empty) + multiset(q.full) + ReaderHeld(q.readers[r])
        == multiset(p.empty) + multiset(p.full) + ReaderHeld(p.readers[r]);
    ReaderStep(p, q, r);
  }

  // -------------------------------------------------------------------------- runs

  /** Every step any core or reader can take is sound and keeps the invariant. */
  lemma {:induction false} StepKeeps<B>(p: Pool<B>, a: Action)
    requires Inv(p) && CanStep(p, a)
    ensures Sound(p, a) && Inv(Next(p, a))
  {
    hide Inv, Next, Sound, Structured;
    InvIsStructured(p);
    AccessIsExclusive(p, a);
    match a
    case Gather(c) => GatherKeeps(p, c);
    case Pop(c) => PopKeeps(p, c);
    case Miss(c) => MissKeeps(p, c);
    case Initialize(c) => InitializeKeeps(p, c);
    case Publish(c) => PublishKeeps(p, c);
    case Store(c, reading) => StoreKeeps(p, c, reading);
    case Check(c) => CheckKeeps(p, c);
    case Retire(c) => RetireKeeps(p, c);
    case Start(c) => StartKeeps(p, c);
    case Drop(c) => DropKeeps(p, c);
    case Take(r) => TakeKeeps(p, r);
    case Copy(r, succeeds) => CopyKeeps(p, r, succeeds);
    case Return(r) => ReturnKeeps(p, r);
  }

  lemma InvIsStructured<B>(p: Pool<B>)
    requires Inv(p)
    ensures Structured(p)
  {
  }

  /** `q` is reached from `p` by the steps `acts`, in whatever order cores and readers take them. */
  ghost predicate RunsTo<B>(p: Pool<B>, acts: seq<Action>, q: Pool<B>)
    decreases |acts|
  {
    if acts == [] then p == q
    else CanStep(p, acts[0]) && Sound(p, acts[0]) && RunsTo(Next(p, acts[0]), acts[1..], q)
  }

  lemma {:induction false} RunKeeps<B>(p: Pool<B>, acts: seq<Action>, q: Pool<B>)
    requires Inv(p) && RunsTo(p, acts, q)
    ensures Inv(q)
    decreases |acts|
  {
    hide Inv, Next, CanStep, Sound;
    if acts != [] {
      StepKeeps(p, acts[0]);
      RunKeeps(Next(p, acts[0]), acts[1..], q);
    }
  }

  lemma {:induction false} AllIdle<B>(cores: seq<Core<B>>)
    requires forall c :: 0 <= c < |cores| ==> cores[c] == Core(Idle, None, [], 0, 0)
    ensures CoresHeld(cores) == multiset{} && Misses(cores) == 0
  {
    if cores != [] {
      AllIdle(cores[..|cores| - 1]);
    }
  }

  lemma {:induction false} AllWaiting<B>(readers: seq<Reader<B>>)
    requires forall r :: 0 <= r < |readers| ==> readers[r] == Waiting
    ensures ReadersHeld(readers) == multiset{}
  {
    if readers != [] {
      AllWaiting(readers[..|readers| - 1]);
    }
  }

  lemma InitiallyInv<B>(p: Pool<B>)
    requires Initial(p)
    ensures Inv(p)
  {
    hide Held, ReaderHeld, CoresHeld, ReadersHeld, Misses, Kept, StoredCount, OfCore;
    AllIdle(p.cores);
    AllWaiting(p.readers);
    EmptyBooks();
    assert Everywhere(p) == multiset(p.empty);
    assert Structured(p) && History(p) == [];
  }

  lemma EmptyBooks()
    ensures Kept([]) == [] && StoredCount([]) == 0 && forall c :: OfCore([], c) == []
  {
  }

  /** The invariant holds in every state of every run, for any number of cores, readers and buffers. */
  lemma {:induction false} ReachableInv<B>(p: Pool<B>, acts: seq<Action>, q: Pool<B>)
    requires Initial(p) && RunsTo(p, acts, q)
    ensures Inv(q)
  {
    InitiallyInv(p);
    RunKeeps(p, acts, q);
  }
}
