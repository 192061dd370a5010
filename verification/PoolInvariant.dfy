/** What every step of the buffer pool keeps, and what follows for every run. */
module PoolInvariant {
  import opened SampleBuffer
  import opened Options
  import opened PoolMachine

  // ------------------------------------------------------------------------ definitions

  ghost function After(kept: seq<Sample>, e: Event): seq<Sample> {
    match e
    case Stored(s) => kept + [s]
    case GivenUp(n) => if n <= |kept| then kept[..|kept| - n] else []
  }

  /** The samples a core's log says are still wanted: stores add one, giving up takes the latest away. */
  ghost function Kept(log: seq<Event>): seq<Sample> {
    if log == [] then [] else After(Kept(log[..|log| - 1]), log[|log| - 1])
  }

  ghost function StoredCount(log: seq<Event>): nat {
    if log == [] then 0 else StoredCount(log[..|log| - 1]) + if log[|log| - 1].Stored? then 1 else 0
  }

  /** The samples of one core among delivered buffers, in order. */
  ghost function OfCore(ds: seq<Delivery>, c: nat): seq<Sample> {
    if ds == [] then []
    else OfCore(ds[..|ds| - 1], c) + if ds[|ds| - 1].core == c then ds[|ds| - 1].samples else []
  }

  ghost predicate WellShaped<B>(entries: nat, bufs: map<B, Slots>) {
    entries > 0 && forall b :: b in bufs ==> |bufs[b].samples| == entries && bufs[b].num <= entries
  }

  ghost function Contents<B>(entries: nat, bufs: map<B, Slots>, bs: seq<B>): (ds: seq<Delivery>)
    requires WellShaped(entries, bufs) && forall i :: 0 <= i < |bs| ==> bs[i] in bufs
    ensures |ds| == |bs|
  {
    seq(|bs|, i requires 0 <= i < |bs| => Content(bufs[bs[i]]))
  }

  /** The samples in the buffer a core is filling. */
  ghost function Partial<B>(bufs: map<B, Slots>, core: Core<B>): seq<Sample> {
    match core.at
    case Idle => if core.lbuffer.Some? then Used(bufs, core.lbuffer.value) else []
    case Storing(b) => Used(bufs, b)
    case Checking(b) => Used(bufs, b)
    case _ => []
  }

  ghost function Used<B>(bufs: map<B, Slots>, b: B): seq<Sample> {
    if b in bufs && bufs[b].num <= |bufs[b].samples| then bufs[b].samples[..bufs[b].num] else []
  }

  ghost predicate Tagged<B>(bufs: map<B, Slots>, b: B, c: nat) {
    b in bufs && bufs[b].core == c
  }

  /** What holds of a core at each place. `Retiring` and `Dropping` say nothing about the stale buffer. */
  ghost predicate CoreOk<B>(entries: nat, bufs: map<B, Slots>, core: Core<B>, c: nat) {
    match core.at
    case Idle => core.lbuffer.Some? ==>
      Tagged(bufs, core.lbuffer.value, c) && bufs[core.lbuffer.value].num < entries
    case Popping => core.lbuffer == None
    case Missing => core.lbuffer == None
    case Initializing(b) => core.lbuffer == None && b in bufs
    case Publishing(b) => core.lbuffer == None && Tagged(bufs, b, c) && bufs[b].num == 0
    case Storing(b) => core.lbuffer == Some(b) && Tagged(bufs, b, c) && bufs[b].num < entries
    case Checking(b) => core.lbuffer == Some(b) && Tagged(bufs, b, c)
    case Retiring => core.lbuffer.Some?
    case Dropping => core.lbuffer.Some?
  }

  /** The core is inside `gatherSample` and its call has neither stored nor missed yet. */
  ghost predicate Pending<B>(at: Place<B>) {
    at == Popping || at == Missing || at.Initializing? || at.Publishing? || at.Storing?
  }

  ghost predicate Counted<B>(core: Core<B>) {
    core.calls == StoredCount(core.log) + core.misses + if Pending(core.at) then 1 else 0
  }

  ghost function Misses<B>(cores: seq<Core<B>>): nat {
    if cores == [] then 0 else Misses(cores[..|cores| - 1]) + cores[|cores| - 1].misses
  }

  ghost predicate ReaderOk<B>(bufs: map<B, Slots>, delivered: seq<Delivery>, reader: Reader<B>) {
    match reader
    case Waiting => true
    case Copying(b, ticket) =>
      b in bufs && ticket < |delivered| && bufs[b].num <= |bufs[b].samples| && delivered[ticket] == Content(bufs[b])
    case Returning(b) => b in bufs
  }

  ghost predicate Structured<B>(p: Pool<B>) {
    && WellShaped(p.entries, p.bufs) && Owned(p)
    && (forall i :: 0 <= i < |p.full| ==> p.full[i] in p.bufs)
    && (forall c :: 0 <= c < |p.cores| ==> CoreOk(p.entries, p.bufs, p.cores[c], c))
    && (forall r :: 0 <= r < |p.readers| ==> ReaderOk(p.bufs, p.delivered, p.readers[r]))
  }

  /** Everything ever appended to the full list, in order: what readers popped, then what still waits. */
  ghost function History<B>(p: Pool<B>): seq<Delivery>
    requires Structured(p)
  {
    p.delivered + Contents(p.entries, p.bufs, p.full)
  }

  ghost predicate FullBuffer(entries: nat, cores: nat, d: Delivery) {
    |d.samples| == entries && d.core < cores
  }

  ghost predicate AllFull(entries: nat, cores: nat, ds: seq<Delivery>) {
    forall i :: 0 <= i < |ds| ==> FullBuffer(entries, cores, ds[i])
  }

  /** The books of one core: the samples it still wants are, in order, those in the history and in its own buffer. */
  ghost predicate Balanced<B>(bufs: map<B, Slots>, history: seq<Delivery>, core: Core<B>, c: nat) {
    Kept(core.log) == OfCore(history, c) + Partial(bufs, core) && Counted(core)
  }

  ghost predicate CopiesMatch(delivered: seq<Delivery>, copied: seq<Copied>) {
    forall i :: 0 <= i < |copied| ==>
      copied[i].ticket < |delivered| && delivered[copied[i].ticket] == copied[i].content
  }

  /** The invariant of the pool. */
  ghost predicate Inv<B>(p: Pool<B>) {
    && Structured(p)
    && AllFull(p.entries, |p.cores|, History(p))
    && (forall c :: 0 <= c < |p.cores| ==> Balanced(p.bufs, History(p), p.cores[c], c))
    && p.missed == Misses(p.cores)
    && CopiesMatch(p.delivered, p.copied)
  }

  // ------------------------------------------------------------------- small facts

  lemma OfCoreSnoc(ds: seq<Delivery>, d: Delivery, c: nat)
    ensures OfCore(ds + [d], c) == OfCore(ds, c) + if d.core == c then d.samples else []
  {
    assert (ds + [d])[..|ds|] == ds;
  }

  lemma KeptSnoc(log: seq<Event>, e: Event)
    ensures Kept(log + [e]) == After(Kept(log), e)
    ensures StoredCount(log + [e]) == StoredCount(log) + if e.Stored? then 1 else 0
  {
    assert (log + [e])[..|log|] == log;
  }

  lemma {:induction false} MissesUpdate<B>(cores: seq<Core<B>>, c: nat, core: Core<B>)
    requires c < |cores|
    ensures Misses(cores[c := core]) + cores[c].misses == Misses(cores) + core.misses
  {
    var last := |cores| - 1;
    if c < last {
      MissesUpdate(cores[..last], c, core);
      assert cores[c := core][..last] == cores[..last][c := core];
    } else {
      assert cores[c := core][..last] == cores[..last];
    }
  }

  /** A core does not notice changes of buffers it does not hold. */
  lemma CoreFrame<B>(entries: nat, bufs: map<B, Slots>, b: B, x: Slots, core: Core<B>, c: nat)
    requires b !in Held(core)
    ensures CoreOk(entries, bufs, core, c) ==> CoreOk(entries, bufs[b := x], core, c)
    ensures Partial(bufs[b := x], core) == Partial(bufs, core)
  {
  }

  lemma ReaderFrame<B>(bufs: map<B, Slots>, b: B, x: Slots, delivered: seq<Delivery>, reader: Reader<B>)
    requires b !in ReaderHeld(reader) && ReaderOk(bufs, delivered, reader)
    ensures ReaderOk(bufs[b := x], delivered, reader)
  {
  }

  lemma MoreDelivered<B>(bufs: map<B, Slots>, delivered: seq<Delivery>, more: seq<Delivery>, reader: Reader<B>)
    requires ReaderOk(bufs, delivered, reader) && delivered <= more
    ensures ReaderOk(bufs, more, reader)
  {
  }

  // ------------------------------------------------------------------------ safety

  /** In every state of the invariant, whoever is about to touch a buffer's fields owns it: it is in no
      list and in nobody else's hands. A stale pointer is never followed. */
  lemma {:induction false} AccessIsExclusive<B>(p: Pool<B>, a: Action)
    requires Structured(p) && CanStep(p, a)
    ensures Sound(p, a)
    ensures Accessed(p, a).Some? ==>
      var b := Accessed(p, a).value;
      && b !in p.empty && b !in p.full
      && (forall c :: 0 <= c < |p.cores| && b in Held(p.cores[c]) ==> !a.Copy? && !a.Return? && c == a.c)
      && (forall r :: 0 <= r < |p.readers| && b in ReaderHeld(p.readers[r]) ==> (a.Copy? || a.Return?) && r == a.r)
  {
    if Accessed(p, a).Some? {
      var b := Accessed(p, a).value;
      if a.Copy? || a.Return? {
        assert ReaderOk(p.bufs, p.delivered, p.readers[a.r]);
        ReaderOwnsAlone(p, a.r, b);
      } else {
        assert CoreOk(p.entries, p.bufs, p.cores[a.c], a.c);
        CoreOwnsAlone(p, a.c, b);
      }
    }
  }

  // ---------------------------------------------------------------- what a step may do

  lemma Rebalance<B>(lists: multiset<B>, lists': multiset<B>, all: multiset<B>, all': multiset<B>,
                     one: multiset<B>, one': multiset<B>, others: multiset<B>)
    requires lists' + one' == lists + one
    requires all' + one == all + one'
    ensures lists' + all' + others == lists + all + others
  {
    forall b
      ensures (lists' + all' + others)[b] == (lists + all + others)[b]
    {
      assert (lists' + one')[b] == (lists + one)[b];
      assert (all' + one)[b] == (all + one')[b];
    }
  }

  /** A step of core `c` that passes buffers only between the core and the lists keeps every buffer in one place. */
  lemma CoreStepOwned<B>(p: Pool<B>, q: Pool<B>, c: nat)
    requires Owned(p) && c < |p.cores| == |q.cores| && q.cores == p.cores[c := q.cores[c]]
    requires q.readers == p.readers && q.bufs.Keys == p.bufs.Keys
    requires multiset(q.empty) + multiset(q.full) + Held(q.cores[c])
          == multiset(p.empty) + multiset(p.full) + Held(p.cores[c])
    ensures Owned(q)
  {
    hide Held;
    CoresHeldUpdate(p.cores, c, q.cores[c]);
    Rebalance(multiset(p.empty) + multiset(p.full), multiset(q.empty) + multiset(q.full),
              CoresHeld(p.cores), CoresHeld(q.cores), Held(p.cores[c]), Held(q.cores[c]), ReadersHeld(p.readers));
  }

  lemma ReaderStepOwned<B>(p: Pool<B>, q: Pool<B>, r: nat)
    requires Owned(p) && r < |p.readers| == |q.readers| && q.readers == p.readers[r := q.readers[r]]
    requires q.cores == p.cores && q.bufs.Keys == p.bufs.Keys
    requires multiset(q.empty) + multiset(q.full) + ReaderHeld(q.readers[r])
          == multiset(p.empty) + multiset(p.full) + ReaderHeld(p.readers[r])
    ensures Owned(q)
  {
    hide ReaderHeld;
    ReadersHeldUpdate(p.readers, r, q.readers[r]);
    Rebalance(multiset(p.empty) + multiset(p.full), multiset(q.empty) + multiset(q.full),
              ReadersHeld(p.readers), ReadersHeld(q.readers), ReaderHeld(p.readers[r]), ReaderHeld(q.readers[r]),
              CoresHeld(p.cores));
    assert Everywhere(p) == multiset(p.empty) + multiset(p.full) + ReadersHeld(p.readers) + CoresHeld(p.cores);
    assert Everywhere(q) == multiset(q.empty) + multiset(q.full) + ReadersHeld(q.readers) + CoresHeld(q.cores);
  }

  /** The other cores, and the readers, do not notice what core `c` does to a buffer it holds. */
  lemma OthersKeep<B>(p: Pool<B>, c: nat, b: B, y: Slots)
    requires Structured(p) && c < |p.cores| && b in Held(p.cores[c])
    requires |y.samples| == p.entries && y.num <= p.entries
    ensures b in p.bufs && WellShaped(p.entries, p.bufs[b := y]) && p.bufs[b := y].Keys == p.bufs.Keys
    ensures forall d :: 0 <= d < |p.cores| && d != c ==>
      && CoreOk(p.entries, p.bufs[b := y], p.cores[d], d)
      && Partial(p.bufs[b := y], p.cores[d]) == Partial(p.bufs, p.cores[d])
    ensures forall r :: 0 <= r < |p.readers| ==> ReaderOk(p.bufs[b := y], p.delivered, p.readers[r])
    ensures Contents(p.entries, p.bufs[b := y], p.full) == Contents(p.entries, p.bufs, p.full)
  {
    hide CoreOk, Partial, ReaderOk, Held, ReaderHeld;
    CoreOwnsAlone(p, c, b);
    forall d | 0 <= d < |p.cores| && d != c
      ensures CoreOk(p.entries, p.bufs[b := y], p.cores[d], d)
      ensures Partial(p.bufs[b := y], p.cores[d]) == Partial(p.bufs, p.cores[d])
    {
      CoreFrame(p.entries, p.bufs, b, y, p.cores[d], d);
    }
    forall r | 0 <= r < |p.readers|
      ensures ReaderOk(p.bufs[b := y], p.delivered, p.readers[r])
    {
      ReaderFrame(p.bufs, b, y, p.delivered, p.readers[r]);
    }
  }

  /** What core `c` may do to the pool: change itself, the buffer it holds, and append one full buffer. */
  ghost predicate CoreMay<B>(p: Pool<B>, q: Pool<B>, c: nat, moved: seq<Delivery>) {
    && Structured(p) && c < |p.cores| == |q.cores|
    && q == p.(cores := p.cores[c := q.cores[c]], bufs := q.bufs, empty := q.empty, full := q.full, missed := q.missed)
    && (q.bufs == p.bufs
        || exists b, y :: b in Held(p.cores[c]) && q.bufs == p.bufs[b := y]
                          && |y.samples| == p.entries && y.num <= p.entries)
    && multiset(q.empty) + multiset(q.full) + Held(q.cores[c])
       == multiset(p.empty) + multiset(p.full) + Held(p.cores[c])
    && q.bufs.Keys == p.bufs.Keys
    && WellShaped(q.entries, q.bufs) && (forall i :: 0 <= i < |q.full| ==> q.full[i] in q.bufs)
    && Contents(q.entries, q.bufs, q.full) == Contents(p.entries, p.bufs, p.full) + moved
    && (moved != [] ==> |moved| == 1 && moved[0].core == c && |moved[0].samples| == p.entries)
  }

  lemma CoreStepStructured<B>(p: Pool<B>, q: Pool<B>, c: nat, moved: seq<Delivery>)
    requires CoreMay(p, q, c, moved) && CoreOk(q.entries, q.bufs, q.cores[c], c)
    ensures Structured(q) && History(q) == History(p) + moved
    ensures forall d :: 0 <= d < |p.cores| && d != c ==> Partial(q.bufs, q.cores[d]) == Partial(p.bufs, p.cores[d])
  {
    hide CoreOk, Partial, ReaderOk, Held, Contents, Owned;
    CoreStepOwned(p, q, c);
    if q.bufs != p.bufs {
      var b, y :| b in Held(p.cores[c]) && q.bufs == p.bufs[b := y] && |y.samples| == p.entries && y.num <= p.entries;
      OthersKeep(p, c, b, y);
    }
  }

  /** Such a step keeps the invariant when the core's own books balance afterwards. */
  lemma CoreStep<B>(p: Pool<B>, q: Pool<B>, c: nat, moved: seq<Delivery>)
    requires Inv(p) && CoreMay(p, q, c, moved) && CoreOk(q.entries, q.bufs, q.cores[c], c)
    requires Balanced(q.bufs, History(p) + moved, q.cores[c], c)
    requires q.missed + p.cores[c].misses == p.missed + q.cores[c].misses
    ensures Inv(q) && History(q) == History(p) + moved
  {
    hide CoreOk, CoreMay, Structured, Balanced, AllFull, CopiesMatch, History, Partial;
    CoreStepStructured(p, q, c, moved);
    OnlyCore(p, q, c, moved);
    MissesUpdate(p.cores, c, q.cores[c]);
    MoreFull(p.entries, |p.cores|, History(p), moved);
    forall d | 0 <= d < |q.cores|
      ensures Balanced(q.bufs, History(q), q.cores[d], d)
    {
      if d != c {
        OthersBalanced(p.bufs, q.bufs, History(p), moved, p.cores[d], d);
      }
    }
  }

  lemma MoreFull(entries: nat, cores: nat, ds: seq<Delivery>, moved: seq<Delivery>)
    requires AllFull(entries, cores, ds) && AllFull(entries, cores, moved)
    ensures AllFull(entries, cores, ds + moved)
  {
  }

  /** Books of a core are not touched by a buffer of another core in the full list. */
  lemma OthersBalanced<B>(was: map<B, Slots>, bufs: map<B, Slots>, history: seq<Delivery>, moved: seq<Delivery>,
                          core: Core<B>, d: nat)
    requires Balanced(was, history, core, d) && Partial(bufs, core) == Partial(was, core)
    requires moved == [] || (|moved| == 1 && moved[0].core != d)
    ensures Balanced(bufs, history + moved, core, d)
  {
    hide Partial, Kept, Counted, OfCore;
    if moved == [] {
      assert history + moved == history;
    } else {
      OfCoreSnoc(history, moved[0], d);
      assert history + moved == history + [moved[0]];
    }
  }

  lemma OnlyCore<B>(p: Pool<B>, q: Pool<B>, c: nat, moved: seq<Delivery>)
    requires CoreMay(p, q, c, moved)
    ensures c < |p.cores| && q.entries == p.entries && q.cores == p.cores[c := q.cores[c]]
    ensures q.delivered == p.delivered && q.copied == p.copied
    ensures moved == [] || (|moved| == 1 && moved[0].core == c)
    ensures AllFull(p.entries, |p.cores|, moved)
  {
  }
}
