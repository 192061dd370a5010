/** What the samples in the pool say about the readings the cores took. */
module PoolReadings {
  import opened SampleBuffer
  import opened PoolMachine
  import opened PoolInvariant
  import opened PoolSteps
  import opened PoolTheorems

  // --------------------------------------------------------------- readings and samples

  /** The readings core `c` stores in a run, in order. */
  ghost function ReadingsOf(acts: seq<Action>, c: nat): seq<Reading> {
    if acts == [] then []
    else
      (if acts[0].Store? && acts[0].c == c then [acts[0].reading] else []) + ReadingsOf(acts[1..], c)
  }

  /** The samples a core stored, in order. */
  ghost function StoredSamples(log: seq<Event>): seq<Sample> {
    if log == [] then []
    else StoredSamples(log[..|log| - 1]) + if log[|log| - 1].Stored? then [log[|log| - 1].s] else []
  }

  /** The sample has each field of the reading in its place, and zeros for the counters that were not read. */
  ghost predicate ShowsReading(s: Sample, reading: Reading) {
    && s.cycles == reading.cycles && s.pid == reading.pid
    && |reading.counters| <= NUM_COUNTERS
    && forall i :: 0 <= i < NUM_COUNTERS ==>
         s.counters[i] == if i < |reading.counters| then reading.counters[i] else 0
  }

  ghost predicate ShowReadings(ss: seq<Sample>, readings: seq<Reading>) {
    |ss| == |readings| && forall k :: 0 <= k < |ss| ==> ShowsReading(ss[k], readings[k])
  }

  /** From `p` to `q`, core `c` stored samples that show these readings. */
  ghost predicate Grew<B>(p: Pool<B>, q: Pool<B>, c: nat, readings: seq<Reading>) {
    && c < |p.cores| == |q.cores|
    && var before, now := StoredSamples(p.cores[c].log), StoredSamples(q.cores[c].log);
       && before <= now && ShowReadings(now[|before|..], readings)
  }

  lemma StoredSnoc(log: seq<Event>, e: Event)
    ensures StoredSamples(log + [e]) == StoredSamples(log) + if e.Stored? then [e.s] else []
  {
    assert (log + [e])[..|log|] == log;
  }

  /** A slot that was padded shows exactly the reading after it was overwritten. */
  lemma OverwrittenShows(slot: Sample, reading: Reading)
    requires |reading.counters| <= NUM_COUNTERS && Padded(|reading.counters|, slot)
    ensures ShowsReading(Overwrite(slot, reading), reading)
  {
  }

  lemma StoreGrows<B>(p: Pool<B>, c: nat, reading: Reading)
    requires PoolPadded(p) && Sound(p, Store(c, reading))
    ensures Grew(p, Next(p, Store(c, reading)), c, [reading])
  {
    hide StoredSamples, Padded, Overwrite, LogPadded, ShowsReading;
    var x := p.bufs[p.cores[c].at.b];
    assert Padded(p.width, x.samples[x.num]);
    OverwrittenShows(x.samples[x.num], reading);
    StoredSnoc(p.cores[c].log, Stored(Overwrite(x.samples[x.num], reading)));
  }

  lemma OtherwiseSame<B>(p: Pool<B>, a: Action, c: nat)
    requires Sound(p, a) && c < |p.cores| && !(a.Store? && a.c == c)
    ensures Grew(p, Next(p, a), c, [])
  {
    hide StoredSamples, Overwrite, Content, ShowsReading;
    if a.Start? && a.c == c && p.cores[c].lbuffer.Some? {
      StoredSnoc(p.cores[c].log, GivenUp(p.bufs[p.cores[c].lbuffer.value].num));
    }
  }

  lemma GrewThen<B>(p: Pool<B>, m: Pool<B>, q: Pool<B>, c: nat, first: seq<Reading>, more: seq<Reading>)
    requires Grew(p, m, c, first) && Grew(m, q, c, more)
    ensures Grew(p, q, c, first + more)
  {
    hide StoredSamples, ShowsReading;
    var a, b, d := StoredSamples(p.cores[c].log), StoredSamples(m.cores[c].log), StoredSamples(q.cores[c].log);
    assert d[|a|..] == b[|a|..] + d[|b|..];
  }

  lemma NothingGrew<B>(p: Pool<B>, c: nat)
    requires c < |p.cores|
    ensures Grew(p, p, c, [])
  {
    hide StoredSamples;
  }

  lemma {:induction false} RunGrows<B>(p: Pool<B>, acts: seq<Action>, q: Pool<B>, c: nat)
    requires PoolPadded(p) && RunsTo(p, acts, q) && c < |p.cores|
    ensures Grew(p, q, c, ReadingsOf(acts, c))
    decreases |acts|
  {
    hide PoolPadded, Next, Sound, CanStep, Grew;
    if acts == [] {
      NothingGrew(p, c);
    } else {
      var a, n := acts[0], Next(p, acts[0]);
      var first := if a.Store? && a.c == c then [a.reading] else [];
      StepKeepsPadding(p, a);
      if a.Store? && a.c == c {
        StoreGrows(p, c, a.reading);
      } else {
        OtherwiseSame(p, a, c);
      }
      assert |n.cores| == |p.cores| by { GrewKeeps(p, n, c, first); }
      RunGrows(n, acts[1..], q, c);
      GrewThen(p, n, q, c, first, ReadingsOf(acts[1..], c));
    }
  }

  lemma GrewKeeps<B>(p: Pool<B>, q: Pool<B>, c: nat, readings: seq<Reading>)
    requires Grew(p, q, c, readings)
    ensures |q.cores| == |p.cores|
  {
  }

  /** Over every run, the samples a core stored are its readings, one for one and in order: cycles, pid and each counter
      in its place, and zeros for the counters the hardware does not have. */
  lemma {:induction false} SamplesAreReadings<B>(p: Pool<B>, acts: seq<Action>, q: Pool<B>, c: nat)
    requires Initial(p) && RunsTo(p, acts, q) && c < |q.cores|
    ensures ShowReadings(StoredSamples(q.cores[c].log), ReadingsOf(acts, c))
  {
    hide RunsTo, ReadingsOf, ShowReadings;
    BuffersStay(p, acts, q);
    RunGrows(p, acts, q, c);
    assert StoredSamples(p.cores[c].log) == [];
    assert StoredSamples(q.cores[c].log)[0..] == StoredSamples(q.cores[c].log);
  }

  // ---------------------------------------------------------------- what was not given up

  /** The readings a core still wants, of those it stored. */
  ghost function KeptReadings(log: seq<Event>, readings: seq<Reading>): seq<Reading>
    decreases |log|
  {
    if log == [] then []
    else
      match log[|log| - 1]
      case Stored(_) =>
        if readings == [] then []
        else KeptReadings(log[..|log| - 1], readings[..|readings| - 1]) + [readings[|readings| - 1]]
      case GivenUp(n) =>
        var kept := KeptReadings(log[..|log| - 1], readings);
        if n <= |kept| then kept[..|kept| - n] else []
  }

  /** The samples a core still wants show the readings it still wants. */
  lemma {:induction false} KeptShow(log: seq<Event>, readings: seq<Reading>)
    requires ShowReadings(StoredSamples(log), readings)
    ensures ShowReadings(Kept(log), KeptReadings(log, readings))
    decreases |log|
  {
    hide ShowsReading;
    if log != [] {
      var front := log[..|log| - 1];
      if log[|log| - 1].Stored? {
        assert ShowsReading(StoredSamples(log)[|readings| - 1], readings[|readings| - 1]);
        assert StoredSamples(front) == StoredSamples(log)[..|readings| - 1];
        KeptShow(front, readings[..|readings| - 1]);
      } else {
        assert StoredSamples(front) == StoredSamples(log);
        KeptShow(front, readings);
      }
    }
  }

  /** They are all readings of a core that never gave a buffer up. */
  lemma {:induction false} AllKept(log: seq<Event>, readings: seq<Reading>)
    requires |StoredSamples(log)| == |readings| && forall i :: 0 <= i < |log| ==> log[i].Stored?
    ensures KeptReadings(log, readings) == readings
    decreases |log|
  {
    if log != [] {
      AllKept(log[..|log| - 1], readings[..|readings| - 1]);
    }
  }

  // -------------------------------------------------------------------------- counting

  ghost function Calls(acts: seq<Action>, c: nat): nat {
    if acts == [] then 0 else (if acts[0] == Gather(c) then 1 else 0) + Calls(acts[1..], c)
  }

  ghost function MissesOf(acts: seq<Action>, c: nat): nat {
    if acts == [] then 0 else (if acts[0] == Miss(c) then 1 else 0) + MissesOf(acts[1..], c)
  }

  ghost function AllMisses(acts: seq<Action>): nat {
    if acts == [] then 0 else (if acts[0].Miss? then 1 else 0) + AllMisses(acts[1..])
  }

  lemma StepCounts<B>(p: Pool<B>, a: Action, c: nat)
    requires Sound(p, a) && c < |p.cores|
    ensures |Next(p, a).cores| == |p.cores|
    ensures Next(p, a).cores[c].calls == p.cores[c].calls + if a == Gather(c) then 1 else 0
    ensures Next(p, a).cores[c].misses == p.cores[c].misses + if a == Miss(c) then 1 else 0
    ensures Next(p, a).missed == p.missed + if a.Miss? then 1 else 0
  {
    hide Overwrite, Content;
  }

  lemma {:induction false} RunCounts<B>(p: Pool<B>, acts: seq<Action>, q: Pool<B>, c: nat)
    requires RunsTo(p, acts, q) && c < |p.cores|
    ensures c < |q.cores|
    ensures q.cores[c].calls == p.cores[c].calls + Calls(acts, c)
    ensures q.cores[c].misses == p.cores[c].misses + MissesOf(acts, c)
    ensures q.missed == p.missed + AllMisses(acts)
    decreases |acts|
  {
    hide Next, Sound, CanStep;
    if acts != [] {
      StepCounts(p, acts[0], c);
      RunCounts(Next(p, acts[0]), acts[1..], q, c);
    }
  }

  /** Over every run, the books count what happened: calls of `gatherSample` and misses per core, and all misses in the
      counter user space sees; and each call stored a reading, was missed, or is still under way. */
  lemma {:induction false} CallsAreCounted<B>(p: Pool<B>, acts: seq<Action>, q: Pool<B>, c: nat)
    requires Initial(p) && RunsTo(p, acts, q) && c < |q.cores|
    ensures q.missed == AllMisses(acts)
    ensures Calls(acts, c) == |ReadingsOf(acts, c)| + MissesOf(acts, c) + if Pending(q.cores[c].at) then 1 else 0
  {
    hide RunsTo, ReadingsOf, Calls, MissesOf, AllMisses, ShowsReading;
    BuffersStay(p, acts, q);
    RunCounts(p, acts, q, c);
    Conservation(p, acts, q, c);
    SamplesAreReadings(p, acts, q, c);
    StoredIsCounted(q.cores[c].log);
  }

  ghost function Copies(acts: seq<Action>, succeeded: bool): nat {
    if acts == [] then 0
    else (if acts[0].Copy? && acts[0].succeeds == succeeded then 1 else 0) + Copies(acts[1..], succeeded)
  }

  lemma StepCopies<B>(p: Pool<B>, a: Action)
    requires Sound(p, a)
    ensures |Next(p, a).copied| == |p.copied| + if a.Copy? && a.succeeds then 1 else 0
    ensures |Next(p, a).failed| == |p.failed| + if a.Copy? && !a.succeeds then 1 else 0
  {
    hide Overwrite, Content;
  }

  lemma {:induction false} RunCopies<B>(p: Pool<B>, acts: seq<Action>, q: Pool<B>)
    requires RunsTo(p, acts, q)
    ensures |q.copied| == |p.copied| + Copies(acts, true)
    ensures |q.failed| == |p.failed| + Copies(acts, false)
    decreases |acts|
  {
    hide Next, Sound, CanStep;
    if acts != [] {
      StepCopies(p, acts[0]);
      RunCopies(Next(p, acts[0]), acts[1..], q);
    }
  }

  /** Over every run, exactly the buffers whose copy succeeded reached user space, and the others were lost. */
  lemma {:induction false} CopiesAreCounted<B>(p: Pool<B>, acts: seq<Action>, q: Pool<B>)
    requires Initial(p) && RunsTo(p, acts, q)
    ensures |q.copied| == Copies(acts, true) && |q.failed| == Copies(acts, false)
  {
    hide RunsTo, Copies;
    RunCopies(p, acts, q);
  }

  lemma {:induction false} StoredIsCounted(log: seq<Event>)
    ensures StoredCount(log) == |StoredSamples(log)|
  {
    if log != [] {
      StoredIsCounted(log[..|log| - 1]);
    }
  }
}
