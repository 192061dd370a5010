/** What becomes of the buffers readers pop, and what cores and readers leave of each other, over all runs. */
module PoolReaders {
  import opened Options
  import opened PoolMachine
  import opened PoolInvariant
  import opened PoolSteps

  // -------------------------------------------------------------- each delivery once

  ghost function TicketHeld<B>(reader: Reader<B>): multiset<nat> {
    if reader.Copying? then multiset{reader.ticket} else multiset{}
  }

  /** The tickets of the deliveries readers are about to copy. */
  ghost function TicketsHeld<B>(readers: seq<Reader<B>>): multiset<nat> {
    if readers == [] then multiset{} else TicketsHeld(readers[..|readers| - 1]) + TicketHeld(readers[|readers| - 1])
  }

  /** The tickets of the deliveries that reached user space. */
  ghost function TicketsCopied(copied: seq<Copied>): multiset<nat> {
    if copied == [] then multiset{} else TicketsCopied(copied[..|copied| - 1]) + multiset{copied[|copied| - 1].ticket}
  }

  ghost function Tickets<B>(p: Pool<B>): multiset<nat> {
    TicketsCopied(p.copied) + multiset(p.failed) + TicketsHeld(p.readers)
  }

  /** Each delivery so far is accounted for once, and nothing else is. */
  ghost predicate EachOnce(tickets: multiset<nat>, deliveries: nat) {
    forall t: nat :: tickets[t] == if t < deliveries then 1 else 0
  }

  lemma {:induction false} TicketsHeldUpdate<B>(readers: seq<Reader<B>>, r: nat, reader: Reader<B>)
    requires r < |readers|
    ensures TicketsHeld(readers[r := reader]) + TicketHeld(readers[r]) == TicketsHeld(readers) + TicketHeld(reader)
  {
    hide TicketHeld;
    var last, updated := |readers| - 1, readers[r := reader];
    if r < last {
      TicketsHeldUpdate(readers[..last], r, reader);
      assert updated[..last] == readers[..last][r := reader];
      assert updated[last] == readers[last];
      AddToBoth(TicketsHeld(updated[..last]), TicketsHeld(readers[..last]), TicketHeld(readers[r]), TicketHeld(reader),
                TicketHeld(readers[last]));
    } else {
      assert updated[..last] == readers[..last];
      AddToBoth(TicketsHeld(readers[..last]), TicketsHeld(readers[..last]), multiset{}, multiset{},
                TicketHeld(reader) + TicketHeld(readers[last]));
    }
  }

  lemma TicketsCopiedSnoc(copied: seq<Copied>, c: Copied)
    ensures TicketsCopied(copied + [c]) == TicketsCopied(copied) + multiset{c.ticket}
  {
    assert (copied + [c])[..|copied|] == copied;
  }

  lemma TakeTicket<B>(p: Pool<B>, r: nat)
    requires Sound(p, Take(r))
    ensures Tickets(Next(p, Take(r))) == Tickets(p) + multiset{|p.delivered|}
    ensures |Next(p, Take(r)).delivered| == |p.delivered| + 1
  {
    hide TicketsHeld, TicketsCopied;
    var q := Next(p, Take(r));
    TicketsHeldUpdate(p.readers, r, q.readers[r]);
    assert TicketsHeld(q.readers) == TicketsHeld(p.readers) + multiset{|p.delivered|};
  }

  lemma CopyTicket<B>(p: Pool<B>, r: nat, succeeds: bool)
    requires Sound(p, Copy(r, succeeds))
    ensures Tickets(Next(p, Copy(r, succeeds))) == Tickets(p)
    ensures Next(p, Copy(r, succeeds)).delivered == p.delivered
  {
    hide TicketsHeld, TicketsCopied;
    var q, t := Next(p, Copy(r, succeeds)), p.readers[r].ticket;
    TicketsHeldUpdate(p.readers, r, q.readers[r]);
    if succeeds {
      TicketsCopiedSnoc(p.copied, q.copied[|p.copied|]);
    } else {
      AppendMultiset(p.failed, t);
    }
    assert TicketsHeld(p.readers) == TicketsHeld(q.readers) + multiset{t};
  }

  lemma NothingAdded(a: multiset<nat>, b: multiset<nat>)
    requires a + multiset{} == b + multiset{}
    ensures a == b
  {
    assert a == a + multiset{} && b == b + multiset{};
  }

  lemma ReturnTicket<B>(p: Pool<B>, r: nat)
    requires Sound(p, Return(r))
    ensures Tickets(Next(p, Return(r))) == Tickets(p) && Next(p, Return(r)).delivered == p.delivered
  {
    hide TicketsHeld, TicketsCopied;
    var q := Next(p, Return(r));
    TicketsHeldUpdate(p.readers, r, q.readers[r]);
    assert q.readers[r].Waiting? && p.readers[r].Returning?;
    NothingAdded(TicketsHeld(q.readers), TicketsHeld(p.readers));
  }

  lemma CoreStepsKeepTickets<B>(p: Pool<B>, a: Action)
    requires Sound(p, a) && !a.Take? && !a.Copy? && !a.Return?
    ensures Tickets(Next(p, a)) == Tickets(p) && Next(p, a).delivered == p.delivered
  {
    hide TicketsHeld, TicketsCopied;
  }

  lemma StepKeepsTickets<B>(p: Pool<B>, a: Action)
    requires EachOnce(Tickets(p), |p.delivered|) && Sound(p, a)
    ensures EachOnce(Tickets(Next(p, a)), |Next(p, a).delivered|)
  {
    hide Tickets, Next, Sound;
    match a
    case Take(r) => TakeTicket(p, r);
    case Copy(r, succeeds) => CopyTicket(p, r, succeeds);
    case Return(r) => ReturnTicket(p, r);
    case _ => CoreStepsKeepTickets(p, a);
  }

  lemma {:induction false} RunKeepsTickets<B>(p: Pool<B>, acts: seq<Action>, q: Pool<B>)
    requires EachOnce(Tickets(p), |p.delivered|) && RunsTo(p, acts, q)
    ensures EachOnce(Tickets(q), |q.delivered|)
    decreases |acts|
  {
    hide EachOnce, Tickets, Next, Sound, CanStep;
    if acts != [] {
      StepKeepsTickets(p, acts[0]);
      RunKeepsTickets(Next(p, acts[0]), acts[1..], q);
    }
  }

  lemma {:induction false} NoTickets<B>(readers: seq<Reader<B>>)
    requires forall r :: 0 <= r < |readers| ==> readers[r] == Waiting
    ensures TicketsHeld(readers) == multiset{}
  {
    if readers != [] {
      NoTickets(readers[..|readers| - 1]);
    }
  }

  /** In every reachable state, each buffer that was popped so far was either copied to user space, or lost to a failed
      copy, or is in the hands of one reader about to copy it; never two of these, and none of them twice. */
  lemma {:induction false} DeliveredOnce<B>(p: Pool<B>, acts: seq<Action>, q: Pool<B>, t: nat)
    requires Initial(p) && RunsTo(p, acts, q)
    ensures TicketsCopied(q.copied)[t] + multiset(q.failed)[t] + TicketsHeld(q.readers)[t]
         == if t < |q.delivered| then 1 else 0
  {
    hide RunsTo, TicketsHeld, TicketsCopied;
    NoTickets(p.readers);
    assert TicketsCopied([]) == multiset{} by { NothingCopied(); }
    assert Tickets(p) == multiset{};
    RunKeepsTickets(p, acts, q);
    assert Tickets(q)[t] == TicketsCopied(q.copied)[t] + multiset(q.failed)[t] + TicketsHeld(q.readers)[t];
  }

  lemma NothingCopied()
    ensures TicketsCopied([]) == multiset{}
  {
  }

  lemma {:induction false} CopiedTicket(copied: seq<Copied>, i: nat)
    requires i < |copied|
    ensures TicketsCopied(copied)[copied[i].ticket] >= 1
  {
    if i < |copied| - 1 {
      CopiedTicket(copied[..|copied| - 1], i);
    }
  }

  lemma {:induction false} CopiedTwice(copied: seq<Copied>, i: nat, j: nat)
    requires i < j < |copied| && copied[i].ticket == copied[j].ticket
    ensures TicketsCopied(copied)[copied[i].ticket] >= 2
  {
    if j < |copied| - 1 {
      CopiedTwice(copied[..|copied| - 1], i, j);
    } else {
      CopiedTicket(copied[..j], i);
    }
  }

  lemma {:induction false} HeldTicket<B>(readers: seq<Reader<B>>, r: nat)
    requires r < |readers| && readers[r].Copying?
    ensures TicketsHeld(readers)[readers[r].ticket] >= 1
  {
    hide TicketHeld;
    if r < |readers| - 1 {
      HeldTicket(readers[..|readers| - 1], r);
    } else {
      assert TicketHeld(readers[r]) == multiset{readers[r].ticket} by { OneTicket(readers[r]); }
    }
  }

  lemma OneTicket<B>(reader: Reader<B>)
    requires reader.Copying?
    ensures TicketHeld(reader) == multiset{reader.ticket}
  {
  }

  /** No popped buffer reaches user space twice, and what a reader is about to copy was not copied before. */
  lemma {:induction false} CopiedOnce<B>(p: Pool<B>, acts: seq<Action>, q: Pool<B>)
    requires Initial(p) && RunsTo(p, acts, q)
    ensures forall i, j :: 0 <= i < j < |q.copied| ==> q.copied[i].ticket != q.copied[j].ticket
    ensures forall i, r :: 0 <= i < |q.copied| && 0 <= r < |q.readers| && q.readers[r].Copying? ==>
      q.copied[i].ticket != q.readers[r].ticket
  {
    hide RunsTo, TicketsHeld, TicketsCopied, Initial;
    forall i, j | 0 <= i < j < |q.copied|
      ensures q.copied[i].ticket != q.copied[j].ticket
    {
      DeliveredOnce(p, acts, q, q.copied[i].ticket);
      if q.copied[i].ticket == q.copied[j].ticket {
        CopiedTwice(q.copied, i, j);
      }
    }
    forall i, r | 0 <= i < |q.copied| && 0 <= r < |q.readers| && q.readers[r].Copying?
      ensures q.copied[i].ticket != q.readers[r].ticket
    {
      DeliveredOnce(p, acts, q, q.copied[i].ticket);
      CopiedTicket(q.copied, i);
      HeldTicket(q.readers, r);
    }
  }

  // ------------------------------------------------------------------- a single reader

  /** A single reader copies deliveries in the order they were popped, as long as no copy failed. */
  ghost predicate InOrder<B>(p: Pool<B>) {
    p.failed == [] ==>
      && (forall i :: 0 <= i < |p.copied| ==> p.copied[i].ticket == i)
      && |p.readers| == 1
      && |p.delivered| == |p.copied| + (if p.readers[0].Copying? then 1 else 0)
      && (p.readers[0].Copying? ==> p.readers[0].ticket == |p.copied|)
  }

  lemma StepKeepsOrder<B>(p: Pool<B>, a: Action)
    requires InOrder(p) && Sound(p, a)
    ensures InOrder(Next(p, a))
  {
    if a.Take? || a.Copy? || a.Return? {
      ReaderKeepsOrder(p, a);
    } else {
      CoreKeepsOrder(p, a);
    }
  }

  lemma ReaderKeepsOrder<B>(p: Pool<B>, a: Action)
    requires InOrder(p) && Sound(p, a) && (a.Take? || a.Copy? || a.Return?)
    ensures InOrder(Next(p, a))
  {
    hide Content;
  }

  lemma CoreKeepsOrder<B>(p: Pool<B>, a: Action)
    requires InOrder(p) && Sound(p, a) && !a.Take? && !a.Copy? && !a.Return?
    ensures InOrder(Next(p, a))
  {
    hide Overwrite;
  }

  lemma {:induction false} RunKeepsOrder<B>(p: Pool<B>, acts: seq<Action>, q: Pool<B>)
    requires InOrder(p) && RunsTo(p, acts, q)
    ensures InOrder(q)
    decreases |acts|
  {
    hide InOrder, Next, Sound, CanStep;
    if acts != [] {
      StepKeepsOrder(p, acts[0]);
      RunKeepsOrder(Next(p, acts[0]), acts[1..], q);
    }
  }

  /** With one reader all of whose copies worked, user space got the popped buffers one after the other, all but at most
      the one the reader holds. */
  lemma {:induction false} OneReader<B>(p: Pool<B>, acts: seq<Action>, q: Pool<B>)
    requires Initial(p) && |p.readers| == 1 && RunsTo(p, acts, q) && q.failed == []
    ensures |q.copied| <= |q.delivered| <= |q.copied| + 1
    ensures forall i :: 0 <= i < |q.copied| ==> q.copied[i].content == q.delivered[i]
  {
    hide RunsTo, Structured;
    RunKeepsOrder(p, acts, q);
    ReachableInv(p, acts, q);
    assert CopiesMatch(q.delivered, q.copied);
  }

  // ------------------------------------------------------------- steps of the others

  ghost predicate ByCore(a: Action, c: nat) {
    !a.Take? && !a.Copy? && !a.Return? && a.c == c
  }

  ghost predicate ByReader(a: Action, r: nat) {
    (a.Take? || a.Copy? || a.Return?) && a.r == r
  }

  /** Core `c` is where it was, with the same content in the buffer it holds, and can do what it could do. */
  ghost predicate CoreUnmoved<B>(p: Pool<B>, q: Pool<B>, c: nat) {
    && c < |p.cores| == |q.cores| && q.cores[c] == p.cores[c]
    && (forall b :: b in Held(p.cores[c]) ==> b in p.bufs && b in q.bufs && q.bufs[b] == p.bufs[b])
    && forall a :: ByCore(a, c) && CanStep(p, a) ==> CanStep(q, a)
  }

  /** Reader `r` is where it was, with the same content in the buffer it holds. */
  ghost predicate ReaderUnmoved<B>(p: Pool<B>, q: Pool<B>, r: nat) {
    && r < |p.readers| == |q.readers| && q.readers[r] == p.readers[r]
    && (forall b :: b in ReaderHeld(p.readers[r]) ==> b in p.bufs && b in q.bufs && q.bufs[b] == p.bufs[b])
  }

  /** A step changes only the buffer it has alone. */
  lemma OtherBuffers<B>(p: Pool<B>, a: Action)
    requires Sound(p, a)
    ensures Next(p, a).bufs.Keys == p.bufs.Keys
    ensures forall b :: b in p.bufs && Next(p, a).bufs[b] != p.bufs[b] ==> !a.Take? && Accessed(p, a) == Some(b)
  {
    hide Overwrite, Content;
  }

  /** A step moves only the core or the reader that takes it. */
  lemma OtherPlaces<B>(p: Pool<B>, a: Action)
    requires Sound(p, a)
    ensures Next(p, a).width == p.width
    ensures |Next(p, a).cores| == |p.cores| && |Next(p, a).readers| == |p.readers|
    ensures forall c :: 0 <= c < |p.cores| && !ByCore(a, c) ==> Next(p, a).cores[c] == p.cores[c]
    ensures forall r :: 0 <= r < |p.readers| && !ByReader(a, r) ==> Next(p, a).readers[r] == p.readers[r]
  {
    hide Overwrite, Content;
  }

  lemma SameSteps<B>(p: Pool<B>, q: Pool<B>, c: nat)
    requires c < |p.cores| == |q.cores| && q.cores[c] == p.cores[c] && q.width == p.width
    ensures forall a :: ByCore(a, c) && CanStep(p, a) ==> CanStep(q, a)
  {
  }

  lemma HeldIsBuffer<B>(p: Pool<B>, c: nat, b: B)
    requires Structured(p) && c < |p.cores| && b in Held(p.cores[c])
    ensures b in p.bufs
  {
    CoreOwnsAlone(p, c, b);
  }

  lemma CoreBufferKept<B>(p: Pool<B>, a: Action, c: nat, b: B)
    requires Structured(p) && Sound(p, a) && c < |p.cores| && !ByCore(a, c) && b in Held(p.cores[c])
    ensures b in p.bufs && b in Next(p, a).bufs && Next(p, a).bufs[b] == p.bufs[b]
  {
    hide Next, Structured, Held, ReaderHeld, Accessed, CanStep;
    AccessIsExclusive(p, a);
    OtherBuffers(p, a);
    HeldIsBuffer(p, c, b);
  }

  lemma CoreUnmovedByOne<B>(p: Pool<B>, a: Action, c: nat)
    requires Inv(p) && Sound(p, a) && c < |p.cores| && !ByCore(a, c)
    ensures CoreUnmoved(p, Next(p, a), c)
  {
    hide Next, Sound, Structured, Held, CanStep, ByCore;
    InvIsStructured(p);
    OtherPlaces(p, a);
    SameSteps(p, Next(p, a), c);
    forall b | b in Held(p.cores[c])
      ensures b in p.bufs && b in Next(p, a).bufs && Next(p, a).bufs[b] == p.bufs[b]
    {
      CoreBufferKept(p, a, c, b);
    }
  }

  lemma ReaderBufferKept<B>(p: Pool<B>, a: Action, r: nat, b: B)
    requires Structured(p) && Sound(p, a) && r < |p.readers| && !ByReader(a, r) && b in ReaderHeld(p.readers[r])
    ensures b in p.bufs && b in Next(p, a).bufs && Next(p, a).bufs[b] == p.bufs[b]
  {
    hide Next, Structured, Held, ReaderHeld, Accessed, CanStep;
    AccessIsExclusive(p, a);
    OtherBuffers(p, a);
    HeldByReader(p, r, b);
  }

  lemma ReaderUnmovedByOne<B>(p: Pool<B>, a: Action, r: nat)
    requires Inv(p) && Sound(p, a) && r < |p.readers| && !ByReader(a, r)
    ensures ReaderUnmoved(p, Next(p, a), r)
  {
    hide Next, Sound, Structured, ReaderHeld, ByReader;
    InvIsStructured(p);
    OtherPlaces(p, a);
    forall b | b in ReaderHeld(p.readers[r])
      ensures b in p.bufs && b in Next(p, a).bufs && Next(p, a).bufs[b] == p.bufs[b]
    {
      ReaderBufferKept(p, a, r, b);
    }
  }

  lemma HeldByReader<B>(p: Pool<B>, r: nat, b: B)
    requires Structured(p) && r < |p.readers| && b in ReaderHeld(p.readers[r])
    ensures b in p.bufs
  {
    ReaderOwnsAlone(p, r, b);
  }

  /** Whatever the other cores and the readers do between two sections of a core, it finds itself, its buffer and its
      next step as it left them. */
  lemma {:induction false} CoreUndisturbed<B>(p: Pool<B>, acts: seq<Action>, q: Pool<B>, c: nat)
    requires Inv(p) && RunsTo(p, acts, q) && c < |p.cores|
    requires forall i :: 0 <= i < |acts| ==> !ByCore(acts[i], c)
    ensures CoreUnmoved(p, q, c)
    decreases |acts|
  {
    hide Inv, Next, Sound, CanStep, ByCore, Held;
    if acts == [] {
      NothingMoved(p, c);
    } else {
      var n := Next(p, acts[0]);
      StepKeeps(p, acts[0]);
      CoreUnmovedByOne(p, acts[0], c);
      CoreUndisturbed(n, acts[1..], q, c);
    }
  }

  lemma NothingMoved<B>(p: Pool<B>, c: nat)
    requires Inv(p) && c < |p.cores|
    ensures CoreUnmoved(p, p, c)
  {
    hide Held, CanStep, Structured;
    InvIsStructured(p);
    forall b | b in Held(p.cores[c])
      ensures b in p.bufs
    {
      HeldIsBuffer(p, c, b);
    }
  }

  /** The same for a reader. */
  lemma {:induction false} ReaderUndisturbed<B>(p: Pool<B>, acts: seq<Action>, q: Pool<B>, r: nat)
    requires Inv(p) && RunsTo(p, acts, q) && r < |p.readers|
    requires forall i :: 0 <= i < |acts| ==> !ByReader(acts[i], r)
    ensures ReaderUnmoved(p, q, r)
    decreases |acts|
  {
    hide Inv, Next, Sound, CanStep, ByReader, ReaderHeld;
    if acts == [] {
      NoReaderMoved(p, r);
    } else {
      var n := Next(p, acts[0]);
      StepKeeps(p, acts[0]);
      ReaderUnmovedByOne(p, acts[0], r);
      ReaderUndisturbed(n, acts[1..], q, r);
    }
  }

  lemma NoReaderMoved<B>(p: Pool<B>, r: nat)
    requires Inv(p) && r < |p.readers|
    ensures ReaderUnmoved(p, p, r)
  {
    hide ReaderHeld, Structured;
    InvIsStructured(p);
    forall b | b in ReaderHeld(p.readers[r])
      ensures b in p.bufs
    {
      HeldByReader(p, r, b);
    }
  }
}
