/** The buffers and the linked lists of module/pmu_sync_sample_main.c. */
module BufferList {
  import opened SampleBuffer
  import opened PoolMachine

  /** A `struct buffer`. Its slots are part of the record itself, hence a value and not an array object. */
  class Buffer {
    var core: nat
    var numSamples: nat
    var nextBuffer: Buffer?
    var samples: seq<Sample>

    ghost function View(): Slots
      reads this`core, this`numSamples, this`samples
    {
      Slots(core, numSamples, samples)
    }

    /** `kzalloc`: everything is zero. */
    constructor (entries: nat)
      ensures View() == Slots(0, 0, seq(entries, _ => ZERO_SAMPLE)) && nextBuffer == null
    {
      core, numSamples, nextBuffer := 0, 0, null;
      samples := seq(entries, _ => ZERO_SAMPLE);
    }
  }

  /** A `struct blist`. `nodes` is the list from `head` to `tail`. */
  class List {
    var head: Buffer?
    var tail: Buffer?
    ghost var nodes: seq<Buffer>

    /** The links lead from the head through all nodes, each once, and end at the tail. */
    ghost predicate Valid()
      reads this, nodes
    {
      && (forall i, j :: 0 <= i < j < |nodes| ==> nodes[i] != nodes[j])
      && (nodes == [] ==> head == null && tail == null)
      && (nodes != [] ==> head == nodes[0] && tail == nodes[|nodes| - 1] && nodes[|nodes| - 1].nextBuffer == null)
      && forall i :: 0 <= i < |nodes| - 1 ==> nodes[i].nextBuffer == nodes[i + 1]
    }

    /** `init_blist` */
    constructor ()
      ensures Valid() && nodes == []
    {
      head, tail, nodes := null, null, [];
    }

    /** `append_blist`; a missing buffer is reported and ignored. */
    method Append(b: Buffer?)
      requires Valid() && b !in nodes
      modifies this, nodes`nextBuffer, {b}`nextBuffer
      ensures Valid() && nodes == if b == null then old(nodes) else old(nodes) + [b]
    {
      if b == null {
        return;
      }
      b.nextBuffer := null;
      if head == null || tail == null {
        head := b;
        tail := b;
      } else {
        tail.nextBuffer := b;
        tail := b;
      }
      nodes := nodes + [b];
    }

    /** `pop_blist` */
    method Pop() returns (ret: Buffer?)
      requires Valid()
      modifies this, nodes`nextBuffer
      ensures Valid()
      ensures if old(nodes) == [] then ret == null && nodes == []
        else ret == old(nodes)[0] && nodes == old(nodes)[1..] && ret.nextBuffer == null
    {
      ret := null;
      if head == null {
        return;
      }
      ret := head;
      head := ret.nextBuffer;
      if head == null {
        tail := null;
      }
      ret.nextBuffer := null;
      nodes := nodes[1..];
    }
  }
}
