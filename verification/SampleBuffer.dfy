/** The records of module/sample_buffer.h. */
module SampleBuffer {
  import opened Bytes

  const NUM_COUNTERS := 6

  type Counters = c: seq<u32> | |c| == NUM_COUNTERS witness [0, 0, 0, 0, 0, 0]

  /** `unsigned long` is taken as 64 bits wide; a 32-bit platform uses a part of the range. */
  datatype Sample = Sample(cycles: u64, pid: u64, counters: Counters)

  const ZERO_SAMPLE := Sample(0, 0, [0, 0, 0, 0, 0, 0])

  /** A filled buffer as handed to the sender: its core and its first `num_samples` samples. */
  datatype BufferData = BufferData(core: u32, samples: seq<Sample>)
}
