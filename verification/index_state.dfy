/**
  The storage index record (`storage::index_state`): per segment, the bounds of
  its offsets and timestamps and three index-aligned sample sequences.
 */
module Storage {
  import opened Ints

  /** `model::offset`: a named wrapper around a signed 64-bit offset. */
  datatype Offset = Offset(value: i64)

  /** `model::timestamp`: a wrapper around a signed 64-bit millisecond count. */
  datatype Timestamp = Timestamp(value: i64)

  /** One index sample: relative offset, relative time, byte position. */
  datatype Entry = Entry(relativeOffset: u32, relativeTime: u32, position: u64)

  datatype IndexState = IndexState(
    bitflags: u32,
    baseOffset: Offset,
    maxOffset: Offset,
    baseTimestamp: Timestamp,
    maxTimestamp: Timestamp,
    relativeOffsetIndex: seq<u32>,
    relativeTimeIndex: seq<u32>,
    positionIndex: seq<u64>)

  /**
    A default-constructed `index_state`. Its header is not part of this model;
    every scalar field is taken to start at zero and every sequence empty.
   */
  const Default: IndexState :=
    IndexState(0, Offset(0), Offset(0), Timestamp(0), Timestamp(0), [], [], [])

  /** `add_entry`: append one sample to each of the three sequences. */
  function AddEntry(st: IndexState, e: Entry): IndexState {
    st.(relativeOffsetIndex := st.relativeOffsetIndex + [e.relativeOffset],
        relativeTimeIndex := st.relativeTimeIndex + [e.relativeTime],
        positionIndex := st.positionIndex + [e.position])
  }
}
