/**
  The JSON side of the index-state compatibility check: the typed `read_value`
  decoders, `read_member`, the `from_json` and `to_json` field mappings, the
  equality check of `read_corpus`, and the random-state builder of
  `write_corpus` with its generator draws passed in.
 */
module CompatCheck {
  import opened Wrappers
  import opened Ints
  import opened Json
  import opened Storage

  /** How decoding a document stops. */
  datatype DecodeError =
    | VerifyFailed  // `verify` threw: wrong number kind, non-object document, or a mismatch
    | NotAnArray    // `GetArray()` on a non-array: rapidjson's assertion, the decoder checks nothing

  /** `verify(b)`: passes when `b` holds, throws otherwise. */
  function Verify(b: bool): (r: Outcome<DecodeError>)
    ensures r.Pass? <==> b
    ensures r.Fail? ==> r.error == VerifyFailed
  {
    if b then Pass else Fail(VerifyFailed)
  }

  // ---------------------------------------------------------------------------
  // Primitive decoders: each accepts exactly the integers of its width and
  // signedness and stores the number unchanged.
  // ---------------------------------------------------------------------------

  /** `read_value` into `int64_t`: `verify(v.IsInt64())`, then the number itself. */
  function ReadInt64(v: Json): (r: Result<i64, DecodeError>)
    ensures r.Success? <==> v.JInt? && I64_MIN <= v.n <= I64_MAX
    ensures r.Success? ==> v == JInt(r.value)
    ensures r.Failure? ==> r.error == VerifyFailed
  {
    if IsInt64(v) then Success(v.n) else Failure(VerifyFailed)
  }

  /** `read_value` into `uint64_t`: `verify(v.IsUint64())`, then the number itself. */
  function ReadUint64(v: Json): (r: Result<u64, DecodeError>)
    ensures r.Success? <==> v.JInt? && 0 <= v.n <= U64_MAX
    ensures r.Success? ==> v == JInt(r.value)
    ensures r.Failure? ==> r.error == VerifyFailed
  {
    if IsUint64(v) then Success(v.n) else Failure(VerifyFailed)
  }

  /** `read_value` into `uint32_t`: `verify(v.IsUint())`, then the number itself. */
  function ReadUint32(v: Json): (r: Result<u32, DecodeError>)
    ensures r.Success? <==> v.JInt? && 0 <= v.n <= U32_MAX
    ensures r.Success? ==> v == JInt(r.value)
    ensures r.Failure? ==> r.error == VerifyFailed
  {
    if IsUint(v) then Success(v.n) else Failure(VerifyFailed)
  }

  /** `read_value` into `int32_t`: `verify(v.IsInt())`, then the number itself. */
  function ReadInt32(v: Json): (r: Result<i32, DecodeError>)
    ensures r.Success? <==> v.JInt? && I32_MIN <= v.n <= I32_MAX
    ensures r.Success? ==> v == JInt(r.value)
    ensures r.Failure? ==> r.error == VerifyFailed
  {
    if IsInt(v) then Success(v.n) else Failure(VerifyFailed)
  }

  // ---------------------------------------------------------------------------
  // Generic decoders
  // ---------------------------------------------------------------------------

  /**
    The named-type overload: decode the underlying primitive into a fresh
    value and wrap it. Fails exactly when the primitive decode fails, with
    the same error.
   */
  function ReadNamed<T, N>(v: Json, read: Json -> Result<T, DecodeError>, wrap: T -> N): (r: Result<N, DecodeError>)
    ensures r.Success? <==> read(v).Success?
    ensures r.Success? ==> r.value == wrap(read(v).value)
    ensures r.Failure? ==> r.error == read(v).error
  {
    var t :- read(v);
    Success(wrap(t))
  }

  /** `model::offset` is the named type over a signed 64-bit integer. */
  function ReadOffset(v: Json): (r: Result<Offset, DecodeError>)
    ensures r.Success? <==> IsInt64(v)
    ensures r.Success? ==> v == JInt(r.value.value)
  {
    ReadNamed(v, ReadInt64, (x: i64) => Offset(x))
  }

  /** `out` is `target` followed by the decoded `elems`, in order. */
  ghost predicate Appended<T>(target: seq<T>, elems: seq<Json>, read: Json -> Result<T, DecodeError>, out: seq<T>) {
    && |out| == |target| + |elems|
    && out[..|target|] == target
    && forall i :: 0 <= i < |elems| ==> read(elems[i]).Success? && out[|target| + i] == read(elems[i]).value
  }

  /**
    The loop of the container overload: decode each element into a fresh
    value and push it onto `target`. Stops at the first element that fails,
    with that element's error.
   */
  function ReadElems<T>(elems: seq<Json>, target: seq<T>, read: Json -> Result<T, DecodeError>): (r: Result<seq<T>, DecodeError>)
    ensures r.Success? <==> forall i :: 0 <= i < |elems| ==> read(elems[i]).Success?
    ensures r.Success? ==> Appended(target, elems, read, r.value)
    ensures r.Failure? ==> exists i :: 0 <= i < |elems| && read(elems[i]).Failure? && r.error == read(elems[i]).error
                                       && forall k :: 0 <= k < i ==> read(elems[k]).Success?
    decreases |elems|
  {
    if |elems| == 0 then Success(target)
    else
      var t :- read(elems[0]);
      var r := ReadElems(elems[1..], target + [t], read);
      assert forall i :: 1 <= i < |elems| ==> elems[i] == elems[1..][i - 1];
      r
  }

  /**
    The `fragmented_vector` overload: appends to whatever `target` already
    holds. The value is taken to be an array without a check; a non-array
    trips rapidjson's assertion, modelled as `NotAnArray`.
   */
  function ReadArray<T>(v: Json, target: seq<T>, read: Json -> Result<T, DecodeError>): (r: Result<seq<T>, DecodeError>)
    ensures !v.JArray? ==> r == Failure(NotAnArray)
    ensures v.JArray? ==> (r.Success? <==> forall i :: 0 <= i < |v.elems| ==> read(v.elems[i]).Success?)
    ensures r.Success? ==> Appended(target, v.elems, read, r.value)
  {
    if !v.JArray? then Failure(NotAnArray) else ReadElems(v.elems, target, read)
  }

  /**
    `read_member`: a missing key leaves `target` as it is and never fails;
    otherwise the first member with that key is decoded into `target`.
   */
  function ReadMember<T>(members: seq<(string, Json)>, key: string, target: T,
                         read: (Json, T) -> Result<T, DecodeError>): (r: Result<T, DecodeError>)
    ensures (forall i :: 0 <= i < |members| ==> members[i].0 != key) ==> r == Success(target)
    ensures forall i :: 0 <= i < |members| && members[i].0 == key && (forall k :: 0 <= k < i ==> members[k].0 != key)
                        ==> r == read(members[i].1, target)
  {
    FindMemberFirst(members, key);
    match FindMember(members, key)
    case None => Success(target)
    case Some(j) => read(j, target)
  }

  // ---------------------------------------------------------------------------
  // What a document must hold, and what the decoder takes from it, stated
  // directly on the members rather than through the decoders.
  // ---------------------------------------------------------------------------

  /** The member `key` is absent, or holds a number that `fits`. */
  predicate MemberFits(m: seq<(string, Json)>, key: string, fits: Json -> bool) {
    match FindMember(m, key)
    case None => true
    case Some(j) => fits(j)
  }

  /** The member `key` is absent, or is an array whose every element `fits`. */
  predicate ArrayMemberFits(m: seq<(string, Json)>, key: string, fits: Json -> bool) {
    match FindMember(m, key)
    case None => true
    case Some(j) => j.JArray? && forall i :: 0 <= i < |j.elems| ==> fits(j.elems[i])
  }

  /** Every member the decoder reads is absent or has the kind its field needs. */
  predicate Decodable(m: seq<(string, Json)>) {
    && MemberFits(m, "bitflags", IsUint)
    && MemberFits(m, "base_offset", IsInt64)
    && MemberFits(m, "base_timestamp", IsInt64)
    && MemberFits(m, "max_timestamp", IsInt64)
    && ArrayMemberFits(m, "relative_offset_index", IsUint)
    && ArrayMemberFits(m, "relative_time_index", IsUint)
    && ArrayMemberFits(m, "position_index", IsUint64)
  }

  /** The integer held by member `key`, or `default` when there is none. */
  function IntMember(m: seq<(string, Json)>, key: string, default: int): int {
    match FindMember(m, key)
    case Some(JInt(n)) => n
    case _ => default
  }

  /** The integers held by the array member `key`, in order; empty when there is none. */
  function IntsMember(m: seq<(string, Json)>, key: string): seq<int> {
    match FindMember(m, key)
    case Some(JArray(es)) => IntsOf(es)
    case _ => []
  }

  /** The integers held by `es`, in order (zero for an element that is not a number). */
  function IntsOf(es: seq<Json>): seq<int> {
    seq(|es|, i requires 0 <= i < |es| => if es[i].JInt? then es[i].n else 0)
  }

  // ---------------------------------------------------------------------------
  // from_json
  // ---------------------------------------------------------------------------

  // ---------------------------------------------------------------------------
  // read_member at the field types of index_state
  // ---------------------------------------------------------------------------

  /** `read_value` at the scalar field types, in the shape `read_member` takes. */
  function ReadUint32Into(v: Json, target: u32): Result<u32, DecodeError> {
    ReadUint32(v)
  }

  function ReadInt64Into(v: Json, target: i64): Result<i64, DecodeError> {
    ReadInt64(v)
  }

  function ReadOffsetInto(v: Json, target: Offset): Result<Offset, DecodeError> {
    ReadOffset(v)
  }

  /**
    `read_member` with a scalar decoder that succeeds exactly on the values
    that `fits` and then yields the number the value holds.
   */
  lemma ReadScalarMemberFacts<T>(m: seq<(string, Json)>, key: string, target: T,
                                 read: (Json, T) -> Result<T, DecodeError>, fits: Json -> bool, asInt: T -> int)
    requires forall j: Json :: read(j, target).Success? <==> fits(j)
    requires forall j: Json :: read(j, target).Success? ==> j == JInt(asInt(read(j, target).value))
    ensures ReadMember(m, key, target, read).Success? <==> MemberFits(m, key, fits)
    ensures ReadMember(m, key, target, read).Success? ==>
              asInt(ReadMember(m, key, target, read).value) == IntMember(m, key, asInt(target))
  {
    match FindMember(m, key)
    case None =>
    case Some(j) =>
      assert ReadMember(m, key, target, read) == read(j, target);
  }

  function ReadUint32Member(m: seq<(string, Json)>, key: string, target: u32): (r: Result<u32, DecodeError>)
    ensures r.Success? <==> MemberFits(m, key, IsUint)
    ensures r.Success? ==> r.value == IntMember(m, key, target)
  {
    ReadScalarMemberFacts(m, key, target, ReadUint32Into, IsUint, (x: u32) => x as int);
    ReadMember(m, key, target, ReadUint32Into)
  }

  function ReadInt64Member(m: seq<(string, Json)>, key: string, target: i64): (r: Result<i64, DecodeError>)
    ensures r.Success? <==> MemberFits(m, key, IsInt64)
    ensures r.Success? ==> r.value == IntMember(m, key, target)
  {
    ReadScalarMemberFacts(m, key, target, ReadInt64Into, IsInt64, (x: i64) => x as int);
    ReadMember(m, key, target, ReadInt64Into)
  }

  function ReadOffsetMember(m: seq<(string, Json)>, key: string, target: Offset): (r: Result<Offset, DecodeError>)
    ensures r.Success? <==> MemberFits(m, key, IsInt64)
    ensures r.Success? ==> r.value.value == IntMember(m, key, target.value)
  {
    ReadScalarMemberFacts(m, key, target, ReadOffsetInto, IsInt64, (o: Offset) => o.value as int);
    ReadMember(m, key, target, ReadOffsetInto)
  }

  /** The container overload at the element types of the index vectors. */
  function ReadUint32s(v: Json, target: seq<u32>): Result<seq<u32>, DecodeError> {
    ReadArray(v, target, ReadUint32)
  }

  function ReadUint64s(v: Json, target: seq<u64>): Result<seq<u64>, DecodeError> {
    ReadArray(v, target, ReadUint64)
  }

  /** Decoding each element as an unsigned 32-bit integer appends the integers they hold. */
  lemma AppendedUint32s(target: seq<u32>, es: seq<Json>, out: seq<u32>)
    requires Appended(target, es, ReadUint32, out)
    ensures out == target + IntsOf(es)
  {
    forall k | 0 <= k < |out| ensures out[k] == (target + IntsOf(es))[k] {
      if k >= |target| {
        var i := k - |target|;
        assert ReadUint32(es[i]).Success? && out[k] == ReadUint32(es[i]).value;
      } else {
        assert out[k] == out[..|target|][k];
      }
    }
  }

  lemma AppendedUint64s(target: seq<u64>, es: seq<Json>, out: seq<u64>)
    requires Appended(target, es, ReadUint64, out)
    ensures out == target + IntsOf(es)
  {
    forall k | 0 <= k < |out| ensures out[k] == (target + IntsOf(es))[k] {
      if k >= |target| {
        var i := k - |target|;
        assert ReadUint64(es[i]).Success? && out[k] == ReadUint64(es[i]).value;
      } else {
        assert out[k] == out[..|target|][k];
      }
    }
  }

  lemma ReadUint32sMemberFacts(m: seq<(string, Json)>, key: string, target: seq<u32>)
    ensures ReadMember(m, key, target, ReadUint32s).Success? <==> ArrayMemberFits(m, key, IsUint)
    ensures ReadMember(m, key, target, ReadUint32s).Success? ==>
              ReadMember(m, key, target, ReadUint32s).value == target + IntsMember(m, key)
  {
    match FindMember(m, key)
    case None =>
    case Some(j) =>
      var r := ReadUint32s(j, target);
      assert ReadMember(m, key, target, ReadUint32s) == r;
      if r.Success? {
        AppendedUint32s(target, j.elems, r.value);
      }
  }

  lemma ReadUint64sMemberFacts(m: seq<(string, Json)>, key: string, target: seq<u64>)
    ensures ReadMember(m, key, target, ReadUint64s).Success? <==> ArrayMemberFits(m, key, IsUint64)
    ensures ReadMember(m, key, target, ReadUint64s).Success? ==>
              ReadMember(m, key, target, ReadUint64s).value == target + IntsMember(m, key)
  {
    match FindMember(m, key)
    case None =>
    case Some(j) =>
      var r := ReadUint64s(j, target);
      assert ReadMember(m, key, target, ReadUint64s) == r;
      if r.Success? {
        AppendedUint64s(target, j.elems, r.value);
      }
  }

  function ReadUint32sMember(m: seq<(string, Json)>, key: string, target: seq<u32>): (r: Result<seq<u32>, DecodeError>)
    ensures r.Success? <==> ArrayMemberFits(m, key, IsUint)
    ensures r.Success? ==> r.value == target + IntsMember(m, key)
  {
    ReadUint32sMemberFacts(m, key, target);
    ReadMember(m, key, target, ReadUint32s)
  }

  function ReadUint64sMember(m: seq<(string, Json)>, key: string, target: seq<u64>): (r: Result<seq<u64>, DecodeError>)
    ensures r.Success? <==> ArrayMemberFits(m, key, IsUint64)
    ensures r.Success? ==> r.value == target + IntsMember(m, key)
  {
    ReadUint64sMemberFacts(m, key, target);
    ReadMember(m, key, target, ReadUint64s)
  }

  /** The values `from_json` reads, before it assembles the state. */
  datatype Fields = Fields(
    bitflags: u32,
    baseOffset: Offset,
    baseT: i64,
    maxT: i64,
    relativeOffsetIndex: seq<u32>,
    relativeTimeIndex: seq<u32>,
    positionIndex: seq<u64>)

  /**
    The seven `read_member` calls of `from_json`, in order, each into a
    default-constructed field; the two timestamp locals start at `baseT0`
    and `maxT0`. Every member is decoded even when its value is later unused.
   */
  function ReadFields(m: seq<(string, Json)>, baseT0: i64, maxT0: i64): (r: Result<Fields, DecodeError>)
    ensures r.Success? <==> Decodable(m)
    ensures r.Success? ==> r.value.bitflags == IntMember(m, "bitflags", Default.bitflags)
    ensures r.Success? ==> r.value.baseOffset.value == IntMember(m, "base_offset", Default.baseOffset.value)
    ensures r.Success? ==> r.value.baseT == IntMember(m, "base_timestamp", baseT0)
    ensures r.Success? ==> r.value.maxT == IntMember(m, "max_timestamp", maxT0)
    ensures r.Success? ==> r.value.relativeOffsetIndex == IntsMember(m, "relative_offset_index")
    ensures r.Success? ==> r.value.relativeTimeIndex == IntsMember(m, "relative_time_index")
    ensures r.Success? ==> r.value.positionIndex == IntsMember(m, "position_index")
  {
    var bitflags :- ReadUint32Member(m, "bitflags", Default.bitflags);
    var baseOffset :- ReadOffsetMember(m, "base_offset", Default.baseOffset);
    var baseT :- ReadInt64Member(m, "base_timestamp", baseT0);
    var maxT :- ReadInt64Member(m, "max_timestamp", maxT0);
    var roi :- ReadUint32sMember(m, "relative_offset_index", Default.relativeOffsetIndex);
    var rti :- ReadUint32sMember(m, "relative_time_index", Default.relativeTimeIndex);
    var pos :- ReadUint64sMember(m, "position_index", Default.positionIndex);
    Success(Fields(bitflags, baseOffset, baseT, maxT, roi, rti, pos))
  }

  /**
    `from_json` as written. The document must be an object. `max_offset` is
    never read, so it keeps its default, and `max_timestamp` is assigned from
    the local holding "base_timestamp" (line 84), so the "max_timestamp"
    member is decoded but its value is dropped. Both timestamp locals are
    uninitialised; `uninit` stands for whatever they hold, which is what
    `base_timestamp` gets when its key is missing.
   */
  function FromJson(w: Json, uninit: i64): (r: Result<IndexState, DecodeError>)
    ensures !w.JObject? ==> r == Failure(VerifyFailed)
    ensures w.JObject? ==> (r.Success? <==> Decodable(w.members))
    ensures r.Success? ==> r.value.bitflags == IntMember(w.members, "bitflags", Default.bitflags)
    ensures r.Success? ==> r.value.baseOffset.value == IntMember(w.members, "base_offset", Default.baseOffset.value)
    ensures r.Success? ==> r.value.maxOffset == Default.maxOffset
    ensures r.Success? ==> r.value.baseTimestamp.value == IntMember(w.members, "base_timestamp", uninit)
    ensures r.Success? ==> r.value.maxTimestamp == r.value.baseTimestamp
    ensures r.Success? ==> r.value.relativeOffsetIndex == IntsMember(w.members, "relative_offset_index")
    ensures r.Success? ==> r.value.relativeTimeIndex == IntsMember(w.members, "relative_time_index")
    ensures r.Success? ==> r.value.positionIndex == IntsMember(w.members, "position_index")
  {
    if !w.JObject? then Failure(VerifyFailed) else
    // max_t's starting value is never observed, so one indeterminate value serves both locals
    var f :- ReadFields(w.members, uninit, uninit);
    Success(Default.(
      bitflags := f.bitflags,
      baseOffset := f.baseOffset,
      baseTimestamp := Timestamp(f.baseT),
      maxTimestamp := Timestamp(f.baseT),
      relativeOffsetIndex := f.relativeOffsetIndex,
      relativeTimeIndex := f.relativeTimeIndex,
      positionIndex := f.positionIndex))
  }

  /**
    `from_json` as evidently intended: each timestamp comes from its own
    member, and a missing timestamp member leaves its field at the default
    instead of an indeterminate value. `max_offset` is still not read.
   */
  function FromJsonIntended(w: Json): (r: Result<IndexState, DecodeError>)
    ensures !w.JObject? ==> r == Failure(VerifyFailed)
    ensures w.JObject? ==> (r.Success? <==> Decodable(w.members))
    ensures r.Success? ==> r.value.bitflags == IntMember(w.members, "bitflags", Default.bitflags)
    ensures r.Success? ==> r.value.baseOffset.value == IntMember(w.members, "base_offset", Default.baseOffset.value)
    ensures r.Success? ==> r.value.maxOffset == Default.maxOffset
    ensures r.Success? ==> r.value.baseTimestamp.value == IntMember(w.members, "base_timestamp", Default.baseTimestamp.value)
    ensures r.Success? ==> r.value.maxTimestamp.value == IntMember(w.members, "max_timestamp", Default.maxTimestamp.value)
    ensures r.Success? ==> r.value.relativeOffsetIndex == IntsMember(w.members, "relative_offset_index")
    ensures r.Success? ==> r.value.relativeTimeIndex == IntsMember(w.members, "relative_time_index")
    ensures r.Success? ==> r.value.positionIndex == IntsMember(w.members, "position_index")
  {
    if !w.JObject? then Failure(VerifyFailed) else
    var f :- ReadFields(w.members, Default.baseTimestamp.value, Default.maxTimestamp.value);
    Success(Default.(
      bitflags := f.bitflags,
      baseOffset := f.baseOffset,
      baseTimestamp := Timestamp(f.baseT),
      maxTimestamp := Timestamp(f.maxT),
      relativeOffsetIndex := f.relativeOffsetIndex,
      relativeTimeIndex := f.relativeTimeIndex,
      positionIndex := f.positionIndex))
  }

  /**
    The check of `read_corpus` once both fixtures are decoded: the state read
    from the JSON document must equal `binary`, the state the binary codec
    decoded (equality of `index_state` taken to be field-by-field).
   */
  function ReadCorpus(doc: Json, binary: IndexState, uninit: i64): (r: Result<IndexState, DecodeError>)
    ensures r.Success? <==> FromJson(doc, uninit) == Success(binary)
    ensures r.Success? ==> r.value == binary
    ensures r.Failure? && FromJson(doc, uninit).Success? ==> r.error == VerifyFailed
  {
    var st :- FromJson(doc, uninit);
    :- Verify(st == binary);
    Success(st)
  }

  // ---------------------------------------------------------------------------
  // to_json
  // ---------------------------------------------------------------------------

  /** `json::rjson_serialize` of an integer: a number with that value. */
  function WriteInt(x: int): Json {
    JInt(x)
  }

  /** `json::rjson_serialize` of a sequence: an array of its elements, in order. */
  function WriteInts(xs: seq<int>): (r: Json)
    ensures r.JArray? && |r.elems| == |xs|
    ensures forall i :: 0 <= i < |xs| ==> r.elems[i] == JInt(xs[i])
  {
    JArray(seq(|xs|, i requires 0 <= i < |xs| => WriteInt(xs[i])))
  }

  /** The keys `to_json` writes, in the order it writes them. */
  const ToJsonKeys: seq<string> := [
    "bitflags", "base_offset", "base_timestamp", "max_timestamp",
    "relative_offset_index", "relative_time_index", "position_index"]

  /**
    `to_json`: one object with seven members in a fixed order. `max_offset`
    is not among them; `max_timestamp` is written with its own value.
   */
  function ToJson(st: IndexState): (r: Json)
    ensures r.JObject? && Keys(r.members) == ToJsonKeys
    ensures "max_offset" !in Keys(r.members)
    ensures FindMember(r.members, "max_timestamp") == Some(JInt(st.maxTimestamp.value))
  {
    var members := [
      ("bitflags", WriteInt(st.bitflags)),
      ("base_offset", WriteInt(st.baseOffset.value)),
      ("base_timestamp", WriteInt(st.baseTimestamp.value)),
      ("max_timestamp", WriteInt(st.maxTimestamp.value)),
      ("relative_offset_index", WriteInts(st.relativeOffsetIndex)),
      ("relative_time_index", WriteInts(st.relativeTimeIndex)),
      ("position_index", WriteInts(st.positionIndex))];
    FindMemberAt(members, 3, "max_timestamp");
    JObject(members)
  }

  // ---------------------------------------------------------------------------
  // make_random_index_state
  // ---------------------------------------------------------------------------

  /**
    What the random generator hands out, in order: the five header fields,
    the entry count `n`, then one triple per loop iteration that draws.
   */
  datatype Draws = Draws(
    bitflags: u32,
    baseOffset: i64,
    maxOffset: i64,
    baseTimestamp: i64,
    maxTimestamp: i64,
    n: int,
    entries: seq<Entry>)

  /** The header fields of the state the builder starts from. */
  function Header(d: Draws): IndexState {
    Default.(
      bitflags := d.bitflags,
      baseOffset := Offset(d.baseOffset),
      maxOffset := Offset(d.maxOffset),
      baseTimestamp := Timestamp(d.baseTimestamp),
      maxTimestamp := Timestamp(d.maxTimestamp))
  }

  /**
    `make_random_index_state` as written. The entry count is drawn from
    [1, 10000], but the `return st` inside the loop body ends the builder
    after the first `add_entry`, so the state always holds exactly one sample.
   */
  method MakeRandomIndexState(d: Draws) returns (st: IndexState)
    requires 1 <= d.n <= 10000 && d.n <= |d.entries|
    ensures st.bitflags == d.bitflags && st.baseOffset.value == d.baseOffset && st.maxOffset.value == d.maxOffset
    ensures st.baseTimestamp.value == d.baseTimestamp && st.maxTimestamp.value == d.maxTimestamp
    ensures st.relativeOffsetIndex == [d.entries[0].relativeOffset]
    ensures st.relativeTimeIndex == [d.entries[0].relativeTime]
    ensures st.positionIndex == [d.entries[0].position]
  {
    st := Header(d);
    for i := 0 to d.n
      invariant i == 0
      invariant st == Header(d)
    {
      st := AddEntry(st, d.entries[i]);
      return st;
    }
    return st;
  }

  /**
    `make_random_index_state` as evidently intended: one sample per loop
    iteration, `n` in all, in the order they were drawn.
   */
  method MakeIndexStateIntended(d: Draws) returns (st: IndexState)
    requires 1 <= d.n <= 10000 && d.n <= |d.entries|
    ensures st.bitflags == d.bitflags && st.baseOffset.value == d.baseOffset && st.maxOffset.value == d.maxOffset
    ensures st.baseTimestamp.value == d.baseTimestamp && st.maxTimestamp.value == d.maxTimestamp
    ensures |st.relativeOffsetIndex| == d.n && |st.relativeTimeIndex| == d.n && |st.positionIndex| == d.n
    ensures forall k :: 0 <= k < |st.positionIndex| ==>
              && st.relativeOffsetIndex[k] == d.entries[k].relativeOffset
              && st.relativeTimeIndex[k] == d.entries[k].relativeTime
              && st.positionIndex[k] == d.entries[k].position
  {
    st := Header(d);
    for i := 0 to d.n
      invariant st.(relativeOffsetIndex := [], relativeTimeIndex := [], positionIndex := []) == Header(d)
      invariant |st.relativeOffsetIndex| == |st.relativeTimeIndex| == |st.positionIndex| == i
      invariant forall k :: 0 <= k < i ==>
                  && st.relativeOffsetIndex[k] == d.entries[k].relativeOffset
                  && st.relativeTimeIndex[k] == d.entries[k].relativeTime
                  && st.positionIndex[k] == d.entries[k].position
    {
      st := AddEntry(st, d.entries[i]);
    }
  }
}
