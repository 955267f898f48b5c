/**
  Properties of the JSON field mapping: each decoder inverts the matching
  serializer, the container decoder appends, and what survives a
  `to_json` / `from_json` round trip.
 */
module CompatCheckLemmas {
  import opened Wrappers
  import opened Ints
  import opened Json
  import opened Storage
  import opened CompatCheck

  /** Each primitive decoder accepts what the serializer writes for its type and returns the same number. */
  lemma PrimitiveReadsInvertWrite(a: i64, b: u64, c: u32, d: i32)
    ensures ReadInt64(WriteInt(a)) == Success(a)
    ensures ReadUint64(WriteInt(b)) == Success(b)
    ensures ReadUint32(WriteInt(c)) == Success(c)
    ensures ReadInt32(WriteInt(d)) == Success(d)
  {
  }

  /** Unsigned decoders reject every negative number; every decoder rejects non-integers. */
  lemma NoSignOrKindConversion(n: int, v: Json)
    requires n < 0
    requires !v.JInt?
    ensures ReadUint64(JInt(n)).Failure? && ReadUint32(JInt(n)).Failure?
    ensures ReadInt64(v).Failure? && ReadUint64(v).Failure? && ReadUint32(v).Failure? && ReadInt32(v).Failure?
  {
  }

  /** The named-type decoder inverts the serializer of the wrapped value. */
  lemma OffsetReadInvertsWrite(o: Offset)
    ensures ReadOffset(WriteInt(o.value)) == Success(o)
  {
  }

  /** The container decoder appends to the target it is given instead of replacing it. */
  lemma {:induction false} ReadArrayAppendsToTarget<T>(v: Json, target: seq<T>, read: Json -> Result<T, DecodeError>)
    requires ReadArray(v, [], read).Success?
    ensures ReadArray(v, target, read) == Success(target + ReadArray(v, [], read).value)
  {
    var decoded := ReadArray(v, [], read).value;
    var r := ReadArray(v, target, read);
    assert r.Success?;
    assert |r.value| == |target + decoded|;
    forall i | 0 <= i < |r.value|
      ensures r.value[i] == (target + decoded)[i]
    {
      if i < |target| {
        assert r.value[..|target|][i] == r.value[i];
      } else {
        var j := i - |target|;
        assert read(v.elems[j]).Success?;
        assert decoded[0 + j] == read(v.elems[j]).value;
        assert r.value[|target| + j] == read(v.elems[j]).value;
      }
    }
    assert r.value == target + decoded;
  }

  /** Decoding a serialized sequence appends exactly its elements, in order. */
  lemma {:induction false} ReadArrayInvertsWrite(xs: seq<u32>, ys: seq<u64>)
    ensures ReadArray(WriteInts(xs), [], ReadUint32) == Success(xs)
    ensures ReadArray(WriteInts(ys), [], ReadUint64) == Success(ys)
  {
    var r := ReadArray(WriteInts(xs), [], ReadUint32);
    assert forall i :: 0 <= i < |xs| ==> ReadUint32(WriteInts(xs).elems[i]) == Success(xs[i]);
    assert r.Success?;
    assert r.value == xs by {
      forall i | 0 <= i < |xs| ensures r.value[i] == xs[i] {
        assert r.value[0 + i] == ReadUint32(WriteInts(xs).elems[i]).value;
      }
    }
    var q := ReadArray(WriteInts(ys), [], ReadUint64);
    assert forall i :: 0 <= i < |ys| ==> ReadUint64(WriteInts(ys).elems[i]) == Success(ys[i]);
    assert q.Success?;
    assert q.value == ys by {
      forall i | 0 <= i < |ys| ensures q.value[i] == ys[i] {
        assert q.value[0 + i] == ReadUint64(WriteInts(ys).elems[i]).value;
      }
    }
  }

  /** The seven keys `to_json` writes are pairwise different. */
  lemma ToJsonKeysDistinct()
    ensures forall i, k :: 0 <= k < i < |ToJsonKeys| ==> ToJsonKeys[k] != ToJsonKeys[i]
  {
    var ks := ToJsonKeys;
    assert ks[2][0] != ks[6][0];
    assert forall i :: 0 <= i < 7 && i != 2 && i != 6 ==> |ks[i]| != |ks[2]|;
    assert forall i, k :: 0 <= k < i < 7 && !(k == 2 && i == 6) ==> |ks[k]| != |ks[i]|;
  }

  /** The lookup of the `i`-th key `to_json` writes finds the `i`-th member. */
  lemma ToJsonLookupAt(st: IndexState, i: nat)
    requires i < |ToJsonKeys|
    ensures FindMember(ToJson(st).members, ToJsonKeys[i]) == Some(ToJson(st).members[i].1)
  {
    var m := ToJson(st).members;
    ToJsonKeysDistinct();
    assert forall k :: 0 <= k < |m| ==> m[k].0 == Keys(m)[k];
    FindMemberAt(m, i, ToJsonKeys[i]);
  }

  /** What `from_json` finds under each key of a document written by `to_json`. */
  lemma ToJsonLookups(st: IndexState)
    ensures FindMember(ToJson(st).members, "bitflags") == Some(JInt(st.bitflags))
    ensures FindMember(ToJson(st).members, "base_offset") == Some(JInt(st.baseOffset.value))
    ensures FindMember(ToJson(st).members, "base_timestamp") == Some(JInt(st.baseTimestamp.value))
    ensures FindMember(ToJson(st).members, "max_timestamp") == Some(JInt(st.maxTimestamp.value))
    ensures FindMember(ToJson(st).members, "relative_offset_index") == Some(WriteInts(st.relativeOffsetIndex))
    ensures FindMember(ToJson(st).members, "relative_time_index") == Some(WriteInts(st.relativeTimeIndex))
    ensures FindMember(ToJson(st).members, "position_index") == Some(WriteInts(st.positionIndex))
  {
    ToJsonLookupAt(st, 0);
    ToJsonLookupAt(st, 1);
    ToJsonLookupAt(st, 2);
    ToJsonLookupAt(st, 3);
    ToJsonLookupAt(st, 4);
    ToJsonLookupAt(st, 5);
    ToJsonLookupAt(st, 6);
  }

  /** The integers of a serialized sequence are the sequence itself. */
  lemma IntsOfWritten(m: seq<(string, Json)>, key: string, xs: seq<int>)
    requires FindMember(m, key) == Some(WriteInts(xs))
    ensures IntsMember(m, key) == xs
  {
  }

  /** A document written by `to_json` satisfies every kind check `from_json` makes. */
  lemma ToJsonIsDecodable(st: IndexState)
    ensures Decodable(ToJson(st).members)
  {
    ToJsonLookups(st);
    DecodableFromLookups(ToJson(st).members, st);
  }

  /** Members holding `st`'s fields as `to_json` writes them pass every kind check. */
  lemma DecodableFromLookups(m: seq<(string, Json)>, st: IndexState)
    requires FindMember(m, "bitflags") == Some(JInt(st.bitflags))
    requires FindMember(m, "base_offset") == Some(JInt(st.baseOffset.value))
    requires FindMember(m, "base_timestamp") == Some(JInt(st.baseTimestamp.value))
    requires FindMember(m, "max_timestamp") == Some(JInt(st.maxTimestamp.value))
    requires FindMember(m, "relative_offset_index") == Some(WriteInts(st.relativeOffsetIndex))
    requires FindMember(m, "relative_time_index") == Some(WriteInts(st.relativeTimeIndex))
    requires FindMember(m, "position_index") == Some(WriteInts(st.positionIndex))
    ensures Decodable(m)
  {
    WrittenIntFits(m, "bitflags", st.bitflags, IsUint);
    WrittenIntFits(m, "base_offset", st.baseOffset.value, IsInt64);
    WrittenIntFits(m, "base_timestamp", st.baseTimestamp.value, IsInt64);
    WrittenIntFits(m, "max_timestamp", st.maxTimestamp.value, IsInt64);
    WrittenIntsFit(m, "relative_offset_index", st.relativeOffsetIndex, IsUint);
    WrittenIntsFit(m, "relative_time_index", st.relativeTimeIndex, IsUint);
    WrittenIntsFit(m, "position_index", st.positionIndex, IsUint64);
  }

  /** A serialized number that `fits` passes the kind check. */
  lemma WrittenIntFits(m: seq<(string, Json)>, key: string, x: int, fits: Json -> bool)
    requires FindMember(m, key) == Some(JInt(x))
    requires fits(JInt(x))
    ensures MemberFits(m, key, fits)
  {
  }

  /** A serialized sequence whose every number `fits` passes the array check. */
  lemma WrittenIntsFit(m: seq<(string, Json)>, key: string, xs: seq<int>, fits: Json -> bool)
    requires FindMember(m, key) == Some(WriteInts(xs))
    requires forall i :: 0 <= i < |xs| ==> fits(JInt(xs[i]))
    ensures ArrayMemberFits(m, key, fits)
  {
  }

  /**
    Round trip as written: `from_json` recovers `bitflags`, `base_offset`,
    `base_timestamp` and the three sequences, element by element; `max_offset`
    comes back as the default and `max_timestamp` as `base_timestamp`.
   */
  lemma FromJsonOfToJson(st: IndexState, uninit: i64)
    ensures FromJson(ToJson(st), uninit) == Success(st.(maxOffset := Default.maxOffset, maxTimestamp := st.baseTimestamp))
  {
    var m := ToJson(st).members;
    ToJsonLookups(st);
    ToJsonIsDecodable(st);
    IntsOfWritten(m, "relative_offset_index", st.relativeOffsetIndex);
    IntsOfWritten(m, "relative_time_index", st.relativeTimeIndex);
    IntsOfWritten(m, "position_index", st.positionIndex);
  }

  /**
    The equality `read_corpus` checks holds for a state written by `to_json`
    exactly when its `max_offset` is the default and its `max_timestamp`
    equals its `base_timestamp`.
   */
  lemma FromJsonRecoversExactly(st: IndexState, uninit: i64)
    ensures FromJson(ToJson(st), uninit) == Success(st)
            <==> st.maxOffset == Default.maxOffset && st.maxTimestamp == st.baseTimestamp
  {
    FromJsonOfToJson(st, uninit);
  }

  /**
    A corpus written for `st` (its JSON by `to_json`, its binary form taken to
    decode back to `st`) passes the check of `read_corpus` exactly when
    `max_offset` is the default and `max_timestamp == base_timestamp`.
   */
  lemma ReadCorpusOfWrittenState(st: IndexState, uninit: i64)
    ensures ReadCorpus(ToJson(st), st, uninit).Success?
            <==> st.maxOffset == Default.maxOffset && st.maxTimestamp == st.baseTimestamp
  {
    FromJsonRecoversExactly(st, uninit);
  }

  /** The value of the "max_timestamp" member never reaches the decoded state. */
  lemma MaxTimestampMemberIgnored(st: IndexState, t: Timestamp, uninit: i64)
    ensures FromJson(ToJson(st.(maxTimestamp := t)), uninit) == FromJson(ToJson(st), uninit)
  {
    FromJsonOfToJson(st, uninit);
    FromJsonOfToJson(st.(maxTimestamp := t), uninit);
  }

  /** A concrete state whose `max_timestamp` does not survive the round trip. */
  lemma MaxTimestampLost(uninit: i64)
    ensures var st := Default.(baseTimestamp := Timestamp(1), maxTimestamp := Timestamp(2));
            FromJson(ToJson(st), uninit) != Success(st)
  {
    FromJsonRecoversExactly(Default.(baseTimestamp := Timestamp(1), maxTimestamp := Timestamp(2)), uninit);
  }

  /**
    With no "base_timestamp" member both timestamps carry the uninitialised
    local's value: two different indeterminate values give two different states.
   */
  lemma MissingBaseTimestampIndeterminate(u1: i64, u2: i64)
    requires u1 != u2
    ensures FromJson(JObject([]), u1).Success? && FromJson(JObject([]), u2).Success?
    ensures FromJson(JObject([]), u1).value.baseTimestamp != FromJson(JObject([]), u2).value.baseTimestamp
  {
  }

  /** Only the first of two members with the same key is read. */
  lemma FirstDuplicateMemberWins(uninit: i64)
    ensures FromJson(JObject([("bitflags", JInt(1)), ("bitflags", JString("x"))]), uninit).Success?
    ensures FromJson(JObject([("bitflags", JInt(1)), ("bitflags", JString("x"))]), uninit).value.bitflags == 1
    ensures FromJson(JObject([("bitflags", JString("x")), ("bitflags", JInt(1))]), uninit).Failure?
  {
    var m := [("bitflags", JInt(1)), ("bitflags", JString("x"))];
    assert FindMember(m, "bitflags") == Some(JInt(1));
    var m' := [("bitflags", JString("x")), ("bitflags", JInt(1))];
    assert FindMember(m', "bitflags") == Some(JString("x"));
  }

  /**
    A document parsed from an empty stream is null, so `read_corpus` reading
    its placeholder empty buffer always fails at the object check.
   */
  lemma ReadCorpusOfEmptyDocumentFails(binary: IndexState, uninit: i64)
    ensures ReadCorpus(JNull, binary, uninit) == Failure(VerifyFailed)
  {
  }

  /**
    Round trip of the corrected decoder: everything written is recovered,
    `max_timestamp` included; only `max_offset`, which `to_json` does not
    write, comes back as the default.
   */
  lemma FromJsonIntendedOfToJson(st: IndexState)
    ensures FromJsonIntended(ToJson(st)) == Success(st.(maxOffset := Default.maxOffset))
  {
    var m := ToJson(st).members;
    ToJsonLookups(st);
    ToJsonIsDecodable(st);
    IntsOfWritten(m, "relative_offset_index", st.relativeOffsetIndex);
    IntsOfWritten(m, "relative_time_index", st.relativeTimeIndex);
    IntsOfWritten(m, "position_index", st.positionIndex);
  }

  /** The corrected decoder gives a fully default state for an empty object. */
  lemma FromJsonIntendedOfEmptyObject()
    ensures FromJsonIntended(JObject([])) == Success(Default)
  {
  }
}
