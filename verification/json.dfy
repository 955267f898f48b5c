/**
  A parsed JSON document, and the parts of the rapidjson value API that the
  index-state decoder relies on: the number-kind queries and member lookup.
 */
module Json {
  import opened Wrappers
  import opened Ints

  /**
    A JSON value as the parser leaves it. `JInt` is a number written without
    fraction or exponent; `JFloat` is any other number (rapidjson stores it as a
    double, so none of the integer queries below hold for it). An integer literal
    too large for 64 bits is also stored as a double by rapidjson; for such a
    `JInt` every integer query is false as well, which is what the parser does.
    Object members keep their textual order, duplicates included.
   */
  datatype Json =
    | JNull
    | JBool(b: bool)
    | JInt(n: int)
    | JFloat(text: string)
    | JString(s: string)
    | JArray(elems: seq<Json>)
    | JObject(members: seq<(string, Json)>)

  /** `IsInt64()`: an integer that fits a signed 64-bit integer. */
  predicate IsInt64(v: Json) {
    v.JInt? && I64_MIN <= v.n <= I64_MAX
  }

  /** `IsUint64()`: a non-negative integer that fits an unsigned 64-bit integer. */
  predicate IsUint64(v: Json) {
    v.JInt? && 0 <= v.n <= U64_MAX
  }

  /** `IsUint()`: a non-negative integer that fits an unsigned 32-bit integer. */
  predicate IsUint(v: Json) {
    v.JInt? && 0 <= v.n <= U32_MAX
  }

  /** `IsInt()`: an integer that fits a signed 32-bit integer. */
  predicate IsInt(v: Json) {
    v.JInt? && I32_MIN <= v.n <= I32_MAX
  }

  /** The keys of an object's members, in order. */
  function Keys(members: seq<(string, Json)>): (ks: seq<string>)
    ensures |ks| == |members|
    ensures forall i :: 0 <= i < |members| ==> ks[i] == members[i].0
  {
    seq(|members|, i requires 0 <= i < |members| => members[i].0)
  }

  /**
    `FindMember(key)`: the value of the FIRST member named `key`, or `None`
    when no member has that name (rapidjson's `MemberEnd()`).
   */
  function FindMember(members: seq<(string, Json)>, key: string): Option<Json>
    decreases |members|
  {
    if |members| == 0 then None
    else if members[0].0 == key then Some(members[0].1)
    else FindMember(members[1..], key)
  }

  /**
    What `FindMember` finds: nothing exactly when no member has the key, and
    otherwise the value of a member with that key that no earlier member shares.
   */
  lemma {:induction false} FindMemberFirst(members: seq<(string, Json)>, key: string)
    ensures FindMember(members, key).None? <==> forall i :: 0 <= i < |members| ==> members[i].0 != key
    ensures FindMember(members, key).Some? ==>
              exists i :: 0 <= i < |members| && members[i] == (key, FindMember(members, key).value)
                          && forall k :: 0 <= k < i ==> members[k].0 != key
    decreases |members|
  {
    if |members| > 0 && members[0].0 != key {
      FindMemberFirst(members[1..], key);
      assert forall i :: 1 <= i < |members| ==> members[i] == members[1..][i - 1];
      if FindMember(members, key).Some? {
        var i :| 0 <= i < |members[1..]| && members[1..][i] == (key, FindMember(members, key).value)
                 && forall k :: 0 <= k < i ==> members[1..][k].0 != key;
        assert members[i + 1] == (key, FindMember(members, key).value);
      }
    }
  }

  /** The first member with `key` determines the lookup. */
  lemma FindMemberAt(m: seq<(string, Json)>, i: nat, key: string)
    requires i < |m| && m[i].0 == key
    requires forall k :: 0 <= k < i ==> m[k].0 != key
    ensures FindMember(m, key) == Some(m[i].1)
  {
    FindMemberFirst(m, key);
    var j :| 0 <= j < |m| && m[j] == (key, FindMember(m, key).value) && forall k :: 0 <= k < j ==> m[k].0 != key;
    assert j == i;
  }
}
