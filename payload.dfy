/**
 * The upstream JSON payload and the allow-list projections the three handlers apply to it
 * (src/index.js:66-76, 107-118, 152-159). Reading a property of `null` throws a
 * TypeError in JavaScript, and so does calling `data.map` on anything but an array; both
 * are failures here. A property the payload lacks reads as `undefined`.
 */
module Payload {
  import opened Wrappers

  /** A value produced by `response.json()`; numbers are taken as integers. */
  datatype Json =
    | Null
    | Bool(b: bool)
    | Number(n: int)
    | Str(s: string)
    | Array(items: seq<Json>)
    | Object(members: map<string, Json>)

  /** The value of a property of a reshaped object: a JSON value, or `undefined`. */
  datatype Slot = Undefined | Defined(value: Json)

  /** One property of an object literal, in the order the literal lists it. */
  datatype Member = Member(key: string, value: Slot)

  type Record = seq<Member>

  /** The TypeErrors the reshaping code can raise */
  datatype TypeFault =
    | ReadOfNull(property: string)   // `null.property`
    | MapNotAFunction                // `data.map(...)` where data is not an array

  /** `data.key` on a value that is not null: only an object's own members are defined. */
  function Lookup(data: Json, key: string): (v: Slot)
    ensures v.Defined? <==> data.Object? && key in data.members
    ensures v.Defined? ==> v.value == data.members[key]
  {
    if data.Object? && key in data.members then Defined(data.members[key]) else Undefined
  }

  /** `data.key`, which throws on null */
  function Read(data: Json, key: string): (r: Result<Slot, TypeFault>)
    ensures r.Failure? <==> data.Null?
    ensures r.Failure? ==> r.error == ReadOfNull(key)
    ensures r.Success? ==> r.value == Lookup(data, key)
  {
    if data.Null? then Failure(ReadOfNull(key)) else Success(Lookup(data, key))
  }

  /** The keys of a record, in order */
  function Keys(r: Record): (ks: seq<string>)
    ensures |ks| == |r|
  {
    if r == [] then [] else [r[0].key] + Keys(r[1..])
  }

  /** `rec` lists exactly `keys`, in order, each with the value `data` has under that key */
  predicate Projects(rec: Record, data: Json, keys: seq<string>) {
    Keys(rec) == keys && forall i :: 0 <= i < |keys| ==> rec[i].value == Lookup(data, keys[i])
  }

  /** `{ k1: data.k1, k2: data.k2, ... }`: the properties are read from left to right. */
  function Project(data: Json, keys: seq<string>): (r: Result<Record, TypeFault>)
    ensures r.Failure? <==> data.Null? && keys != []
    ensures r.Failure? ==> r.error == ReadOfNull(keys[0])
    ensures r.Success? ==> Projects(r.value, data, keys)
  {
    if keys == [] then Success([])
    else
      match Read(data, keys[0])
      case Failure(f) => Failure(f)
      case Success(v) =>
        match Project(data, keys[1..])
        case Failure(f) => Failure(f)
        case Success(rest) =>
          assert forall i :: 1 <= i < |keys| ==> keys[i] == keys[1..][i - 1];
          Success([Member(keys[0], v)] + rest)
  }

  /** Applies `Project` to each element in order; the first element that is null throws. */
  function ProjectEach(items: seq<Json>, keys: seq<string>): (r: Result<seq<Record>, TypeFault>)
    requires keys != []
    ensures r.Failure? <==> exists i :: 0 <= i < |items| && items[i].Null?
    ensures r.Failure? ==> r.error == ReadOfNull(keys[0])
    ensures r.Success? ==> |r.value| == |items|
    ensures r.Success? ==> forall i :: 0 <= i < |items| ==> Project(items[i], keys) == Success(r.value[i])
  {
    if items == [] then Success([])
    else
      match Project(items[0], keys)
      case Failure(f) => Failure(f)
      case Success(first) =>
        match ProjectEach(items[1..], keys)
        case Failure(f) =>
          assert exists i :: 0 <= i < |items| && items[i].Null? by {
            var i :| 0 <= i < |items[1..]| && items[1..][i].Null?;
            assert items[i + 1].Null?;
          }
          Failure(f)
        case Success(rest) =>
          var r := [first] + rest;
          assert forall i :: 1 <= i < |items| ==> items[i] == items[1..][i - 1] && r[i] == rest[i - 1];
          assert !items[0].Null? && r[0] == first;
          Success(r)
  }

  /** `data.map(item => ({ ... }))` */
  function ProjectList(data: Json, keys: seq<string>): (r: Result<seq<Record>, TypeFault>)
    requires keys != []
    ensures r.Success? <==> data.Array? && forall i :: 0 <= i < |data.items| ==> !data.items[i].Null?
    ensures r.Success? ==> |r.value| == |data.items|
    ensures r.Success? ==> forall i :: 0 <= i < |data.items| ==> Projects(r.value[i], data.items[i], keys)
    ensures data.Null? ==> r == Failure(ReadOfNull("map"))
    ensures !data.Null? && !data.Array? ==> r == Failure(MapNotAFunction)
    ensures data.Array? && r.Failure? ==> r.error == ReadOfNull(keys[0])
  {
    match data
    case Null => Failure(ReadOfNull("map"))
    case Array(items) => ProjectEach(items, keys)
    case _ => Failure(MapNotAFunction)
  }

  /** Upstream fields outside the allow-list have no effect on the projection. */
  lemma {:induction false} ProjectIgnoresUnlisted(d1: Json, d2: Json, keys: seq<string>)
    requires !d1.Null? && !d2.Null?
    requires forall k :: k in keys ==> Lookup(d1, k) == Lookup(d2, k)
    ensures Project(d1, keys) == Project(d2, keys)
  {
    if keys != [] {
      ProjectIgnoresUnlisted(d1, d2, keys[1..]);
    }
  }

  // The allow-lists of the three handlers

  const UserFields: seq<string> :=
    ["login", "name", "bio", "public_repos", "followers", "following", "avatar_url", "html_url", "created_at"]

  const RepoFields: seq<string> :=
    ["name", "full_name", "description", "language", "stargazers_count", "forks_count",
     "open_issues_count", "html_url", "created_at", "updated_at"]

  const RepoListFields: seq<string> :=
    ["name", "full_name", "description", "language", "stargazers_count", "html_url"]
}
