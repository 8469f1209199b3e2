/**
  JSON values, the level at which serde_json hands documents to the derived
  `Deserialize` implementations and takes them back from `Serialize`.
  An object keeps its members as an ordered key/value sequence, so repeated
  keys and member order are both representable, as they are in JSON text.
  Numbers are integers only: every number this node reads or writes is a `u32`.
 */
module Json {

  datatype Json =
    | JNull
    | JBool(b: bool)
    | JNumber(n: int)
    | JString(s: string)
    | JArray(items: seq<Json>)
    | JObject(members: seq<(string, Json)>)

  /** What a derived deserializer sees when it looks a key up in an object. */
  datatype Lookup = Absent | Present(value: Json) | Repeated

  /** The key occurs at index `i` of `members` and nowhere else. */
  predicate OnlyAt(members: seq<(string, Json)>, key: string, i: int)
  {
    && 0 <= i < |members|
    && members[i].0 == key
    && forall j :: 0 <= j < |members| && j != i ==> members[j].0 != key
  }

  /**
    Looks `key` up among `members`: absent, present exactly once with its value,
    or repeated (serde's derived visitors reject a struct field seen twice).
   */
  function Find(members: seq<(string, Json)>, key: string): Lookup
  {
    if |members| == 0 then Absent
    else
      var rest := Find(members[1..], key);
      if members[0].0 != key then rest
      else if rest.Absent? then Present(members[0].1)
      else Repeated
  }

  lemma {:induction false} FindAbsent(members: seq<(string, Json)>, key: string)
    ensures Find(members, key) == Absent <==> forall i :: 0 <= i < |members| ==> members[i].0 != key
  {
    if |members| > 0 {
      FindAbsent(members[1..], key);
      assert forall i :: 1 <= i < |members| ==> members[i] == members[1..][i - 1];
    }
  }

  /** A key that occurs exactly once is found with the value stored beside it. */
  lemma {:induction false} FindOnlyAt(members: seq<(string, Json)>, key: string, i: int)
    requires OnlyAt(members, key, i)
    ensures Find(members, key) == Present(members[i].1)
  {
    if i == 0 {
      FindAbsent(members[1..], key);
    } else {
      assert OnlyAt(members[1..], key, i - 1);
      FindOnlyAt(members[1..], key, i - 1);
    }
  }

  /** A key found present occurs exactly once, with the value found. */
  lemma {:induction false} FoundOnlyAt(members: seq<(string, Json)>, key: string)
    requires Find(members, key).Present?
    ensures exists i :: OnlyAt(members, key, i) && members[i].1 == Find(members, key).value
  {
    if members[0].0 == key {
      FindAbsent(members[1..], key);
      assert OnlyAt(members, key, 0);
    } else {
      FoundOnlyAt(members[1..], key);
      var k :| OnlyAt(members[1..], key, k) && members[1..][k].1 == Find(members, key).value;
      assert OnlyAt(members, key, k + 1);
    }
  }

  /** A key that occurs twice is reported as repeated. */
  lemma {:induction false} FindTwice(members: seq<(string, Json)>, key: string, i: int, j: int)
    requires 0 <= i < j < |members| && members[i].0 == key && members[j].0 == key
    ensures Find(members, key) == Repeated
  {
    if i == 0 {
      FindAbsent(members[1..], key);
      assert members[1..][j - 1].0 == key;
    } else {
      FindTwice(members[1..], key, i - 1, j - 1);
    }
  }
}
