/** Parsed JSON values.  Objects keep insertion order; a well-formed object has distinct keys. */
module Json {
  import opened Wrappers

  datatype Json =
    | Null
    | Bool(b: bool)
    | Int(n: int)
    | Float(r: real)
    | Str(s: string)
    | Arr(items: seq<Json>)
    | Obj(fields: seq<Field>)

  datatype Field = Field(key: string, value: Json)

  /** Position of a key, None when absent. */
  function IndexOf(fields: seq<Field>, key: string): (k: Option<nat>)
    ensures k.Some? ==> k.value < |fields| && fields[k.value].key == key
                        && forall i :: 0 <= i < k.value ==> fields[i].key != key
    ensures k.None? ==> forall i :: 0 <= i < |fields| ==> fields[i].key != key
  {
    if fields == [] then None
    else if fields[0].key == key then Some(0)
    else
      var k := IndexOf(fields[1..], key);
      if k.None? then None else Some(k.value + 1)
  }

  predicate Has(fields: seq<Field>, key: string) {
    IndexOf(fields, key).Some?
  }

  function Get(fields: seq<Field>, key: string): (v: Json)
    requires Has(fields, key)
    ensures v < Obj(fields)
  {
    fields[IndexOf(fields, key).value].value
  }

  /** d[key] = value: in place when present, appended otherwise. */
  function Put(fields: seq<Field>, key: string, value: Json): seq<Field> {
    var k := IndexOf(fields, key);
    if k.Some? then fields[k.value := Field(key, value)] else fields + [Field(key, value)]
  }

  ghost predicate DistinctKeys(fields: seq<Field>) {
    forall i, j :: 0 <= i < j < |fields| ==> fields[i].key != fields[j].key
  }

  /** Distinct keys in every object at every depth. */
  ghost predicate WellFormed(v: Json) {
    match v
    case Arr(items) => forall i :: 0 <= i < |items| ==> WellFormed(items[i])
    case Obj(fields) => DistinctKeys(fields) && forall i :: 0 <= i < |fields| ==> WellFormed(fields[i].value)
    case _ => true
  }

  lemma IndexOfDistinct(fields: seq<Field>, i: nat)
    requires DistinctKeys(fields) && i < |fields|
    ensures IndexOf(fields, fields[i].key) == Some(i)
  {
  }

  lemma PutSpec(fields: seq<Field>, key: string, value: Json)
    ensures var r := Put(fields, key, value);
            && Has(r, key) && Get(r, key) == value
            && (forall k :: k != key ==> (Has(r, k) <==> Has(fields, k)))
            && (forall k :: k != key && Has(fields, k) ==> Get(r, k) == Get(fields, k))
            && (DistinctKeys(fields) ==> DistinctKeys(r))
            && (forall i :: 0 <= i < |r| ==> r[i] == Field(key, value) || r[i] in fields)
  {
    var r := Put(fields, key, value);
    var k0 := IndexOf(fields, key);
    assert r[if k0.Some? then k0.value else |fields|] == Field(key, value);
    assert IndexOf(r, key) == Some(if k0.Some? then k0.value else |fields|);
    forall k | k != key
      ensures Has(r, k) <==> Has(fields, k)
      ensures Has(fields, k) ==> Get(r, k) == Get(fields, k)
    {
      PutOther(fields, key, value, k);
    }
  }

  lemma PutOther(fields: seq<Field>, key: string, value: Json, k: string)
    requires k != key
    ensures IndexOf(Put(fields, key, value), k) == IndexOf(fields, k)
  {
    var r := Put(fields, key, value);
    var a, b := IndexOf(r, k), IndexOf(fields, k);
    if b.Some? { assert r[b.value].key == k; }
  }
}
