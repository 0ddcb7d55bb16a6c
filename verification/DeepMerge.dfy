/** The config deep merge of app/orchestrator/opencode_template.py and its law at every key path. */
module DeepMerge {
  import opened Wrappers
  import opened Json

  /** Objects merge key-wise; anything else in extra replaces the base value. */
  function Merge(base: Json, extra: Json): Json
    decreases extra
  {
    if base.Obj? && extra.Obj? then Obj(MergeFields(base.fields, extra.fields)) else extra
  }

  function MergeFields(base: seq<Field>, extra: seq<Field>): seq<Field>
    decreases extra
  {
    if extra == [] then base
    else MergeOne(MergeFields(base, extra[..|extra| - 1]), extra[|extra| - 1])
  }

  /** One field of extra. */
  function MergeOne(merged: seq<Field>, last: Field): seq<Field>
    decreases last, 0
  {
    Put(merged, last.key, if Has(merged, last.key) then Merge(Get(merged, last.key), last.value) else last.value)
  }

  // ---------------------------------------------------------------- one level

  lemma {:induction false} IndexOfAppend(fields: seq<Field>, last: Field, key: string)
    ensures IndexOf(fields + [last], key) ==
            if Has(fields, key) then IndexOf(fields, key)
            else if last.key == key then Some(|fields|) else None
  {
    if fields != [] {
      assert (fields + [last])[1..] == fields[1..] + [last];
      IndexOfAppend(fields[1..], last, key);
    }
  }

  /** What one more field does to a key. */
  lemma MergeOneKey(m: seq<Field>, last: Field, key: string)
    ensures var r := MergeOne(m, last);
            && (Has(r, key) <==> Has(m, key) || last.key == key)
            && (Has(r, key) ==>
                  Get(r, key) == if last.key != key then Get(m, key)
                                 else if Has(m, key) then Merge(Get(m, key), last.value)
                                 else last.value)
  {
    PutSpec(m, last.key, if Has(m, last.key) then Merge(Get(m, last.key), last.value) else last.value);
  }

  /** What a merged object maps a key to. */
  lemma {:induction false} MergedKey(base: seq<Field>, extra: seq<Field>, key: string)
    requires DistinctKeys(extra)
    ensures var r := MergeFields(base, extra);
            && (Has(r, key) <==> Has(base, key) || Has(extra, key))
            && (Has(r, key) ==>
                  Get(r, key) == if !Has(extra, key) then Get(base, key)
                                 else if Has(base, key) then Merge(Get(base, key), Get(extra, key))
                                 else Get(extra, key))
    decreases |extra|
  {
    if extra != [] {
      var first, last := extra[..|extra| - 1], extra[|extra| - 1];
      MergedKey(base, first, key);
      MergeOneKey(MergeFields(base, first), last, key);
      assert extra == first + [last];
      IndexOfAppend(first, last, key);
      assert !Has(first, last.key);
    }
  }

  // ---------------------------------------------------------------- every path

  /** The value a key path reaches. */
  function At(v: Json, path: seq<string>): Option<Json>
    decreases |path|
  {
    if path == [] then Some(v)
    else if v.Obj? && Has(v.fields, path[0]) then At(Get(v.fields, path[0]), path[1..])
    else None
  }

  /** The path runs into a non-object before its end. */
  predicate Blocked(v: Json, path: seq<string>)
    decreases |path|
  {
    path != [] &&
    if v.Obj? then Has(v.fields, path[0]) && Blocked(Get(v.fields, path[0]), path[1..])
    else true
  }

  /** What the merged document holds at a path, from the two inputs alone. */
  function MergedAt(base: Json, extra: Json, path: seq<string>): Option<Json> {
    var b, e := At(base, path), At(extra, path);
    if e.Some? then Some(if b.Some? then Merge(b.value, e.value) else e.value)
    else if Blocked(extra, path) then None
    else b
  }

  /**
    The path law: where extra reaches, its value wins (merged with base's when base reaches
    too); below a non-object of extra there is nothing; everywhere else base shows through.
   */
  lemma {:induction false} PathLaw(base: Json, extra: Json, path: seq<string>)
    requires WellFormed(extra)
    ensures At(Merge(base, extra), path) == MergedAt(base, extra, path)
    decreases |path|
  {
    if path != [] && base.Obj? && extra.Obj? {
      var key := path[0];
      MergedKey(base.fields, extra.fields, key);
      if Has(extra.fields, key) && Has(base.fields, key) {
        PathLaw(Get(base.fields, key), Get(extra.fields, key), path[1..]);
      }
    }
  }

  lemma NonObjectWins(base: Json, extra: Json, path: seq<string>)
    requires WellFormed(extra) && At(extra, path).Some? && !At(extra, path).value.Obj?
    ensures At(Merge(base, extra), path) == At(extra, path)
  {
    PathLaw(base, extra, path);
  }

  lemma UnreachedKeepsBase(base: Json, extra: Json, path: seq<string>)
    requires WellFormed(extra) && At(extra, path).None? && !Blocked(extra, path)
    ensures At(Merge(base, extra), path) == At(base, path)
  {
    PathLaw(base, extra, path);
  }

  // ---------------------------------------------------------------- identity and idempotence

  lemma MergeNothing(base: Json)
    requires base.Obj?
    ensures Merge(base, Obj([])) == base
  {
  }

  lemma PutSame(fields: seq<Field>, key: string)
    requires Has(fields, key)
    ensures Put(fields, key, Get(fields, key)) == fields
  {
  }

  /** Merging into a document that already holds each value of extra changes nothing. */
  lemma {:induction false} MergeAbsorbed(r: seq<Field>, extra: seq<Field>)
    requires forall i :: 0 <= i < |extra| ==>
               Has(r, extra[i].key) && Merge(Get(r, extra[i].key), extra[i].value) == Get(r, extra[i].key)
    ensures MergeFields(r, extra) == r
    decreases |extra|
  {
    if extra != [] {
      var n := |extra| - 1;
      MergeAbsorbed(r, extra[..n]);
      PutSame(r, extra[n].key);
    }
  }

  // ---------------------------------------------------------------- when merging changes nothing

  /** At this path the document already holds what extra holds, or both hold objects. */
  predicate AlreadyAt(doc: Json, extra: Json, path: seq<string>) {
    var d, e := At(doc, path), At(extra, path);
    e.Some? ==> d.Some? && (d == e || (d.value.Obj? && e.value.Obj?))
  }

  /** Every value extra reaches is already in the document. */
  ghost predicate AlreadyIn(doc: Json, extra: Json) {
    forall path :: AlreadyAt(doc, extra, path)
  }

  lemma AtBelow(v: Json, key: string, path: seq<string>)
    requires v.Obj? && Has(v.fields, key)
    ensures At(v, [key] + path) == At(Get(v.fields, key), path)
  {
    assert ([key] + path)[1..] == path;
  }

  lemma AlreadyInBelow(doc: Json, extra: Json, key: string)
    requires doc.Obj? && extra.Obj? && Has(extra.fields, key) && AlreadyIn(doc, extra)
    ensures Has(doc.fields, key) && AlreadyIn(Get(doc.fields, key), Get(extra.fields, key))
  {
    AtBelow(extra, key, []);
    assert AlreadyAt(doc, extra, [key] + []);
    forall path ensures AlreadyAt(Get(doc.fields, key), Get(extra.fields, key), path) {
      AtBelow(extra, key, path);
      AtBelow(doc, key, path);
      assert AlreadyAt(doc, extra, [key] + path);
    }
  }

  lemma {:induction false} AlreadyInIsAbsorbed(doc: Json, extra: Json)
    requires WellFormed(extra) && AlreadyIn(doc, extra)
    ensures Merge(doc, extra) == doc
    decreases extra
  {
    assert AlreadyAt(doc, extra, []);
    if doc.Obj? && extra.Obj? {
      forall i | 0 <= i < |extra.fields|
        ensures Has(doc.fields, extra.fields[i].key)
        ensures var key := extra.fields[i].key;
                Merge(Get(doc.fields, key), extra.fields[i].value) == Get(doc.fields, key)
      {
        IndexOfDistinct(extra.fields, i);
        AlreadyInBelow(doc, extra, extra.fields[i].key);
        AlreadyInIsAbsorbed(Get(doc.fields, extra.fields[i].key), extra.fields[i].value);
      }
      MergeAbsorbed(doc.fields, extra.fields);
    }
  }

  /** Merging leaves a document as it is if and only if it already holds every value extra reaches. */
  lemma AbsorbedIffAlreadyIn(doc: Json, extra: Json)
    requires WellFormed(extra)
    ensures Merge(doc, extra) == doc <==> AlreadyIn(doc, extra)
  {
    if Merge(doc, extra) == doc {
      forall path ensures AlreadyAt(doc, extra, path) { PathLaw(doc, extra, path); }
    } else if AlreadyIn(doc, extra) {
      AlreadyInIsAbsorbed(doc, extra);
    }
  }

  // ---------------------------------------------------------------- what extra hides

  /** The document with another value at a path it reaches. */
  function SetAt(v: Json, path: seq<string>, x: Json): Json
    decreases |path|
  {
    if path == [] then x
    else if v.Obj? && Has(v.fields, path[0])
    then Obj(Put(v.fields, path[0], SetAt(Get(v.fields, path[0]), path[1..], x)))
    else v
  }

  lemma PutIndex(fields: seq<Field>, key: string, x: Json)
    requires Has(fields, key)
    ensures IndexOf(Put(fields, key, x), key) == IndexOf(fields, key)
    ensures |Put(fields, key, x)| == |fields|
  {
    var k := IndexOf(fields, key).value;
    var r := Put(fields, key, x);
    assert r[k].key == key && forall i :: 0 <= i < k ==> r[i] == fields[i];
  }

  lemma PutAgain(fields: seq<Field>, key: string, x: Json, y: Json)
    requires Has(fields, key)
    ensures Put(Put(fields, key, x), key, y) == Put(fields, key, y)
  {
    PutIndex(fields, key, x);
  }

  lemma PutCommutes(fields: seq<Field>, key: string, x: Json, other: string, y: Json)
    requires Has(fields, key) && other != key
    ensures Put(Put(fields, key, x), other, y) == Put(Put(fields, other, y), key, x)
  {
    PutOther(fields, key, x, other);
    PutOther(fields, other, y, key);
  }

  /** One more field of extra, with or without another value at a key it does not hold. */
  lemma HiddenStep(m: seq<Field>, last: Field, key: string, x: Json)
    requires Has(m, key)
    requires last.key == key ==> Merge(x, last.value) == Merge(Get(m, key), last.value)
    ensures MergeOne(Put(m, key, x), last)
            == if last.key == key then MergeOne(m, last) else Put(MergeOne(m, last), key, x)
    ensures Has(MergeOne(m, last), key) && (last.key != key ==> Get(MergeOne(m, last), key) == Get(m, key))
  {
    PutSpec(m, key, x);
    if last.key == key {
      PutAgain(m, key, x, Merge(x, last.value));
      PutSpec(m, key, Merge(x, last.value));
    } else {
      var y := if Has(m, last.key) then Merge(Get(m, last.key), last.value) else last.value;
      PutCommutes(m, key, x, last.key, y);
      PutSpec(m, last.key, y);
    }
  }

  lemma {:induction false} HiddenField(d: seq<Field>, extra: seq<Field>, key: string, x: Json)
    requires DistinctKeys(extra) && Has(d, key)
    requires forall i :: 0 <= i < |extra| && extra[i].key == key ==>
               Merge(x, extra[i].value) == Merge(Get(d, key), extra[i].value)
    ensures Has(MergeFields(d, extra), key) && (!Has(extra, key) ==> Get(MergeFields(d, extra), key) == Get(d, key))
    ensures MergeFields(Put(d, key, x), extra) ==
            if Has(extra, key) then MergeFields(d, extra) else Put(MergeFields(d, extra), key, x)
    decreases |extra|
  {
    if extra != [] {
      var first, last := extra[..|extra| - 1], extra[|extra| - 1];
      assert extra == first + [last];
      IndexOfAppend(first, last, key);
      HiddenField(d, first, key, x);
      if !Has(first, key) {
        HiddenStep(MergeFields(d, first), last, key, x);
      } else {
        HiddenStep(MergeFields(d, first), last, key, Get(MergeFields(d, first), key));
      }
    }
  }

  /** Where extra holds a plain value, it does not matter what the base holds there. */
  lemma {:induction false} PlainValueHides(d: Json, extra: Json, path: seq<string>, x: Json)
    requires WellFormed(extra) && At(d, path).Some? && At(extra, path).Some? && !At(extra, path).value.Obj?
    ensures Merge(SetAt(d, path, x), extra) == Merge(d, extra)
    decreases |path|
  {
    if path != [] {
      var key := path[0];
      var inner := SetAt(Get(d.fields, key), path[1..], x);
      PlainValueHides(Get(d.fields, key), Get(extra.fields, key), path[1..], x);
      forall i | 0 <= i < |extra.fields| && extra.fields[i].key == key
        ensures Merge(inner, extra.fields[i].value) == Merge(Get(d.fields, key), extra.fields[i].value)
      {
        IndexOfDistinct(extra.fields, i);
      }
      HiddenField(d.fields, extra.fields, key, inner);
    }
  }

  lemma {:induction false} AtSetAt(d: Json, path: seq<string>, x: Json)
    requires At(d, path).Some?
    ensures At(SetAt(d, path, x), path) == Some(x)
    decreases |path|
  {
    if path != [] {
      var inner := SetAt(Get(d.fields, path[0]), path[1..], x);
      AtSetAt(Get(d.fields, path[0]), path[1..], x);
      PutSpec(d.fields, path[0], inner);
    }
  }

  /**
    Two bases that differ in one plain value: the second merges to a document with the first
    one's value exactly when the first does and extra itself holds that value.
   */
  lemma PlainDifference(d: Json, extra: Json, c: Json, path: seq<string>, x: Json)
    requires WellFormed(extra) && At(d, path).Some? && At(c, path) == At(d, path)
    requires !At(d, path).value.Obj? && !x.Obj? && x != At(d, path).value
    ensures Merge(SetAt(d, path, x), extra) == c <==> At(extra, path) == At(d, path) && Merge(d, extra) == c
  {
    if Merge(SetAt(d, path, x), extra) == c {
      AtSetAt(d, path, x);
      PathLaw(SetAt(d, path, x), extra, path);
    }
    if At(extra, path) == At(d, path) {
      PlainValueHides(d, extra, path, x);
    }
  }

  // ---------------------------------------------------------------- what base reaches

  /** A blocked path runs into a value that is no object. */
  lemma {:induction false} BlockedAt(v: Json, path: seq<string>) returns (n: nat)
    requires Blocked(v, path)
    ensures n < |path| && At(v, path[..n]).Some? && !At(v, path[..n]).value.Obj?
    decreases |path|
  {
    if !v.Obj? {
      n := 0;
    } else {
      var m := BlockedAt(Get(v.fields, path[0]), path[1..]);
      n := m + 1;
      assert path[..n] == [path[0]] + path[1..][..m];
      AtBelow(v, path[0], path[1..][..m]);
    }
  }

  /** A merge loses a path of the base only below a value that is no object. */
  lemma LostBelowNonObject(base: Json, extra: Json, path: seq<string>) returns (n: nat)
    requires WellFormed(extra) && At(base, path).Some? && At(Merge(base, extra), path).None?
    ensures n < |path|
    ensures At(Merge(base, extra), path[..n]).Some? && !At(Merge(base, extra), path[..n]).value.Obj?
  {
    PathLaw(base, extra, path);
    n := BlockedAt(extra, path);
    PathLaw(base, extra, path[..n]);
  }

  // ---------------------------------------------------------------- idempotence

  lemma {:induction false} MergeWithItself(v: Json)
    requires WellFormed(v)
    ensures Merge(v, v) == v
  {
    if v.Obj? {
      forall i | 0 <= i < |v.fields|
        ensures Has(v.fields, v.fields[i].key)
        ensures Merge(Get(v.fields, v.fields[i].key), v.fields[i].value) == Get(v.fields, v.fields[i].key)
      {
        IndexOfDistinct(v.fields, i);
        MergeWithItself(v.fields[i].value);
      }
      MergeAbsorbed(v.fields, v.fields);
    }
  }

  /** Merging the same extra twice equals merging it once, key order included. */
  lemma {:induction false} MergeTwice(base: Json, extra: Json)
    requires WellFormed(extra)
    ensures Merge(Merge(base, extra), extra) == Merge(base, extra)
    decreases extra
  {
    if base.Obj? && extra.Obj? {
      var r := MergeFields(base.fields, extra.fields);
      forall i | 0 <= i < |extra.fields|
        ensures Has(r, extra.fields[i].key)
        ensures Merge(Get(r, extra.fields[i].key), extra.fields[i].value) == Get(r, extra.fields[i].key)
      {
        var key := extra.fields[i].key;
        IndexOfDistinct(extra.fields, i);
        MergedKey(base.fields, extra.fields, key);
        if Has(base.fields, key) {
          MergeTwice(Get(base.fields, key), extra.fields[i].value);
        } else {
          MergeWithItself(extra.fields[i].value);
        }
      }
      MergeAbsorbed(r, extra.fields);
    } else {
      MergeWithItself(extra);
    }
  }

  // ---------------------------------------------------------------- associativity

  function Keys(fields: seq<Field>): (ks: seq<string>)
    ensures |ks| == |fields| && forall i :: 0 <= i < |ks| ==> ks[i] == fields[i].key
  {
    seq(|fields|, i requires 0 <= i < |fields| => fields[i].key)
  }

  /** Insertion order: the old keys, then the new ones. */
  function AddKeys(ks: seq<string>, more: seq<string>): (r: seq<string>)
    ensures forall x :: x in r <==> x in ks || x in more
  {
    if more == [] then ks
    else
      var last := more[|more| - 1];
      var r := AddKeys(ks, more[..|more| - 1]);
      assert more == more[..|more| - 1] + [last];
      if last in r then r else r + [last]
  }

  lemma {:induction false} AddKeysAssociative(a: seq<string>, b: seq<string>, c: seq<string>)
    ensures AddKeys(AddKeys(a, b), c) == AddKeys(a, AddKeys(b, c))
    decreases |c|
  {
    if c != [] {
      var n := |c| - 1;
      AddKeysAssociative(a, b, c[..n]);
      var r := AddKeys(b, c[..n]);
      assert (r + [c[n]])[..|r|] == r;
    }
  }

  lemma HasIffKey(fields: seq<Field>, key: string)
    ensures Has(fields, key) <==> key in Keys(fields)
  {
    if Has(fields, key) { assert Keys(fields)[IndexOf(fields, key).value] == key; }
  }

  lemma KeysOfPut(fields: seq<Field>, key: string, value: Json)
    ensures Keys(Put(fields, key, value)) == if key in Keys(fields) then Keys(fields) else Keys(fields) + [key]
  {
    HasIffKey(fields, key);
  }

  lemma AddKeysLast(ks: seq<string>, more: seq<string>, last: string)
    ensures var r := AddKeys(ks, more); AddKeys(ks, more + [last]) == if last in r then r else r + [last]
  {
    assert (more + [last])[..|more|] == more;
  }

  lemma {:induction false} KeysOfMerge(base: seq<Field>, extra: seq<Field>)
    ensures Keys(MergeFields(base, extra)) == AddKeys(Keys(base), Keys(extra))
    decreases |extra|
  {
    if extra != [] {
      var first, last := extra[..|extra| - 1], extra[|extra| - 1];
      var merged := MergeFields(base, first);
      KeysOfMerge(base, first);
      assert Keys(extra) == Keys(first) + [last.key];
      AddKeysLast(Keys(base), Keys(first), last.key);
      var value := if Has(merged, last.key) then Merge(Get(merged, last.key), last.value) else last.value;
      KeysOfPut(merged, last.key, value);
    }
  }

  lemma {:induction false} MergeKeepsDistinctKeys(base: seq<Field>, extra: seq<Field>)
    requires DistinctKeys(base)
    ensures DistinctKeys(MergeFields(base, extra))
    decreases |extra|
  {
    if extra != [] {
      MergeKeepsDistinctKeys(base, extra[..|extra| - 1]);
    }
  }

  lemma SameObject(f: seq<Field>, g: seq<Field>)
    requires DistinctKeys(f) && Keys(f) == Keys(g)
    requires forall key :: Has(f, key) && Has(g, key) ==> Get(f, key) == Get(g, key)
    ensures f == g
  {
    forall i | 0 <= i < |f| ensures f[i] == g[i] {
      assert Keys(f)[i] == Keys(g)[i];
      assert forall k :: 0 <= k < |f| ==> Keys(f)[k] == Keys(g)[k];
      IndexOfDistinct(f, i);
      IndexOfDistinct(g, i);
      var key := f[i].key;
      assert Get(f, key) == f[i].value && Get(g, key) == g[i].value;
    }
  }

  /** A plain value in the middle, between two objects of which the outer does not absorb the inner. */
  predicate Clash(a: Json, b: Json, c: Json) {
    a.Obj? && c.Obj? && !b.Obj? && Merge(a, c) != c
  }

  predicate ClashAt(a: Json, b: Json, c: Json, path: seq<string>) {
    && At(a, path).Some? && At(b, path).Some? && At(c, path).Some?
    && Clash(At(a, path).value, At(b, path).value, At(c, path).value)
  }

  ghost predicate ClashFree(a: Json, b: Json, c: Json) {
    forall path :: !ClashAt(a, b, c, path)
  }

  /** All three objects have the key. */
  predicate Shared(a: Json, b: Json, c: Json, key: string) {
    && a.Obj? && Has(a.fields, key) && b.Obj? && Has(b.fields, key) && c.Obj? && Has(c.fields, key)
  }

  lemma ClashBelow(a: Json, b: Json, c: Json, key: string, path: seq<string>)
    requires Shared(a, b, c, key)
    ensures ClashAt(a, b, c, [key] + path)
            <==> ClashAt(Get(a.fields, key), Get(b.fields, key), Get(c.fields, key), path)
  {
    AtBelow(a, key, path);
    AtBelow(b, key, path);
    AtBelow(c, key, path);
  }

  /** Three objects are free of clashes exactly when the values of every shared key are. */
  lemma ClashFreeBelow(a: Json, b: Json, c: Json)
    requires a.Obj? && b.Obj? && c.Obj?
    ensures ClashFree(a, b, c) <==>
            forall key :: Shared(a, b, c, key) ==>
              ClashFree(Get(a.fields, key), Get(b.fields, key), Get(c.fields, key))
  {
    if ClashFree(a, b, c) {
      forall key, path | Shared(a, b, c, key)
        ensures !ClashAt(Get(a.fields, key), Get(b.fields, key), Get(c.fields, key), path)
      {
        ClashBelow(a, b, c, key, path);
      }
    } else {
      var path :| ClashAt(a, b, c, path);
      var key := path[0];
      assert path == [key] + path[1..];
      assert Shared(a, b, c, key);
      ClashBelow(a, b, c, key, path[1..]);
    }
  }

  predicate GroupingsAgree(a: Json, b: Json, c: Json) {
    Merge(Merge(a, b), c) == Merge(a, Merge(b, c))
  }

  predicate SameAt(f: seq<Field>, g: seq<Field>, key: string) {
    Has(f, key) && Has(g, key) ==> Get(f, key) == Get(g, key)
  }

  /** The two groupings have the same keys in the same order, so only the values can differ. */
  lemma GroupedKeys(a: seq<Field>, b: seq<Field>, c: seq<Field>)
    requires DistinctKeys(a) && DistinctKeys(b) && DistinctKeys(c)
    ensures var l, r := MergeFields(MergeFields(a, b), c), MergeFields(a, MergeFields(b, c));
            l == r <==> forall key :: SameAt(l, r, key)
  {
    var l, r := MergeFields(MergeFields(a, b), c), MergeFields(a, MergeFields(b, c));
    KeysOfMerge(a, b);
    KeysOfMerge(b, c);
    KeysOfMerge(MergeFields(a, b), c);
    KeysOfMerge(a, MergeFields(b, c));
    AddKeysAssociative(Keys(a), Keys(b), Keys(c));
    MergeKeepsDistinctKeys(a, b);
    MergeKeepsDistinctKeys(MergeFields(a, b), c);
    if forall key :: SameAt(l, r, key) {
      forall key | Has(l, key) && Has(r, key) ensures Get(l, key) == Get(r, key) { assert SameAt(l, r, key); }
      SameObject(l, r);
    }
  }

  /** The groupings agree on the value of a key, if all three objects have it. */
  predicate AgreeBelow(a: Json, b: Json, c: Json, key: string) {
    Shared(a, b, c, key) ==> GroupingsAgree(Get(a.fields, key), Get(b.fields, key), Get(c.fields, key))
  }

  /** One key of the two groupings. */
  lemma GroupedKey(a: Json, b: Json, c: Json, key: string)
    requires a.Obj? && b.Obj? && c.Obj? && DistinctKeys(b.fields) && DistinctKeys(c.fields)
    ensures SameAt(MergeFields(MergeFields(a.fields, b.fields), c.fields),
                   MergeFields(a.fields, MergeFields(b.fields, c.fields)), key)
            <==> AgreeBelow(a, b, c, key)
  {
    MergeKeepsDistinctKeys(b.fields, c.fields);
    MergedKey(a.fields, b.fields, key);
    MergedKey(b.fields, c.fields, key);
    MergedKey(MergeFields(a.fields, b.fields), c.fields, key);
    MergedKey(a.fields, MergeFields(b.fields, c.fields), key);
  }

  lemma AllKeysGrouped(a: Json, b: Json, c: Json)
    requires a.Obj? && b.Obj? && c.Obj? && DistinctKeys(b.fields) && DistinctKeys(c.fields)
    ensures var l := MergeFields(MergeFields(a.fields, b.fields), c.fields);
            var r := MergeFields(a.fields, MergeFields(b.fields, c.fields));
            forall key :: SameAt(l, r, key) <==> AgreeBelow(a, b, c, key)
  {
    var l := MergeFields(MergeFields(a.fields, b.fields), c.fields);
    var r := MergeFields(a.fields, MergeFields(b.fields, c.fields));
    forall key ensures SameAt(l, r, key) <==> AgreeBelow(a, b, c, key) {
      GroupedKey(a, b, c, key);
    }
  }

  /** Two groupings of three objects are equal exactly when they agree on every shared key. */
  lemma GroupingsAgreeKeywise(a: Json, b: Json, c: Json)
    requires WellFormed(a) && WellFormed(b) && WellFormed(c) && a.Obj? && b.Obj? && c.Obj?
    ensures GroupingsAgree(a, b, c) <==> forall key :: AgreeBelow(a, b, c, key)
  {
    GroupedKeys(a.fields, b.fields, c.fields);
    AllKeysGrouped(a, b, c);
  }

  lemma PlainAmongThree(a: Json, b: Json, c: Json)
    requires !(a.Obj? && b.Obj? && c.Obj?)
    ensures GroupingsAgree(a, b, c) <==> ClashFree(a, b, c)
  {
    assert GroupingsAgree(a, b, c) <==> !Clash(a, b, c);
    assert ClashAt(a, b, c, []) <==> Clash(a, b, c);
    assert forall path :: path != [] ==> !ClashAt(a, b, c, path);
  }

  /**
    Exactly when the merge is associative: at no path that all three documents reach does a
    plain value stand between two objects of which the first is not absorbed by the last.
   */
  lemma {:induction false} AssociativeIffClashFree(a: Json, b: Json, c: Json)
    requires WellFormed(a) && WellFormed(b) && WellFormed(c)
    ensures GroupingsAgree(a, b, c) <==> ClashFree(a, b, c)
    decreases a
  {
    if a.Obj? && b.Obj? && c.Obj? {
      GroupingsAgreeKeywise(a, b, c);
      ClashFreeBelow(a, b, c);
      forall key | Shared(a, b, c, key)
        ensures AgreeBelow(a, b, c, key)
                <==> ClashFree(Get(a.fields, key), Get(b.fields, key), Get(c.fields, key))
      {
        AssociativeIffClashFree(Get(a.fields, key), Get(b.fields, key), Get(c.fields, key));
      }
    } else {
      PlainAmongThree(a, b, c);
    }
  }

  /** It is not associative: a scalar in the middle wipes what the outer merge would keep. */
  lemma NotAssociative()
    ensures exists a, b, c :: !GroupingsAgree(a, b, c)
  {
    var a, b, c := Obj([Field("k", Int(1))]), Null, Obj([]);
    assert ClashAt(a, b, c, []);
    AssociativeIffClashFree(a, b, c);
    assert !GroupingsAgree(a, b, c);
  }

  /** _deep_merge as it runs: a recursive call per shared key, inside a loop over extra. */
  method DeepMergeLoop(base: Json, extra: Json) returns (r: Json)
    ensures r == Merge(base, extra)
    decreases extra
  {
    if !base.Obj? || !extra.Obj? {
      return extra;
    }
    var merged := base.fields;
    for i := 0 to |extra.fields|
      invariant merged == MergeFields(base.fields, extra.fields[..i])
    {
      assert extra.fields[..i + 1][..i] == extra.fields[..i];
      var Field(key, value) := extra.fields[i];
      if Has(merged, key) {
        var inner := DeepMergeLoop(Get(merged, key), value);
        merged := Put(merged, key, inner);
      } else {
        merged := Put(merged, key, value);
      }
    }
    assert extra.fields[..|extra.fields|] == extra.fields;
    return Obj(merged);
  }
}
