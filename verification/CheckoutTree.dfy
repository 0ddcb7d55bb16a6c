/**
  The checkout directories below one root as a tree (ensure_library_checkout and
  ensure_libraries in app/orchestrator/libraries.py).  A directory with another remote, or
  without a readable one, is removed with everything below it before it is cloned again, so a
  later entry can remove what an earlier one checked out.
 */
module CheckoutTree {
  import opened LibraryPaths
  import opened Wrappers

  /** Path components below the checkout root. */
  type Dir = seq<string>

  /** A directory and the url whose checkout it is to hold. */
  datatype Place = Place(dir: Dir, url: string)

  /** The checkouts on disk: what url the origin of each is. */
  type Disk = map<Dir, string>

  // ---------------------------------------------------------------- where an entry goes

  /** root / relpath: joining drops empty and "." components. */
  function Parts(names: seq<string>): Dir {
    if names == [] then []
    else (if names[0] == "" || names[0] == "." then [] else [names[0]]) + Parts(names[1..])
  }

  function DirOf(relpath: string): Dir {
    Parts(Split(relpath))
  }

  /** Where the entry is checked out, None for one that is skipped. */
  function PlaceOf(e: Entry): Option<Place> {
    if Mountable(e) then Some(Place(DirOf(RelPath(e).value), UrlOf(e))) else None
  }

  function Places(normalized: seq<Entry>): (places: seq<Option<Place>>)
    ensures |places| == |normalized| && forall k :: 0 <= k < |places| ==> places[k] == PlaceOf(normalized[k])
  {
    seq(|normalized|, k requires 0 <= k < |normalized| => PlaceOf(normalized[k]))
  }

  lemma {:induction false} PartsSplit(a: seq<string>, b: seq<string>)
    ensures Parts(a + b) == Parts(a) + Parts(b)
    decreases |a|
  {
    if a == [] {
      assert a + b == b;
    } else {
      assert (a + b)[1..] == a[1..] + b;
      PartsSplit(a[1..], b);
    }
  }

  /** Directories are joined at slashes, and a piece without one is a component unless it is "" or ".". */
  lemma DirAt(a: string, b: string)
    ensures DirOf(a + ("/" + b)) == DirOf(a) + DirOf(b)
    ensures '/' !in a ==> DirOf(a) == if a == "" || a == "." then [] else [a]
  {
    SplitAt(a, b);
    PartsSplit(Split(a), Split(b));
    if '/' !in a {
      assert Split(a) == [a] && [a][1..] == [];
      assert Parts([a]) == (if a == "" || a == "." then [] else [a]) + Parts([]);
    }
  }

  // ---------------------------------------------------------------- one entry

  predicate Owns(disk: Disk, p: Place) {
    p.dir in disk && disk[p.dir] == p.url
  }

  /** The checkout is there and its remote can be read, so it is kept, re-synced or not. */
  predicate Reuses(disk: Disk, p: Place, readable: bool) {
    Owns(disk, p) && readable
  }

  /** shutil.rmtree(dir) */
  function Removed(disk: Disk, dir: Dir): Disk {
    map d | d in disk && !(dir <= d) :: disk[d]
  }

  function Ensured(disk: Disk, p: Place, readable: bool): Disk {
    if Reuses(disk, p, readable) then disk else Removed(disk, p.dir)[p.dir := p.url]
  }

  /** One entry, exactly: whose checkouts are there afterwards. */
  lemma OwnsAfterIff(disk: Disk, p: Place, readable: bool, q: Place)
    ensures Owns(Ensured(disk, p, readable), q) <==>
            q == p || (Owns(disk, q) && (Reuses(disk, p, readable) || !(p.dir <= q.dir)))
  {
    if q.dir == p.dir && q.url != p.url { assert p.dir <= q.dir; }
  }

  // ---------------------------------------------------------------- all entries

  function EnsuredAll(disk: Disk, places: seq<Option<Place>>, readable: nat -> bool): Disk {
    if places == [] then disk
    else
      var n := |places| - 1;
      var before := EnsuredAll(disk, places[..n], readable);
      if places[n].Some? then Ensured(before, places[n].value, readable(n)) else before
  }

  /** The k-th entry needs a clone. */
  predicate Clones(disk: Disk, places: seq<Option<Place>>, readable: nat -> bool, k: nat)
    requires k < |places|
  {
    places[k].Some? && !Reuses(EnsuredAll(disk, places[..k], readable), places[k].value, readable(k))
  }

  /** No entry from the k-th on clones at or above the directory. */
  ghost predicate Spared(disk: Disk, places: seq<Option<Place>>, readable: nat -> bool, dir: Dir, k: nat) {
    forall j :: k <= j < |places| && Clones(disk, places, readable, j) ==> !(places[j].value.dir <= dir)
  }

  lemma SparedStep(disk: Disk, places: seq<Option<Place>>, readable: nat -> bool, dir: Dir, k: nat)
    requires places != [] && k < |places|
    ensures var n := |places| - 1;
            Spared(disk, places, readable, dir, k) <==>
            Spared(disk, places[..n], readable, dir, k) &&
            (Clones(disk, places, readable, n) ==> !(places[n].value.dir <= dir))
  {
    var n := |places| - 1;
    assert forall j :: 0 <= j < n ==> places[..n][..j] == places[..j];
  }

  /** Some entry asks for this very checkout and it is spared from then on. */
  ghost predicate MadeAndSpared(disk: Disk, places: seq<Option<Place>>, readable: nat -> bool, q: Place) {
    exists k :: 0 <= k < |places| && places[k] == Some(q) && Spared(disk, places, readable, q.dir, k + 1)
  }

  lemma MadeStep(disk: Disk, places: seq<Option<Place>>, readable: nat -> bool, q: Place)
    requires places != []
    ensures var n := |places| - 1;
            MadeAndSpared(disk, places, readable, q) <==>
            places[n] == Some(q) ||
            (MadeAndSpared(disk, places[..n], readable, q) &&
             (Clones(disk, places, readable, n) ==> !(places[n].value.dir <= q.dir)))
  {
    var n := |places| - 1;
    if places[n] == Some(q) {
      assert Spared(disk, places, readable, q.dir, n + 1);
    } else {
      forall k | 0 <= k < n && places[k] == Some(q)
        ensures Spared(disk, places, readable, q.dir, k + 1) <==>
                Spared(disk, places[..n], readable, q.dir, k + 1) &&
                (Clones(disk, places, readable, n) ==> !(places[n].value.dir <= q.dir))
      {
        SparedStep(disk, places, readable, q.dir, k + 1);
      }
    }
  }

  /**
    A whole call, exactly: a checkout is there at the end if and only if it was there or some
    entry asked for it, and no later entry cloned at or above its directory.
   */
  lemma {:induction false} OwnsAtEndIff(disk: Disk, places: seq<Option<Place>>, readable: nat -> bool, q: Place)
    ensures Owns(EnsuredAll(disk, places, readable), q) <==>
            (Owns(disk, q) && Spared(disk, places, readable, q.dir, 0)) || MadeAndSpared(disk, places, readable, q)
    decreases |places|
  {
    if places != [] {
      var n := |places| - 1;
      OwnsAtEndIff(disk, places[..n], readable, q);
      SparedStep(disk, places, readable, q.dir, 0);
      MadeStep(disk, places, readable, q);
      if places[n].Some? {
        OwnsAfterIff(EnsuredAll(disk, places[..n], readable), places[n].value, readable(n), q);
      }
    }
  }

  // ---------------------------------------------------------------- when every checkout survives

  /** The i-th entry's directory holds its own checkout, and no other entry's inside it. */
  ghost predicate Intact(disk: Disk, places: seq<Option<Place>>, i: nat)
    requires i < |places|
  {
    places[i].Some? ==>
      Owns(disk, places[i].value) &&
      forall j :: 0 <= j < |places| && places[j].Some? && places[i].value.dir < places[j].value.dir ==>
        places[j].value.dir !in disk
  }

  ghost predicate AllIntact(disk: Disk, places: seq<Option<Place>>) {
    forall i :: 0 <= i < |places| ==> Intact(disk, places, i)
  }

  predicate Encloses(p: Option<Place>, q: Option<Place>) {
    p.Some? && q.Some? && p.value.dir <= q.value.dir
  }

  /** No directory lies in another one, and entries with one directory have one url. */
  predicate Separate(places: seq<Option<Place>>) {
    forall i, j :: 0 <= i < |places| && 0 <= j < |places| && Encloses(places[i], places[j]) ==>
      places[i] == places[j]
  }

  lemma {:induction false} SeparateAreOwned(disk: Disk, places: seq<Option<Place>>, readable: nat -> bool, i: nat)
    requires Separate(places) && i < |places| && places[i].Some?
    ensures Owns(EnsuredAll(disk, places, readable), places[i].value)
    decreases |places|
  {
    var n := |places| - 1;
    var before := EnsuredAll(disk, places[..n], readable);
    if i < n {
      assert Separate(places[..n]);
      SeparateAreOwned(disk, places[..n], readable, i);
    }
    if places[n].Some? {
      OwnsAfterIff(before, places[n].value, readable(n), places[i].value);
    }
  }

  /**
    After a call every mounted directory holds its own checkout, and none of another entry, if
    and only if no mounted directory lies in another one and one directory has one url.  What is
    on disk before, and which remotes can be read, does not matter.
   */
  lemma AllIntactIffSeparate(disk: Disk, places: seq<Option<Place>>, readable: nat -> bool)
    ensures AllIntact(EnsuredAll(disk, places, readable), places) <==> Separate(places)
  {
    var end := EnsuredAll(disk, places, readable);
    if Separate(places) {
      forall i | 0 <= i < |places| && places[i].Some? ensures Owns(end, places[i].value) {
        SeparateAreOwned(disk, places, readable, i);
      }
    }
    if AllIntact(end, places) {
      forall i, j | 0 <= i < |places| && 0 <= j < |places| && Encloses(places[i], places[j])
        ensures places[i] == places[j]
      {
        assert Intact(end, places, i) && Intact(end, places, j);
        var outer, inner := places[i].value.dir, places[j].value.dir;
        assert |outer| == |inner| ==> outer == inner;
      }
    }
  }

  // ---------------------------------------------------------------- the call as it runs

  /** The call ends at the k-th entry: it needs a clone, which fails. */
  ghost predicate RaisesAt(
    disk: Disk, places: seq<Option<Place>>, readable: nat -> bool, cloneFails: nat -> bool, k: nat)
    requires k < |places|
  {
    Clones(disk, places, readable, k) && cloneFails(k)
  }

  /** One turn of the loop on the disk. */
  lemma EnsuredStep(disk: Disk, places: seq<Option<Place>>, readable: nat -> bool, k: nat)
    requires k < |places|
    ensures var before := EnsuredAll(disk, places[..k], readable);
            && EnsuredAll(disk, places[..k + 1], readable) ==
               (if places[k].Some? then Ensured(before, places[k].value, readable(k)) else before)
            && (Clones(disk, places, readable, k) <==>
                  places[k].Some? && !Reuses(before, places[k].value, readable(k)))
  {
    assert places[..k + 1][..k] == places[..k];
  }

  class LibraryRoot {
    var checkouts: Disk

    /** ensure_library_checkout; false is the raised clone failure, which leaves nothing at the directory. */
    method EnsureCheckout(p: Place, readable: bool, cloneFails: bool) returns (ok: bool)
      modifies this
      ensures ok <==> Reuses(old(checkouts), p, readable) || !cloneFails
      ensures checkouts == if ok then Ensured(old(checkouts), p, readable) else Removed(old(checkouts), p.dir)
    {
      if p.dir in checkouts && checkouts[p.dir] == p.url && readable {
        return true;
      }
      checkouts := Removed(checkouts, p.dir);
      if cloneFails {
        return false;
      }
      checkouts := checkouts[p.dir := p.url];
      return true;
    }

    /** The loop over what the entries are mounted at and checked out to. */
    method EnsureEach(
      targets: seq<Option<string>>, places: seq<Option<Place>>, host: string -> string,
      readable: nat -> bool, cloneFails: nat -> bool)
      returns (mounts: Option<seq<Mount>>)
      requires |targets| == |places| && forall k :: 0 <= k < |targets| ==> (targets[k].Some? <==> places[k].Some?)
      modifies this
      ensures mounts.None? <==>
              exists k :: 0 <= k < |places| && RaisesAt(old(checkouts), places, readable, cloneFails, k)
      ensures mounts.Some? ==> mounts.value == Mounts(host, Firsts(targets))
      ensures mounts.Some? ==> checkouts == EnsuredAll(old(checkouts), places, readable)
    {
      var list, seen := [], {};
      ghost var paths := [];
      for k := 0 to |targets|
        invariant forall i :: 0 <= i < k ==> !RaisesAt(old(checkouts), places, readable, cloneFails, i)
        invariant checkouts == EnsuredAll(old(checkouts), places[..k], readable)
        invariant paths == Firsts(targets[..k]) && seen == set path | path in paths
        invariant list == Mounts(host, paths)
      {
        MountStep(targets, k, host);
        EnsuredStep(old(checkouts), places, readable, k);
        if targets[k].Some? {
          var ok := EnsureCheckout(places[k].value, readable(k), cloneFails(k));
          if !ok {
            assert RaisesAt(old(checkouts), places, readable, cloneFails, k);
            return None;
          }
          var relpath := targets[k].value;
          if relpath !in seen {
            seen := seen + {relpath};
            list := list + [Mount(host(relpath), relpath)];
          }
        }
        paths := Firsts(targets[..k + 1]);
      }
      assert places[..|places|] == places && targets[..|targets|] == targets;
      return Some(list);
    }

    /**
      ensure_libraries.  `host` joins the checkout root with a path, `readable` says for which
      entries git can read the remote, `cloneFails` for which a clone would fail; a failing
      clone ends the whole call.
     */
    method EnsureLibraries(
      lib: Lib, entries: seq<Entry>, host: string -> string, readable: nat -> bool, cloneFails: nat -> bool)
      returns (mounts: Option<seq<Mount>>)
      modifies this
      ensures var places := Places(Normalize(lib, entries));
              mounts.None? <==>
              exists k :: 0 <= k < |places| && RaisesAt(old(checkouts), places, readable, cloneFails, k)
      ensures mounts.Some? ==> mounts.value == Mounts(host, MountPaths(lib, entries))
      ensures var places := Places(Normalize(lib, entries));
              mounts.Some? ==>
              && checkouts == EnsuredAll(old(checkouts), places, readable)
              && (AllIntact(checkouts, places) <==> Separate(places))
    {
      var normalized := NormalizeEntries(lib, entries);
      mounts := EnsureEach(Targets(normalized), Places(normalized), host, readable, cloneFails);
      AllIntactIffSeparate(old(checkouts), Places(normalized), readable);
    }
  }

  // ---------------------------------------------------------------- lists that are separate, and not

  lemma {:induction false} NormalizeKeepsUrls(lib: Lib, entries: seq<Entry>, k: nat)
    requires k < |entries|
    ensures var r := Normalize(lib, entries)[k];
            && (r.Entry? <==> entries[k].Entry?)
            && (r.Entry? ==> UrlOf(r) == UrlOf(entries[k]))
            && (!Derivable(lib, entries[k]) ==> r == entries[k])
    decreases |entries|
  {
    var n := |entries| - 1;
    StepFacts(lib, Run(lib, entries[..n]), entries[n]);
    if k < n {
      NormalizeKeepsUrls(lib, entries[..n], k);
    }
  }

  /** One path segment that joining and stripping leave as it is. */
  predicate Tidy(name: string) {
    '/' !in name && name != "" && name != "." && CleanPath(name) == name
  }

  lemma TidyDir(name: string)
    requires Tidy(name)
    ensures DirOf(name) == [name]
  {
    assert Split(name) == [name];
    assert [name][1..] == [];
    assert Parts([]) == [];
  }

  /** Every derived name, plain or suffixed, is one tidy segment. */
  ghost predicate TidyNames(lib: Lib, urls: set<string>) {
    forall u :: u in urls ==> Tidy(Derive(lib, u)) && Tidy(Suffixed(lib, u))
  }

  /** The plain or the suffixed name, so a tidy one. */
  lemma ChosenIsTidy(lib: Lib, owner: map<string, string>, urls: set<string>, url: string)
    requires TidyNames(lib, urls) && url in urls
    ensures Tidy(PathFor(lib, owner, url))
  {
  }

  lemma DerivedPath(lib: Lib, entries: seq<Entry>, k: nat)
    requires k < |entries| && Derivable(lib, entries[k])
    requires NoAccidents(lib, DerivedUrls(lib, entries)) && TidyNames(lib, DerivedUrls(lib, entries))
    ensures Normalize(lib, entries)[k].Entry? && Tidy(Normalize(lib, entries)[k].path)
  {
    RunPaths(lib, entries);
    ChosenIsTidy(lib, Run(lib, entries).owner, DerivedUrls(lib, entries), UrlOf(entries[k]));
  }

  lemma TidyPlace(e: Entry)
    requires e.Entry? && Tidy(e.path) && Mountable(e)
    ensures PlaceOf(e) == Some(Place([e.path], UrlOf(e)))
  {
    TidyDir(e.path);
  }

  /**
    When every mounted entry has its path from its url, and the names are tidy, no directory is
    shared or nested: with AllIntactIffSeparate, every mount holds its own library.
   */
  lemma DerivedPathsAreSeparate(lib: Lib, entries: seq<Entry>)
    requires forall k :: 0 <= k < |entries| && Mountable(entries[k]) ==> Derivable(lib, entries[k])
    requires NoAccidents(lib, DerivedUrls(lib, entries)) && TidyNames(lib, DerivedUrls(lib, entries))
    requires forall u, v :: u in DerivedUrls(lib, entries) && v in DerivedUrls(lib, entries) ==>
               |lib.digest(u)| == |lib.digest(v)|
    ensures Separate(Places(Normalize(lib, entries)))
  {
    var r := Normalize(lib, entries);
    var places := Places(r);
    forall i, j | 0 <= i < |places| && 0 <= j < |places| && Encloses(places[i], places[j])
      ensures places[i] == places[j]
    {
      NormalizeKeepsUrls(lib, entries, i);
      NormalizeKeepsUrls(lib, entries, j);
      DerivedPath(lib, entries, i);
      DerivedPath(lib, entries, j);
      TidyPlace(r[i]);
      TidyPlace(r[j]);
      DerivedPathsSeparateUrls(lib, entries, i, j);
      assert [r[i].path][0] == [r[j].path][0];
    }
  }

  /** An explicit path is left as it is. */
  lemma {:induction false} ExplicitStay(lib: Lib, entries: seq<Entry>)
    requires forall k :: 0 <= k < |entries| ==> !Derivable(lib, entries[k])
    ensures Normalize(lib, entries) == entries
    decreases |entries|
  {
    forall k | 0 <= k < |entries| ensures Normalize(lib, entries)[k] == entries[k] {
      NormalizeKeepsUrls(lib, entries, k);
    }
  }

  lemma TwoPlaces(disk: Disk, p: Place, q: Place, readable: nat -> bool)
    ensures EnsuredAll(disk, [Some(p), Some(q)], readable) == Ensured(Ensured(disk, p, readable(0)), q, readable(1))
  {
    var places := [Some(p), Some(q)];
    assert places[..1] == [Some(p)] && places[..1][..0] == [];
    assert EnsuredAll(disk, places[..1], readable) == Ensured(disk, p, readable(0));
  }

  /** A directory first, then one above it that is not there yet: the first checkout is gone. */
  lemma LaterParentRemoves(disk: Disk, inner: Place, outer: Place, readable: nat -> bool)
    requires outer.dir < inner.dir && !Owns(disk, outer)
    ensures inner.dir !in EnsuredAll(disk, [Some(inner), Some(outer)], readable)
  {
    TwoPlaces(disk, inner, outer, readable);
    OwnsAfterIff(disk, inner, readable(0), outer);
  }

  lemma PartsOfNested()
    ensures DirOf("a") == ["a"] && DirOf("a/b") == ["a", "b"]
    ensures CleanPath("a") == "a" && CleanPath("a/b") == "a/b" && !HasDotDot("a") && !HasDotDot("a/b")
  {
    var t := "a/b";
    SlashIsFound(t);
    assert t[2..] == "b" && t[..1] == "a";
    assert Split("b") == ["b"] && Split("a") == ["a"];
    assert Split(t) == ["a"] + ["b"];
    TidyDir("a");
    TidyDir("b");
    assert (["a"] + ["b"])[1..] == ["b"];
  }

  lemma ExplicitPlace(lib: Lib, e: Entry)
    requires e.Entry? && UrlOf(e) != "" && CleanPath(e.path) == e.path != "" && !HasDotDot(e.path)
    ensures !Derivable(lib, e) && Target(e) == Some(e.path) && PlaceOf(e) == Some(Place(DirOf(e.path), UrlOf(e)))
  {
  }

  lemma TwoTargets(a: string, b: string)
    requires a != b
    ensures Firsts([Some(a), Some(b)]) == [a, b]
  {
    var targets := [Some(a), Some(b)];
    assert targets[..1] == [Some(a)] && targets[..1][..0] == [];
    assert Firsts(targets[..1]) == [a];
  }

  /** Two explicit paths, the second above the first: both mounted, and the first checkout is gone. */
  lemma LostPair(
    lib: Lib, disk: Disk, first: Entry, second: Entry, a: string, b: string, inner: Place, outer: Place,
    readable: nat -> bool)
    requires !Derivable(lib, first) && Target(first) == Some(a) && PlaceOf(first) == Some(inner)
    requires !Derivable(lib, second) && Target(second) == Some(b) && PlaceOf(second) == Some(outer)
    requires a != b && outer.dir < inner.dir && !Owns(disk, outer)
    ensures var places := Places(Normalize(lib, [first, second]));
            && MountPaths(lib, [first, second]) == [a, b] && places[0] == Some(inner)
            && inner.dir !in EnsuredAll(disk, places, readable)
  {
    ExplicitStay(lib, [first, second]);
    assert Places([first, second]) == [Some(inner), Some(outer)];
    LaterParentRemoves(disk, inner, outer, readable);
    TwoTargets(a, b);
    assert Targets([first, second]) == [Some(a), Some(b)];
  }

  /** For example "a/b" and then "a". */
  lemma NestedPathIsLost(lib: Lib, disk: Disk, first: Entry, second: Entry, readable: nat -> bool)
    requires first.Entry? && first.path == "a/b" && UrlOf(first) != ""
    requires second.Entry? && second.path == "a" && UrlOf(second) != ""
    requires ["a"] !in disk
    ensures var places := Places(Normalize(lib, [first, second]));
            && MountPaths(lib, [first, second]) == ["a/b", "a"]
            && places[0] == Some(Place(["a", "b"], UrlOf(first)))
            && ["a", "b"] !in EnsuredAll(disk, places, readable)
  {
    PartsOfNested();
    ExplicitPlace(lib, first);
    ExplicitPlace(lib, second);
    var inner, outer := Place(["a", "b"], UrlOf(first)), Place(["a"], UrlOf(second));
    LostPair(lib, disk, first, second, "a/b", "a", inner, outer, readable);
  }

  /** The path "." is the root: cloning it leaves no other checkout. */
  lemma RootPathRemovesAll(disk: Disk, url: string)
    ensures DirOf(".") == [] && Ensured(disk, Place(DirOf("."), url), false) == map[[] := url]
  {
    assert Split(".") == ["."] && ["."][1..] == [];
  }

  lemma NormalizeTwo(lib: Lib, first: Entry, second: Entry)
    requires Derivable(lib, first) && Derivable(lib, second)
    requires Derive(lib, UrlOf(first)) != Derive(lib, UrlOf(second))
    ensures Normalize(lib, [first, second]) ==
            [first.(path := Derive(lib, UrlOf(first))), second.(path := Derive(lib, UrlOf(second)))]
  {
    assert [first, second][..1] == [first] && [first][..0] == [];
    var none: seq<Entry> := [];
    var one := Step(lib, Progress([], map[]), first);
    assert Run(lib, none) == Progress([], map[]);
    assert Run(lib, [first]) == Step(lib, Run(lib, none), first);
    assert one.result == none + [first.(path := Derive(lib, UrlOf(first)))];
    assert Run(lib, [first, second]) == Step(lib, one, second);
  }

  lemma NamedPlace(e: Entry, name: string)
    requires e.Entry? && UrlOf(e) != "" && CleanPath(name) != "" && !HasDotDot(CleanPath(name))
    ensures PlaceOf(e.(path := name)) == Some(Place(DirOf(CleanPath(name)), UrlOf(e)))
  {
  }

  lemma OneDirectory(dir: Dir, u: string, v: string)
    requires u != v
    ensures !Separate([Some(Place(dir, u)), Some(Place(dir, v))])
  {
    var places := [Some(Place(dir, u)), Some(Place(dir, v))];
    assert Encloses(places[0], places[1]);
  }

  /**
    Two urls whose derived names differ only in blanks at their ends get one directory, and so
    one of the libraries is not there.
   */
  lemma BlankEdgesCollide(lib: Lib, first: Entry, second: Entry)
    requires Derivable(lib, first) && Derivable(lib, second)
    requires var u, v := Derive(lib, UrlOf(first)), Derive(lib, UrlOf(second));
             u != v && CleanPath(u) == CleanPath(v) != "" && !HasDotDot(CleanPath(u))
    ensures !Separate(Places(Normalize(lib, [first, second])))
  {
    NormalizeTwo(lib, first, second);
    var u, v := Derive(lib, UrlOf(first)), Derive(lib, UrlOf(second));
    NamedPlace(first, u);
    NamedPlace(second, v);
    OneDirectory(DirOf(CleanPath(u)), UrlOf(first), UrlOf(second));
    assert Places(Normalize(lib, [first, second])) ==
           [Some(Place(DirOf(CleanPath(u)), UrlOf(first))), Some(Place(DirOf(CleanPath(u)), UrlOf(second)))];
  }
}
