/**
  Where an extra library project is mounted: derivation and collision suffixes
  (app/services/extra_projects.py), the app's mounts (app/orchestrator/libraries.py) and the
  container's own derivation (containers/review-runner/entrypoint.py).
 */
module LibraryPaths {
  import opened Sequences
  import opened Wrappers
  import opened Text

  /** An extra-projects entry; Other is a non-dict one.  Missing fields read as "". */
  datatype Entry = Other | Entry(url: string, path: string)

  /** The two library functions: the path component of a URL, and the short hash of one. */
  datatype Lib = Lib(urlPath: string -> string, digest: string -> string)

  // ---------------------------------------------------------------- path text

  predicate IsSlash(c: char) {
    c == '/'
  }

  /** s.split("/") */
  function Split(s: string): (parts: seq<string>)
    ensures |parts| >= 1
    ensures forall i :: 0 <= i < |parts| ==> '/' !in parts[i]
  {
    if '/' !in s then [s]
    else
      var k := Find(s, "/", 0);
      SlashIsFound(s);
      [s[..k.value]] + Split(s[k.value + 1..])
  }

  lemma SlashIsFound(s: string)
    requires '/' in s
    ensures var k := Find(s, "/", 0); k.Some? && k.value < |s| && '/' !in s[..k.value]
  {
    var i :| 0 <= i < |s| && s[i] == '/';
    assert MatchesAt(s, "/", i);
    var k := Find(s, "/", 0);
    forall j | 0 <= j < k.value ensures s[j] != '/' {
      assert !MatchesAt(s, "/", j);
    }
  }

  function NonEmpty(parts: seq<string>): (r: seq<string>)
    ensures forall x :: x in r ==> x in parts && x != ""
  {
    if parts == [] then []
    else if parts[0] == "" then NonEmpty(parts[1..])
    else [parts[0]] + NonEmpty(parts[1..])
  }

  function DropGit(name: string): (r: string)
    ensures r <= name
  {
    var n := |name|;
    if n >= 4 && name[n - 4..] == ".git" then name[..n - 4] else name
  }

  /** derive_path, and the container's _derive_path, on a stripped url. */
  function Derive(lib: Lib, url: string): (name: string)
    ensures '/' !in name
  {
    var segments := NonEmpty(Split(lib.urlPath(url)));
    if segments == [] then ""
    else
      var last := segments[|segments| - 1];
      assert last in segments;
      DropGit(last)
  }

  /** str(entry.get("path") or "").strip().strip("/") */
  function CleanPath(path: string): string {
    Strip(Strip(path, IsSpace), IsSlash)
  }

  predicate HasDotDot(path: string) {
    ".." in Split(path)
  }

  function UrlOf(e: Entry): string
    requires e.Entry?
  {
    Strip(e.url, IsSpace)
  }

  // ---------------------------------------------------------------- what the helpers mean

  lemma SplitFirst(a: string, b: string)
    requires '/' !in a
    ensures Split(a + ("/" + b)) == [a] + Split(b)
  {
    var s := a + ("/" + b);
    forall j | 0 <= j < |a| ensures !MatchesAt(s, "/", j) {
      assert s[j + 0] == a[j] && a[j] in a;
    }
    assert MatchesAt(s, "/", |a|);
    FindFirst(s, "/", 0, |a|);
    assert s[|a|] == '/' && s[..|a|] == a && s[|a| + 1..] == b;
  }

  lemma FirstSlash(a: string) returns (head: string, tail: string)
    requires '/' in a
    ensures '/' !in head && a == head + ("/" + tail)
  {
    SlashIsFound(a);
    var k := Find(a, "/", 0).value;
    assert MatchesAt(a, "/", k) && "/"[0] == a[k + 0];
    head, tail := a[..k], a[k + 1..];
  }

  /** Splitting goes on behind every slash. */
  lemma {:induction false} SplitAt(a: string, b: string)
    ensures Split(a + ("/" + b)) == Split(a) + Split(b)
    decreases |a|
  {
    if '/' !in a {
      SplitFirst(a, b);
      assert Split(a) == [a];
    } else {
      var head, tail := FirstSlash(a);
      assert a + ("/" + b) == head + ("/" + (tail + ("/" + b)));
      SplitFirst(head, tail + ("/" + b));
      SplitFirst(head, tail);
      SplitAt(tail, b);
      Regrouped([head], Split(tail), Split(b));
    }
  }

  lemma Regrouped<T>(a: seq<T>, b: seq<T>, c: seq<T>)
    ensures (a + b) + c == a + (b + c)
  {
  }

  lemma {:induction false} NonEmptySplits(a: seq<string>, b: seq<string>)
    ensures NonEmpty(a + b) == NonEmpty(a) + NonEmpty(b)
    decreases |a|
  {
    if a == [] {
      assert a + b == b;
    } else {
      assert (a + b)[1..] == a[1..] + b;
      NonEmptySplits(a[1..], b);
    }
  }

  predicate AllSlashes(s: string) {
    forall i :: 0 <= i < |s| ==> s[i] == '/'
  }

  lemma {:induction false} SlashesHaveNoSegment(s: string)
    requires AllSlashes(s)
    ensures NonEmpty(Split(s)) == []
    decreases |s|
  {
    if s == "" {
      assert Split(s) == [""];
      assert NonEmpty([""]) == NonEmpty([""][1..]);
    } else {
      assert s == "" + ("/" + s[1..]);
      SplitAt("", s[1..]);
      SlashesHaveNoSegment(s[1..]);
      SlashesHaveNoSegment("");
      NonEmptySplits(Split(""), Split(s[1..]));
    }
  }

  lemma OneSegment(segment: string, slashes: string)
    requires segment != "" && '/' !in segment && AllSlashes(slashes)
    ensures NonEmpty(Split(segment + slashes)) == [segment]
  {
    assert Split(segment) == [segment];
    assert [segment][1..] == [];
    assert NonEmpty([segment]) == [segment];
    if slashes == "" {
      assert segment + slashes == segment;
    } else {
      assert segment + slashes == segment + ("/" + slashes[1..]);
      SplitAt(segment, slashes[1..]);
      NonEmptySplits([segment], Split(slashes[1..]));
      SlashesHaveNoSegment(slashes[1..]);
    }
  }

  /** The last non-empty segment, wherever it stands. */
  lemma LastSegment(prefix: string, segment: string, slashes: string)
    requires prefix != "" ==> prefix[|prefix| - 1] == '/'
    requires segment != "" && '/' !in segment && AllSlashes(slashes)
    ensures var segments := NonEmpty(Split(prefix + (segment + slashes)));
            segments != [] && segments[|segments| - 1] == segment
  {
    OneSegment(segment, slashes);
    if prefix == "" {
      assert prefix + (segment + slashes) == segment + slashes;
    } else {
      var front := prefix[..|prefix| - 1];
      assert prefix + (segment + slashes) == front + ("/" + (segment + slashes));
      SplitAt(front, segment + slashes);
      NonEmptySplits(Split(front), Split(segment + slashes));
    }
  }

  /** The name is the last non-empty segment of the url's path, unless that ends in ".git". */
  lemma NameIsTheLastSegment(lib: Lib, url: string, prefix: string, segment: string, slashes: string)
    requires lib.urlPath(url) == prefix + (segment + slashes)
    requires prefix != "" ==> prefix[|prefix| - 1] == '/'
    requires segment != "" && '/' !in segment && AllSlashes(slashes)
    requires |segment| < 4 || segment[|segment| - 4..] != ".git"
    ensures Derive(lib, url) == segment
  {
    LastSegment(prefix, segment, slashes);
  }

  /** Then it is what is before the ".git". */
  lemma NameDropsGit(lib: Lib, url: string, prefix: string, name: string, slashes: string)
    requires lib.urlPath(url) == prefix + ((name + ".git") + slashes)
    requires prefix != "" ==> prefix[|prefix| - 1] == '/'
    requires '/' !in name && AllSlashes(slashes)
    ensures Derive(lib, url) == name
  {
    var segment := name + ".git";
    LastSegment(prefix, segment, slashes);
    assert segment[|name|..] == ".git" && segment[..|name|] == name;
  }

  /** Without any segment there is no name. */
  lemma NoSegmentNoName(lib: Lib, url: string)
    requires AllSlashes(lib.urlPath(url))
    ensures Derive(lib, url) == ""
  {
    SlashesHaveNoSegment(lib.urlPath(url));
  }

  /** A path is cleaned of the blanks around it and then of the slashes around that, and nothing else. */
  lemma CleanedEnds(blanks: string, slashes: string, path: string, slashes': string, blanks': string)
    requires forall i :: 0 <= i < |blanks| ==> blanks[i] in " \t\r\n"
    requires forall i :: 0 <= i < |blanks'| ==> blanks'[i] in " \t\r\n"
    requires AllSlashes(slashes) && AllSlashes(slashes')
    requires path != "" && path[0] != '/' && path[|path| - 1] != '/'
    requires slashes == "" ==> path[0] !in " \t\r\n"
    requires slashes' == "" ==> path[|path| - 1] !in " \t\r\n"
    ensures CleanPath(blanks + ((slashes + (path + slashes')) + blanks')) == path
  {
    var inner := slashes + (path + slashes');
    assert inner[0] == if slashes == "" then path[0] else '/';
    assert inner[|inner| - 1] == if slashes' == "" then path[|path| - 1] else '/';
    StripEnds(blanks, inner, blanks', IsSpace);
    StripEnds(slashes, path, slashes', IsSlash);
  }

  /** A url is taken without the blanks around it, and as it is between them. */
  lemma CleanedUrl(blanks: string, url: string, blanks': string, path: string)
    requires forall i :: 0 <= i < |blanks| ==> blanks[i] in " \t\r\n"
    requires forall i :: 0 <= i < |blanks'| ==> blanks'[i] in " \t\r\n"
    requires url != "" ==> url[0] !in " \t\r\n" && url[|url| - 1] !in " \t\r\n"
    ensures UrlOf(Entry(blanks + (url + blanks'), path)) == url
  {
    StripEnds(blanks, url, blanks', IsSpace);
  }

  lemma DotDotAlone(s: string)
    requires '/' !in s
    ensures Contains("/" + (s + "/"), "/../") <==> s == ".."
  {
    var t := "/" + (s + "/");
    if s == ".." {
      assert t == "/../";
      ContainsAt(t, "/../", 0);
    }
    if Contains(t, "/../") {
      var i :| 0 <= i <= |t| && MatchesAt(t, "/../", i);
      assert t[i + 0] == "/../"[0] && t[i + 1] == "/../"[1] && t[i + 2] == "/../"[2] && t[i + 3] == "/../"[3];
      assert i == 0;
      assert s == [t[1], t[2]];
    }
  }

  lemma DotDotAfter(a: string, b: string)
    requires '/' !in a
    ensures Contains("/" + ((a + ("/" + b)) + "/"), "/../") <==> a == ".." || Contains("/" + (b + "/"), "/../")
  {
    var t, u := "/" + ((a + ("/" + b)) + "/"), "/" + (b + "/");
    var n := |a| + 1;
    assert t[n..] == u;
    if a == ".." {
      assert t[..4] == "/../";
      ContainsAt(t, "/../", 0);
    }
    if Contains(u, "/../") {
      assert t[n..|t|] == u;
      SliceContains(t, n, |t|, "/../");
    }
    if Contains(t, "/../") {
      var i :| 0 <= i <= |t| && MatchesAt(t, "/../", i);
      assert t[i + 0] == "/../"[0] && t[i + 1] == "/../"[1] && t[i + 2] == "/../"[2] && t[i + 3] == "/../"[3];
      if i < n {
        assert i == 0;
        assert t[3] == '/';
        assert |a| == 2 && a == [t[1], t[2]];
      } else {
        assert forall k :: n <= k < |t| ==> t[k] == u[k - n];
        ContainsAt(u, "/../", i - n);
      }
    }
  }

  /** A path is refused exactly when ".." is one of its components. */
  lemma {:induction false} DotDotIff(path: string)
    ensures HasDotDot(path) <==> Contains("/" + (path + "/"), "/../")
    decreases |path|
  {
    if '/' !in path {
      DotDotAlone(path);
      assert Split(path) == [path];
    } else {
      var a, b := FirstSlash(path);
      SplitFirst(a, b);
      DotDotAfter(a, b);
      DotDotIff(b);
    }
  }

  // ---------------------------------------------------------------- normalization

  /** The entry gets its path from its url. */
  predicate Derivable(lib: Lib, e: Entry) {
    && e.Entry? && UrlOf(e) != "" && CleanPath(e.path) == ""
    && Derive(lib, UrlOf(e)) != "" && !HasDotDot(Derive(lib, UrlOf(e)))
  }

  function Suffixed(lib: Lib, url: string): string {
    Derive(lib, url) + "-" + lib.digest(url)
  }

  datatype Progress = Progress(result: seq<Entry>, owner: map<string, string>)

  /** The path given to a derivable entry when `owner` says who owns which path. */
  function PathFor(lib: Lib, owner: map<string, string>, url: string): string {
    Choose(owner, url, Derive(lib, url), Suffixed(lib, url))
  }

  /** The plain name unless another url owns it. */
  function Choose(owner: map<string, string>, url: string, name: string, suffixed: string): string {
    if name in owner && owner[name] != url then suffixed else name
  }

  function Step(lib: Lib, p: Progress, e: Entry): Progress {
    if !Derivable(lib, e) then p.(result := p.result + [e])
    else
      var path := PathFor(lib, p.owner, UrlOf(e));
      Progress(p.result + [e.(path := path)], p.owner[path := UrlOf(e)])
  }

  function Run(lib: Lib, entries: seq<Entry>): (p: Progress)
    ensures |p.result| == |entries|
  {
    if entries == [] then Progress([], map[])
    else Step(lib, Run(lib, entries[..|entries| - 1]), entries[|entries| - 1])
  }

  function Normalize(lib: Lib, entries: seq<Entry>): seq<Entry> {
    Run(lib, entries).result
  }

  /** normalize_extra_projects as it runs. */
  method NormalizeEntries(lib: Lib, entries: seq<Entry>) returns (result: seq<Entry>)
    ensures result == Normalize(lib, entries)
  {
    result := [];
    var owner := map[];
    for k := 0 to |entries|
      invariant Progress(result, owner) == Run(lib, entries[..k])
    {
      assert entries[..k + 1][..k] == entries[..k];
      var e := entries[k];
      if e.Other? {
        result := result + [e];
        continue;
      }
      var url := UrlOf(e);
      if url == "" || CleanPath(e.path) != "" {
        result := result + [e];
        continue;
      }
      var name := Derive(lib, url);
      if name == "" || HasDotDot(name) {
        result := result + [e];
        continue;
      }
      if name in owner && owner[name] != url {
        name := name + "-" + lib.digest(url);
      }
      owner := owner[name := url];
      result := result + [e.(path := name)];
    }
    assert entries[..|entries|] == entries;
  }

  // ---------------------------------------------------------------- idempotence

  /** A path that cleans to nothing holds only blanks and slashes. */
  lemma BlankChars(path: string)
    requires CleanPath(path) == ""
    ensures '-' !in path
  {
    var s := Strip(path, IsSpace);
    StripToNothing(s, IsSlash);
    StripKeeps(path, IsSpace, '-');
  }

  lemma {:induction false} StripKeeps(s: string, drop: char -> bool, c: char)
    requires !drop(c)
    ensures c in s ==> c in Strip(s, drop)
    decreases |s|
  {
    if s != "" {
      if drop(s[0]) {
        assert s == [s[0]] + s[1..];
        StripKeeps(s[1..], drop, c);
      } else if drop(s[|s| - 1]) {
        assert s == s[..|s| - 1] + [s[|s| - 1]];
        StripKeeps(s[..|s| - 1], drop, c);
      }
    }
  }

  lemma SuffixedIsNotBlank(lib: Lib, url: string)
    ensures CleanPath(Suffixed(lib, url)) != ""
  {
    assert Suffixed(lib, url)[|Derive(lib, url)|] == '-';
    if CleanPath(Suffixed(lib, url)) == "" { BlankChars(Suffixed(lib, url)); }
  }

  /** Both passes agree on who owns a blank path. */
  ghost predicate SameBlankOwners(a: map<string, string>, b: map<string, string>) {
    forall name :: CleanPath(name) == "" ==>
      (name in a <==> name in b) && (name in a && name in b ==> a[name] == b[name])
  }

  lemma {:induction false} SecondPass(lib: Lib, entries: seq<Entry>)
    ensures Run(lib, Normalize(lib, entries)).result == Normalize(lib, entries)
    ensures SameBlankOwners(Run(lib, entries).owner, Run(lib, Normalize(lib, entries)).owner)
    decreases |entries|
  {
    if entries != [] {
      var n := |entries| - 1;
      var e := entries[n];
      SecondPass(lib, entries[..n]);
      var first := Run(lib, entries[..n]);
      var r := Normalize(lib, entries);
      assert r[..n] == first.result;
      if Derivable(lib, e) {
        SuffixedIsNotBlank(lib, UrlOf(e));
      }
    }
  }

  /** normalize_extra_projects is idempotent. */
  lemma NormalizeTwice(lib: Lib, entries: seq<Entry>)
    ensures Normalize(lib, Normalize(lib, entries)) == Normalize(lib, entries)
  {
    SecondPass(lib, entries);
  }

  // ---------------------------------------------------------------- one path per url

  /** The urls whose entries get a derived path. */
  function DerivedUrls(lib: Lib, entries: seq<Entry>): (urls: set<string>)
    ensures forall k :: 0 <= k < |entries| && Derivable(lib, entries[k]) ==> UrlOf(entries[k]) in urls
  {
    if entries == [] then {}
    else
      var last := entries[|entries| - 1];
      assert forall k :: 0 <= k < |entries| - 1 ==> entries[k] == entries[..|entries| - 1][k];
      DerivedUrls(lib, entries[..|entries| - 1]) + if Derivable(lib, last) then {UrlOf(last)} else {}
  }

  function Namer(lib: Lib): string -> string {
    url => Derive(lib, url)
  }

  function Suffixer(lib: Lib): string -> string {
    url => Suffixed(lib, url)
  }

  /** No url's plain name is another's suffixed one. */
  ghost predicate NamesApart(name: string -> string, suffixed: string -> string, urls: set<string>) {
    forall u, v :: u in urls && v in urls ==> name(u) != suffixed(v)
  }

  /**
    The short hash separates urls that share a name, and no url's plain name is another's
    suffixed one.
   */
  ghost predicate NoAccidents(lib: Lib, urls: set<string>) {
    && (forall u, v :: u in urls && v in urls && u != v && Derive(lib, u) == Derive(lib, v) ==>
          lib.digest(u) != lib.digest(v))
    && NamesApart(Namer(lib), Suffixer(lib), urls)
  }

  /** Every name is owned, and a key is its owner's plain or suffixed name. */
  ghost predicate OwnersOk(
    name: string -> string, suffixed: string -> string, owner: map<string, string>, urls: set<string>)
  {
    && (forall u :: u in urls ==> name(u) in owner)
    && (forall key :: key in owner ==>
          owner[key] in urls && (key == name(owner[key]) || key == suffixed(owner[key])))
  }

  /** Every derivable entry has the path the owners choose for its url. */
  ghost predicate PathsOk(lib: Lib, entries: seq<Entry>, result: seq<Entry>, owner: map<string, string>)
    requires |result| == |entries|
  {
    forall k :: 0 <= k < |entries| && Derivable(lib, entries[k]) ==>
      result[k].Entry? && result[k].path == PathFor(lib, owner, UrlOf(entries[k]))
  }

  /** Registering one more url does not change the choice for a url that has its names apart from it. */
  lemma ChoiceStays(
    owner: map<string, string>,
    url: string, urlName: string, urlSuffixed: string,
    u: string, uName: string, uSuffixed: string)
    requires uName != urlSuffixed
    requires if u == url then uName == urlName && uSuffixed == urlSuffixed else uName in owner
    ensures var owner' := owner[Choose(owner, url, urlName, urlSuffixed) := url];
            Choose(owner', u, uName, uSuffixed) == Choose(owner, u, uName, uSuffixed)
  {
  }

  lemma OwnersGrow(
    name: string -> string, suffixed: string -> string,
    owner: map<string, string>, urls: set<string>, url: string)
    requires OwnersOk(name, suffixed, owner, urls)
    ensures OwnersOk(name, suffixed, owner[Choose(owner, url, name(url), suffixed(url)) := url], urls + {url})
  {
  }

  /** Registering one more url moves nobody. */
  lemma OwnerStep(
    name: string -> string, suffixed: string -> string,
    owner: map<string, string>, urls: set<string>, url: string)
    requires OwnersOk(name, suffixed, owner, urls) && NamesApart(name, suffixed, urls + {url})
    ensures var owner' := owner[Choose(owner, url, name(url), suffixed(url)) := url];
            && OwnersOk(name, suffixed, owner', urls + {url})
            && (forall u :: u in urls + {url} ==>
                  Choose(owner', u, name(u), suffixed(u)) == Choose(owner, u, name(u), suffixed(u)))
  {
    var owner' := owner[Choose(owner, url, name(url), suffixed(url)) := url];
    OwnersGrow(name, suffixed, owner, urls, url);
    forall u | u in urls + {url}
      ensures Choose(owner', u, name(u), suffixed(u)) == Choose(owner, u, name(u), suffixed(u))
    {
      assert name(u) != suffixed(url);
      ChoiceStays(owner, url, name(url), suffixed(url), u, name(u), suffixed(u));
    }
  }

  lemma {:induction false} RunPaths(lib: Lib, entries: seq<Entry>)
    requires NamesApart(Namer(lib), Suffixer(lib), DerivedUrls(lib, entries))
    ensures OwnersOk(Namer(lib), Suffixer(lib), Run(lib, entries).owner, DerivedUrls(lib, entries))
    ensures PathsOk(lib, entries, Run(lib, entries).result, Run(lib, entries).owner)
    decreases |entries|
  {
    if entries != [] {
      var n := |entries| - 1;
      var before := entries[..n];
      RunPaths(lib, before);
      var p := Run(lib, before);
      if Derivable(lib, entries[n]) {
        var url := UrlOf(entries[n]);
        OwnerStep(Namer(lib), Suffixer(lib), p.owner, DerivedUrls(lib, before), url);
        PathsStep(lib, before, p, entries[n], p.owner[PathFor(lib, p.owner, url) := url]);
      } else {
        PathsStep(lib, before, p, entries[n], p.owner);
      }
      assert entries == before + [entries[n]];
    }
  }

  lemma PathsStep(lib: Lib, before: seq<Entry>, p: Progress, e: Entry, owner: map<string, string>)
    requires |p.result| == |before| && PathsOk(lib, before, p.result, p.owner)
    requires owner == Step(lib, p, e).owner
    requires forall u :: u in DerivedUrls(lib, before) ==> PathFor(lib, owner, u) == PathFor(lib, p.owner, u)
    requires Derivable(lib, e) ==> PathFor(lib, owner, UrlOf(e)) == PathFor(lib, p.owner, UrlOf(e))
    ensures PathsOk(lib, before + [e], Step(lib, p, e).result, owner)
  {
  }

  lemma {:induction false} DerivedUrlsHaveEntries(lib: Lib, entries: seq<Entry>, url: string)
    ensures url in DerivedUrls(lib, entries) <==>
            exists k :: 0 <= k < |entries| && Derivable(lib, entries[k]) && UrlOf(entries[k]) == url
    decreases |entries|
  {
    if entries != [] {
      var n := |entries| - 1;
      DerivedUrlsHaveEntries(lib, entries[..n], url);
      if url in DerivedUrls(lib, entries[..n]) {
        var k :| 0 <= k < n && Derivable(lib, entries[..n][k]) && UrlOf(entries[..n][k]) == url;
        assert entries[k] == entries[..n][k];
      }
    }
  }

  /** The i-th entry is the first with its derived name. */
  ghost predicate FirstOfName(lib: Lib, entries: seq<Entry>, i: nat)
    requires i < |entries| && entries[i].Entry?
  {
    && Derivable(lib, entries[i])
    && forall j :: 0 <= j < i && Derivable(lib, entries[j]) ==>
         Derive(lib, UrlOf(entries[j])) != Derive(lib, UrlOf(entries[i]))
  }

  lemma OtherNamesBefore(lib: Lib, before: seq<Entry>, name: string)
    requires forall j :: 0 <= j < |before| && Derivable(lib, before[j]) ==> Derive(lib, UrlOf(before[j])) != name
    ensures forall u :: u in DerivedUrls(lib, before) ==> Namer(lib)(u) != name
  {
    forall u | u in DerivedUrls(lib, before) ensures Namer(lib)(u) != name {
      DerivedUrlsHaveEntries(lib, before, u);
    }
  }

  lemma OwnedName(
    name: string -> string, suffixed: string -> string, owner: map<string, string>, urls: set<string>, key: string)
    requires OwnersOk(name, suffixed, owner, urls) && key in owner
    ensures owner[key] in urls && (key == name(owner[key]) || key == suffixed(owner[key]))
  {
  }

  lemma NewName(
    name: string -> string, suffixed: string -> string, owner: map<string, string>, urls: set<string>, url: string)
    requires OwnersOk(name, suffixed, owner, urls) && NamesApart(name, suffixed, urls + {url})
    requires forall u :: u in urls ==> name(u) != name(url)
    ensures name(url) !in owner
  {
    forall key | key in owner ensures key != name(url) { OwnedName(name, suffixed, owner, urls, key); }
  }

  /** Nobody before the first entry of a name owns it. */
  lemma NameIsNew(lib: Lib, before: seq<Entry>, e: Entry)
    requires Derivable(lib, e) && FirstOfName(lib, before + [e], |before|)
    requires NamesApart(Namer(lib), Suffixer(lib), DerivedUrls(lib, before + [e]))
    ensures Derive(lib, UrlOf(e)) !in Run(lib, before).owner
  {
    var all := before + [e];
    assert all[..|before|] == before && all[|before|] == e;
    assert forall j :: 0 <= j < |before| ==> before[j] == all[j];
    RunPaths(lib, before);
    OtherNamesBefore(lib, before, Derive(lib, UrlOf(e)));
    NewName(Namer(lib), Suffixer(lib), Run(lib, before).owner, DerivedUrls(lib, before), UrlOf(e));
  }

  /** The first entry of a name owns it to the end. */
  lemma {:induction false} FirstOwnsTheName(lib: Lib, entries: seq<Entry>, i: nat)
    requires i < |entries| && entries[i].Entry? && FirstOfName(lib, entries, i)
    requires NamesApart(Namer(lib), Suffixer(lib), DerivedUrls(lib, entries))
    ensures var owner, url := Run(lib, entries).owner, UrlOf(entries[i]);
            Derive(lib, url) in owner && owner[Derive(lib, url)] == url
    decreases |entries|
  {
    var n, url := |entries| - 1, UrlOf(entries[i]);
    var p, last := Run(lib, entries[..n]), entries[n];
    assert entries == entries[..n] + [last];
    if i == n {
      NameIsNew(lib, entries[..n], last);
      assert Step(lib, p, last).owner == p.owner[Derive(lib, url) := url];
    } else {
      assert entries[..n][i] == entries[i];
      FirstOwnsTheName(lib, entries[..n], i);
      LaterEntryKeepsOwner(lib, p, last, url, DerivedUrls(lib, entries));
    }
  }

  lemma LaterEntryKeepsOwner(lib: Lib, p: Progress, e: Entry, url: string, urls: set<string>)
    requires Derive(lib, url) in p.owner && p.owner[Derive(lib, url)] == url && url in urls
    requires Derivable(lib, e) ==> UrlOf(e) in urls
    requires NamesApart(Namer(lib), Suffixer(lib), urls)
    ensures var owner := Step(lib, p, e).owner;
            Derive(lib, url) in owner && owner[Derive(lib, url)] == url
  {
    if Derivable(lib, e) {
      assert Namer(lib)(url) != Suffixer(lib)(UrlOf(e));
    }
  }

  /**
    Who gets the plain name: the url that derived it first in the list.  Every other url with
    that name gets the name, a dash and its hash.
   */
  lemma FirstUrlKeepsTheName(lib: Lib, entries: seq<Entry>, i: nat, k: nat)
    requires i <= k < |entries| && Derivable(lib, entries[k]) && entries[i].Entry? && FirstOfName(lib, entries, i)
    requires Derive(lib, UrlOf(entries[i])) == Derive(lib, UrlOf(entries[k]))
    requires NamesApart(Namer(lib), Suffixer(lib), DerivedUrls(lib, entries))
    ensures var r, name := Normalize(lib, entries)[k], Derive(lib, UrlOf(entries[k]));
            r.Entry? && r.path ==
            if UrlOf(entries[k]) == UrlOf(entries[i]) then name else name + "-" + lib.digest(UrlOf(entries[k]))
  {
    RunPaths(lib, entries);
    FirstOwnsTheName(lib, entries, i);
  }

  lemma OtherStep(lib: Lib, p: Progress, e: Entry)
    ensures var r := Step(lib, p, e).result;
            && |r| == |p.result| + 1 && (forall k :: 0 <= k < |p.result| ==> r[k] == p.result[k])
            && (!Derivable(lib, e) ==> r[|p.result|] == e)
  {
  }

  lemma {:induction false} OthersAreUntouched(lib: Lib, entries: seq<Entry>, k: nat)
    requires k < |entries| && !Derivable(lib, entries[k])
    ensures Normalize(lib, entries)[k] == entries[k]
    decreases |entries|
  {
    var n := |entries| - 1;
    var p := Run(lib, entries[..n]);
    OtherStep(lib, p, entries[n]);
    assert Normalize(lib, entries) == Step(lib, p, entries[n]).result;
    if k < n {
      assert entries[..n][k] == entries[k];
      OthersAreUntouched(lib, entries[..n], k);
      assert p.result == Normalize(lib, entries[..n]);
    }
  }

  /** An explicit path always wins: the entry is untouched, and so is one without a url. */
  lemma ExplicitPathWins(lib: Lib, entries: seq<Entry>, k: nat)
    requires k < |entries|
    requires entries[k].Entry? ==> CleanPath(entries[k].path) != "" || Strip(entries[k].url, IsSpace) == ""
    ensures Normalize(lib, entries)[k] == entries[k]
  {
    OthersAreUntouched(lib, entries, k);
  }

  /** With a fixed-length hash, suffixed names determine name and hash. */
  lemma SuffixedInjective(lib: Lib, u: string, v: string)
    requires |lib.digest(u)| == |lib.digest(v)| && Suffixed(lib, u) == Suffixed(lib, v)
    ensures Derive(lib, u) == Derive(lib, v) && lib.digest(u) == lib.digest(v)
  {
    var s, n := Suffixed(lib, u), |Derive(lib, u)|;
    assert n == |Derive(lib, v)|;
    assert s[..n] == Derive(lib, u) && Suffixed(lib, v)[..n] == Derive(lib, v);
    assert s[n + 1..] == lib.digest(u) && Suffixed(lib, v)[n + 1..] == lib.digest(v);
  }

  /** The suffixed names of two urls that name no accident differ. */
  lemma SuffixedApart(lib: Lib, urls: set<string>, u: string, v: string)
    requires u in urls && v in urls && u != v && NoAccidents(lib, urls) && |lib.digest(u)| == |lib.digest(v)|
    ensures Suffixed(lib, u) != Suffixed(lib, v)
  {
    if Suffixed(lib, u) == Suffixed(lib, v) { SuffixedInjective(lib, u, v); }
  }

  /** Two urls with owned names choose the same path exactly when they are the same. */
  lemma ChoicesApart(
    owner: map<string, string>,
    u: string, uName: string, uSuffixed: string,
    v: string, vName: string, vSuffixed: string)
    requires uName in owner && vName in owner && uName != vSuffixed && vName != uSuffixed
    requires if u == v then uName == vName && uSuffixed == vSuffixed else uSuffixed != vSuffixed
    ensures Choose(owner, u, uName, uSuffixed) == Choose(owner, v, vName, vSuffixed) <==> u == v
  {
  }

  /** Two libraries never collide on a derived checkout path: equal paths exactly for equal urls. */
  lemma DerivedPathsSeparateUrls(lib: Lib, entries: seq<Entry>, i: nat, j: nat)
    requires i < |entries| && j < |entries| && Derivable(lib, entries[i]) && Derivable(lib, entries[j])
    requires NoAccidents(lib, DerivedUrls(lib, entries))
    requires |lib.digest(UrlOf(entries[i]))| == |lib.digest(UrlOf(entries[j]))|
    ensures var r := Normalize(lib, entries);
            && r[i].Entry? && r[j].Entry?
            && (r[i].path == r[j].path <==> UrlOf(entries[i]) == UrlOf(entries[j]))
  {
    RunPaths(lib, entries);
    var owner := Run(lib, entries).owner;
    var u, v := UrlOf(entries[i]), UrlOf(entries[j]);
    assert Namer(lib)(u) in owner && Namer(lib)(v) in owner;
    assert Namer(lib)(u) != Suffixer(lib)(v) && Namer(lib)(v) != Suffixer(lib)(u);
    if u != v { SuffixedApart(lib, DerivedUrls(lib, entries), u, v); }
    ChoicesApart(owner, u, Derive(lib, u), Suffixed(lib, u), v, Derive(lib, v), Suffixed(lib, v));
  }

  // ---------------------------------------------------------------- mounts

  /** library_relpath */
  function RelPath(e: Entry): Option<string> {
    if e.Other? then None
    else
      var path := CleanPath(e.path);
      if path == "" || HasDotDot(path) then None else Some(path)
  }

  /** ensure_library_checkout prepares a checkout for the entry (when git succeeds). */
  predicate Mountable(e: Entry) {
    RelPath(e).Some? && UrlOf(e) != ""
  }

  /** The paths the app mounts for the normalized entries. */
  function AppPaths(normalized: seq<Entry>): set<string> {
    if normalized == [] then {}
    else
      var last := normalized[|normalized| - 1];
      AppPaths(normalized[..|normalized| - 1]) + if Mountable(last) then {RelPath(last).value} else {}
  }

  /** The /work/lib path the container accepts for an entry (_clone_extra_projects). */
  function ContainerPath(lib: Lib, e: Entry): Option<string> {
    if e.Other? || UrlOf(e) == "" then None
    else
      var given := CleanPath(e.path);
      var path := if given == "" then Derive(lib, UrlOf(e)) else given;
      if path == "" || HasDotDot(path) then None else Some(path)
  }

  function ContainerPaths(lib: Lib, normalized: seq<Entry>): set<string> {
    if normalized == [] then {}
    else
      var path := ContainerPath(lib, normalized[|normalized| - 1]);
      ContainerPaths(lib, normalized[..|normalized| - 1]) + if path.Some? then {path.value} else {}
  }

  /** The entry derives a name made of blanks only. */
  predicate BlankNamed(lib: Lib, e: Entry) {
    Derivable(lib, e) && CleanPath(Derive(lib, UrlOf(e))) == ""
  }

  function BlankNames(lib: Lib, entries: seq<Entry>): set<string> {
    if entries == [] then {}
    else
      var last := entries[|entries| - 1];
      BlankNames(lib, entries[..|entries| - 1]) + if BlankNamed(lib, last) then {Derive(lib, UrlOf(last))} else {}
  }

  /** What normalization leaves for the consumers: the entry's url, and which name it still derives. */
  lemma StepFacts(lib: Lib, p: Progress, e: Entry)
    ensures var r := Step(lib, p, e).result[|p.result|];
            && (r.Entry? <==> e.Entry?)
            && (r.Entry? ==> UrlOf(r) == UrlOf(e))
            && (BlankNamed(lib, r) ==> BlankNamed(lib, e))
            && (Derivable(lib, r) ==> BlankNamed(lib, r))
            && (BlankNamed(lib, e) && !BlankNamed(lib, r) ==>
                  Derive(lib, UrlOf(e)) in p.owner && p.owner[Derive(lib, UrlOf(e))] != UrlOf(e))
  {
    if Derivable(lib, e) { SuffixedIsNotBlank(lib, UrlOf(e)); }
  }

  /** Blank names survive normalization, and nothing else stays derivable. */
  lemma {:induction false} BlankNamesStay(lib: Lib, entries: seq<Entry>)
    ensures BlankNames(lib, Normalize(lib, entries)) == BlankNames(lib, entries)
    ensures forall name :: name in Run(lib, entries).owner && CleanPath(name) == "" ==>
              name in BlankNames(lib, Normalize(lib, entries))
    ensures forall k :: 0 <= k < |entries| && Derivable(lib, Normalize(lib, entries)[k]) ==>
              BlankNamed(lib, Normalize(lib, entries)[k])
    decreases |entries|
  {
    if entries != [] {
      var n := |entries| - 1;
      var e := entries[n];
      BlankNamesStay(lib, entries[..n]);
      var p := Run(lib, entries[..n]);
      StepFacts(lib, p, e);
      assert Normalize(lib, entries)[..n] == p.result;
      if Derivable(lib, e) { SuffixedIsNotBlank(lib, UrlOf(e)); }
    }
  }

  /** One normalized entry: mounted, blank-named, or ignored by both sides. */
  lemma EntryPath(lib: Lib, e: Entry)
    requires Derivable(lib, e) ==> BlankNamed(lib, e)
    ensures ContainerPath(lib, e) ==
            if Mountable(e) then RelPath(e)
            else if BlankNamed(lib, e) then Some(Derive(lib, UrlOf(e))) else None
    ensures !(Mountable(e) && BlankNamed(lib, e))
  {
  }

  lemma {:induction false} AcceptedPaths(lib: Lib, r: seq<Entry>)
    requires forall k :: 0 <= k < |r| && Derivable(lib, r[k]) ==> BlankNamed(lib, r[k])
    ensures ContainerPaths(lib, r) == AppPaths(r) + BlankNames(lib, r)
    decreases |r|
  {
    if r != [] {
      AcceptedPaths(lib, r[..|r| - 1]);
      EntryPath(lib, r[|r| - 1]);
    }
  }

  /**
    Mount agreement, exactly: the container accepts the paths the app mounts plus the names
    made of blanks only.
   */
  lemma ContainerAcceptsMountsAndBlanks(lib: Lib, entries: seq<Entry>)
    ensures var r := Normalize(lib, entries);
            ContainerPaths(lib, r) == AppPaths(r) + BlankNames(lib, entries)
  {
    BlankNamesStay(lib, entries);
    AcceptedPaths(lib, Normalize(lib, entries));
  }

  /** When no derived name is blank the two sides agree, so the container never clones. */
  lemma MountsAgree(lib: Lib, entries: seq<Entry>)
    requires BlankNames(lib, entries) == {}
    ensures var r := Normalize(lib, entries); ContainerPaths(lib, r) == AppPaths(r)
  {
    ContainerAcceptsMountsAndBlanks(lib, entries);
  }

  /** The two sides agree if and only if every blank name is mounted by some explicit path. */
  lemma MountsAgreeIff(lib: Lib, entries: seq<Entry>)
    ensures var r := Normalize(lib, entries);
            ContainerPaths(lib, r) == AppPaths(r) <==> BlankNames(lib, entries) <= AppPaths(r)
  {
    ContainerAcceptsMountsAndBlanks(lib, entries);
  }

  /** One url-only entry, alone. */
  lemma NormalizeAlone(lib: Lib, e: Entry)
    requires Derivable(lib, e)
    ensures Normalize(lib, [e]) == [e.(path := Derive(lib, UrlOf(e)))]
    ensures BlankNames(lib, [e]) == if BlankNamed(lib, e) then {Derive(lib, UrlOf(e))} else {}
  {
    assert [e][..0] == [];
    var none: seq<Entry> := [];
    assert Run(lib, [e]) == Step(lib, Run(lib, none), e);
    assert Run(lib, none) == Progress([], map[]);
    var r := e.(path := Derive(lib, UrlOf(e)));
    assert Step(lib, Progress([], map[]), e).result == none + [r] == [r];
  }

  /** Whenever a single url-only entry derives a blank name, the container clones it. */
  lemma BlankNameIsCloned(lib: Lib, e: Entry)
    requires BlankNamed(lib, e)
    ensures var r := Normalize(lib, [e]);
            ContainerPaths(lib, r) == {Derive(lib, UrlOf(e))} && AppPaths(r) == {}
  {
    NormalizeAlone(lib, e);
    ContainerAcceptsMountsAndBlanks(lib, [e]);
    var r := Normalize(lib, [e]);
    assert !Mountable(r[0]);
    assert r[..0] == [];
  }

  /** The name a url with a one-segment path derives. */
  lemma DeriveSegment(lib: Lib, url: string, segment: string)
    requires lib.urlPath(url) == "/" + segment && segment != "" && '/' !in segment
    ensures Derive(lib, url) == DropGit(segment)
  {
    var t := "/" + segment;
    SlashIsFound(t);
    assert MatchesAt(t, "/", 0);
    assert t[1..] == segment && t[..0] == "";
    assert Split(t) == [""] + [segment];
    assert ([""] + [segment])[1..] == [segment] && [segment][1..] == [];
    assert NonEmpty([segment]) == [segment] && NonEmpty([""] + [segment]) == NonEmpty([segment]);
  }

  /** Such urls exist: https://h/ .git, say, whose path is "/ .git". */
  lemma BlankSegmentIsBlankNamed(lib: Lib, e: Entry)
    requires e.Entry? && UrlOf(e) != "" && CleanPath(e.path) == "" && lib.urlPath(UrlOf(e)) == "/" + " .git"
    ensures BlankNamed(lib, e)
  {
    DeriveSegment(lib, UrlOf(e), " .git");
    assert " .git"[1..] == ".git" && " .git"[..1] == " ";
    assert Strip(" ", IsSpace) == "";
    assert Split(" ") == [" "];
  }

  // ---------------------------------------------------------------- the mounts as a list

  /** The path the app mounts an entry at, None for one it skips. */
  function Target(e: Entry): (path: Option<string>)
    ensures path.Some? ==> path.value != "" && !HasDotDot(path.value)
  {
    if Mountable(e) then RelPath(e) else None
  }

  function Targets(normalized: seq<Entry>): (targets: seq<Option<string>>)
    ensures |targets| == |normalized| && forall k :: 0 <= k < |targets| ==> targets[k] == Target(normalized[k])
  {
    seq(|normalized|, k requires 0 <= k < |normalized| => Target(normalized[k]))
  }

  /** The paths of some targets, each at its first occurrence. */
  function Firsts(targets: seq<Option<string>>): seq<string> {
    if targets == [] then []
    else
      var last := targets[|targets| - 1];
      var paths := Firsts(targets[..|targets| - 1]);
      if last.Some? && last.value !in paths then paths + [last.value] else paths
  }

  lemma {:induction false} FirstsMembers(targets: seq<Option<string>>)
    ensures forall path :: path in Firsts(targets) <==> Some(path) in targets
    decreases |targets|
  {
    if targets != [] {
      FirstsMembers(targets[..|targets| - 1]);
      assert targets == targets[..|targets| - 1] + [targets[|targets| - 1]];
    }
  }

  ghost predicate InFirstOrder(targets: seq<Option<string>>, paths: seq<string>) {
    && (forall i :: 0 <= i < |paths| ==> Some(paths[i]) in targets)
    && (forall i, j :: 0 <= i < j < |paths| ==> FirstAt(targets, Some(paths[i])) < FirstAt(targets, Some(paths[j])))
  }

  lemma {:induction false} FirstsInOrder(targets: seq<Option<string>>)
    ensures InFirstOrder(targets, Firsts(targets))
    decreases |targets|
  {
    if targets != [] {
      var n := |targets| - 1;
      var paths, last := Firsts(targets[..n]), targets[n];
      FirstsInOrder(targets[..n]);
      FirstsMembers(targets[..n]);
      forall i | 0 <= i < |paths|
        ensures Some(paths[i]) in targets && FirstAt(targets, Some(paths[i])) == FirstAt(targets[..n], Some(paths[i]))
      {
        FirstAtPrefix(targets, n, Some(paths[i]));
      }
      assert last in targets;
      assert last.Some? && last.value !in paths ==> last !in targets[..n] && FirstAt(targets, last) == n;
    }
  }

  lemma {:induction false} TargetsAreAppPaths(normalized: seq<Entry>)
    ensures forall path :: Some(path) in Targets(normalized) <==> path in AppPaths(normalized)
    decreases |normalized|
  {
    if normalized != [] {
      var n := |normalized| - 1;
      TargetsAreAppPaths(normalized[..n]);
      assert Targets(normalized) == Targets(normalized[..n]) + [Target(normalized[n])];
    }
  }

  /** The mounted paths of a review. */
  function MountPaths(lib: Lib, entries: seq<Entry>): seq<string> {
    Firsts(Targets(Normalize(lib, entries)))
  }

  /**
    Mounted paths are distinct, usable, listed by first occurrence, and exactly the ones the
    container is compared with.
   */
  lemma MountPathsAreOk(lib: Lib, entries: seq<Entry>)
    ensures var paths, normalized := MountPaths(lib, entries), Normalize(lib, entries);
            && (forall i, j :: 0 <= i < j < |paths| ==> paths[i] != paths[j])
            && (forall i :: 0 <= i < |paths| ==> paths[i] != "" && !HasDotDot(paths[i]))
            && InFirstOrder(Targets(normalized), paths)
            && (forall path :: path in paths <==> path in AppPaths(normalized))
  {
    var targets := Targets(Normalize(lib, entries));
    FirstsInOrder(targets);
    FirstsMembers(targets);
    TargetsAreAppPaths(Normalize(lib, entries));
    var paths := Firsts(targets);
    forall i | 0 <= i < |paths| ensures paths[i] != "" && !HasDotDot(paths[i]) {
      assert targets[FirstAt(targets, Some(paths[i]))] == Some(paths[i]);
    }
  }

  /** A host directory mounted read-only at a path below /work/lib. */
  datatype Mount = Mount(host: string, path: string)

  /** The mounts of some paths; `host` joins the checkout root with a path. */
  function Mounts(host: string -> string, paths: seq<string>): seq<Mount> {
    seq(|paths|, i requires 0 <= i < |paths| => Mount(host(paths[i]), paths[i]))
  }

  /** One turn of the loop. */
  lemma MountStep(targets: seq<Option<string>>, k: nat, host: string -> string)
    requires k < |targets|
    ensures var paths := Firsts(targets[..k]);
            var after := Firsts(targets[..k + 1]);
            if targets[k].Some? && targets[k].value !in paths
            then after == paths + [targets[k].value]
                 && Mounts(host, after) == Mounts(host, paths) + [Mount(host(targets[k].value), targets[k].value)]
            else after == paths
  {
    assert targets[..k + 1][..k] == targets[..k];
  }
}
