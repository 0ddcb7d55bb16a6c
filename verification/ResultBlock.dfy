/**
  How the container finds and normalizes the review result in the model's output
  (containers/review-runner/entrypoint.py): the leftmost non-overlapping scan for fenced json
  blocks, the last of which is the result, and the tolerant normalizer.
 */
module ResultBlock {
  import opened Wrappers
  import opened Text
  import opened Json

  const OPENER := "```json"
  const FENCE := "```"

  // ---------------------------------------------------------------- the scan

  /** End of the [ \t]* run that starts at i. */
  function PadEnd(t: string, i: nat): (k: nat)
    requires i <= |t|
    ensures i <= k <= |t|
    decreases |t| - i
  {
    if i < |t| && t[i] in " \t" then PadEnd(t, i + 1) else i
  }

  /** Where the body starts, when the text starts with ```json, blanks, and an optional \r before \n. */
  function BodyStart(t: string): (b: Option<nat>)
    ensures b.Some? ==> 0 < b.value <= |t|
  {
    if !MatchesAt(t, OPENER, 0) then None
    else
      var k := PadEnd(t, |OPENER|);
      var e := if k < |t| && t[k] == '\r' then k + 1 else k;
      if e < |t| && t[e] == '\n' then Some(e + 1) else None
  }

  /** The closing fence of a block at the head of the text: the first one in the body. */
  function BodyEnd(t: string): (c: Option<nat>)
    ensures c.Some? ==> BodyStart(t).Some? && BodyStart(t).value <= c.value && c.value + 3 <= |t|
  {
    var b := BodyStart(t);
    if b.None? then None else Find(t, FENCE, b.value)
  }

  /** findall of the block pattern: the bodies of the leftmost non-overlapping matches. */
  function FindAll(t: string): seq<string>
    decreases |t|
  {
    if t == "" then []
    else
      var c := BodyEnd(t);
      if c.Some? then [t[BodyStart(t).value..c.value]] + FindAll(t[c.value + 3..])
      else FindAll(t[1..])
  }

  // ---------------------------------------------------------------- well-formed transcripts

  /** Prose followed by one fenced block. */
  datatype Block = Block(prose: string, pad: string, crlf: bool, body: string)

  function Fenced(block: Block): string {
    OPENER + block.pad + (if block.crlf then "\r\n" else "\n") + block.body + FENCE
  }

  function Transcript(blocks: seq<Block>, tail: string): string {
    if blocks == [] then tail
    else blocks[0].prose + (Fenced(blocks[0]) + Transcript(blocks[1..], tail))
  }

  predicate PlainProse(s: string) {
    !Contains(s, OPENER)
  }

  predicate PlainBody(s: string) {
    !Contains(s, FENCE) && (s != "" ==> s[|s| - 1] != '`')
  }

  predicate PlainPad(s: string) {
    forall i :: 0 <= i < |s| ==> s[i] in " \t"
  }

  /** Prose before a block, or at the end, never matches, even across its border. */
  lemma {:induction false} ProseIsSkipped(prose: string, rest: string)
    requires PlainProse(prose) && (rest == "" || MatchesAt(rest, OPENER, 0))
    ensures FindAll(prose + rest) == FindAll(rest)
    decreases |prose|
  {
    if prose == "" {
      assert prose + rest == rest;
    } else {
      var t := prose + rest;
      NoOpenerAtHead(prose, rest);
      assert t[1..] == prose[1..] + rest;
      assert prose[1..] == prose[1..|prose|];
      if Contains(prose[1..], OPENER) { SliceContains(prose, 1, |prose|, OPENER); }
      ProseIsSkipped(prose[1..], rest);
    }
  }

  lemma NoOpenerAtHead(prose: string, rest: string)
    requires prose != "" && PlainProse(prose) && (rest == "" || MatchesAt(rest, OPENER, 0))
    ensures !MatchesAt(prose + rest, OPENER, 0)
  {
    var t := prose + rest;
    var n := |prose|;
    if n >= |OPENER| {
      assert !MatchesAt(prose, OPENER, 0);
      assert t[..n] == prose;
    } else if rest != "" {
      // the border: position n holds a backtick and position 3 would have to hold 'j'
      assert OPENER[0] == OPENER[1] == OPENER[2] == '`' && OPENER[3] == 'j';
      assert t[0 + n] == rest[0 + 0] == '`';
      assert n == 1 ==> t[0 + 3] == rest[0 + 2] == '`';
      assert n == 2 ==> t[0 + 3] == rest[0 + 1] == '`';
      assert n >= 3 ==> OPENER[n] != '`';
    }
  }

  lemma {:induction false} PadIsSkipped(t: string, i: nat, k: nat)
    requires i <= k < |t| && (forall j :: i <= j < k ==> t[j] in " \t") && t[k] !in " \t"
    ensures PadEnd(t, i) == k
    decreases k - i
  {
    if i < k { PadIsSkipped(t, i + 1, k); }
  }

  /** The pattern's opening line: opener, blanks, end of line. */
  lemma OpeningLine(t: string, pad: string, crlf: bool, text: string)
    requires PlainPad(pad) && t == OPENER + pad + ((if crlf then "\r\n" else "\n") + text)
    ensures BodyStart(t) == Some(|OPENER| + |pad| + if crlf then 2 else 1)
  {
    var k := |OPENER| + |pad|;
    assert forall j :: |OPENER| <= j < k ==> t[j] == pad[j - |OPENER|];
    PadIsSkipped(t, |OPENER|, k);
  }

  /** Where the pattern finds the body of a fenced block. */
  lemma FencedStart(block: Block, rest: string) returns (b: nat)
    requires PlainPad(block.pad)
    ensures var t := Fenced(block) + rest;
            && BodyStart(t) == Some(b) && b == |Fenced(block)| - |block.body| - 3
            && t[b..] == block.body + FENCE + rest
  {
    var t := Fenced(block) + rest;
    var eol := if block.crlf then "\r\n" else "\n";
    var text := block.body + FENCE + rest;
    assert t == OPENER + block.pad + (eol + text);
    OpeningLine(t, block.pad, block.crlf, text);
    b := |OPENER| + |block.pad| + |eol|;
  }

  lemma SuffixMatch(t: string, b: nat, k: nat)
    requires b <= |t|
    ensures MatchesAt(t, FENCE, b + k) == MatchesAt(t[b..], FENCE, k)
  {
    assert forall j :: 0 <= j < |t| - b ==> t[b..][j] == t[b + j];
  }

  /** No fence begins inside a plain body, even across its end. */
  lemma NoFenceInBody(body: string, rest: string, k: nat)
    requires PlainBody(body) && k < |body|
    ensures !MatchesAt(body + FENCE + rest, FENCE, k)
  {
    var s := body + FENCE + rest;
    assert FENCE[0] == FENCE[1] == FENCE[2] == '`';
    if k + 3 <= |body| {
      assert !MatchesAt(body, FENCE, k);
      assert s[k + 0] == body[k + 0] && s[k + 1] == body[k + 1] && s[k + 2] == body[k + 2];
    } else {
      var j := |body| - 1 - k;
      assert s[k + j] == body[|body| - 1] != FENCE[j];
    }
  }

  lemma NoFenceBefore(t: string, b: nat, body: string, rest: string, k: nat)
    requires b <= |t| && t[b..] == body + FENCE + rest && PlainBody(body) && b <= k < b + |body|
    ensures !MatchesAt(t, FENCE, k)
  {
    SuffixMatch(t, b, k - b);
    NoFenceInBody(body, rest, k - b);
  }

  lemma OwnFenceMatches(t: string, b: nat, body: string, rest: string)
    requires b <= |t| && t[b..] == body + FENCE + rest
    ensures MatchesAt(t, FENCE, b + |body|)
  {
    SuffixMatch(t, b, |body|);
    assert MatchesAt(body + FENCE + rest, FENCE, |body|);
  }

  /** The first fence after a plain body is its own closing fence. */
  lemma PlainBodyEnds(t: string, b: nat, body: string, rest: string)
    requires b <= |t| && t[b..] == body + FENCE + rest && PlainBody(body)
    ensures Find(t, FENCE, b) == Some(b + |body|)
  {
    OwnFenceMatches(t, b, body, rest);
    forall k | b <= k < b + |body| ensures !MatchesAt(t, FENCE, k) { NoFenceBefore(t, b, body, rest, k); }
    FindFirst(t, FENCE, b, b + |body|);
  }

  lemma BodyAndRest(t: string, b: nat, body: string, rest: string)
    requires b <= |t| && t[b..] == body + FENCE + rest
    ensures var c := b + |body|;
            c + 3 <= |t| && t[b..c] == body && t[c + 3..] == rest
  {
    var c := b + |body|;
    assert t[b..c] == t[b..][..c - b];
    assert t[c + 3..] == t[b..][c + 3 - b..];
  }

  lemma ScanStep(t: string, b: nat, c: nat)
    requires BodyStart(t) == Some(b) && BodyEnd(t) == Some(c)
    ensures FindAll(t) == [t[b..c]] + FindAll(t[c + 3..])
  {
  }

  /** One match of the scan, from what follows the opening line. */
  lemma MatchSplits(t: string, b: nat, body: string, rest: string)
    requires BodyStart(t) == Some(b) && t[b..] == body + FENCE + rest && PlainBody(body)
    ensures FindAll(t) == [body] + FindAll(rest)
  {
    PlainBodyEnds(t, b, body, rest);
    TakeBody(t, b, body, rest);
  }

  lemma TakeBody(t: string, b: nat, body: string, rest: string)
    requires BodyStart(t) == Some(b) && t[b..] == body + FENCE + rest && Find(t, FENCE, b) == Some(b + |body|)
    ensures FindAll(t) == [body] + FindAll(rest)
  {
    var c := b + |body|;
    assert BodyEnd(t) == Some(c);
    assert c + 3 <= |t| && t[b..c] == body && t[c + 3..] == rest by { BodyAndRest(t, b, body, rest); }
    ScanStep(t, b, c);
  }

  lemma FencedIsFound(block: Block, rest: string)
    requires PlainPad(block.pad) && PlainBody(block.body)
    ensures FindAll(Fenced(block) + rest) == [block.body] + FindAll(rest)
  {
    var b := FencedStart(block, rest);
    MatchSplits(Fenced(block) + rest, b, block.body, rest);
  }

  // ---------------------------------------------------------------- the scan on any text

  /** The text opens a block: the fence with "json", blanks, an end of line, and what follows. */
  predicate Opens(t: string, pad: string, eol: string, text: string) {
    PlainPad(pad) && (eol == "\n" || eol == "\r\n") && t == "```json" + pad + (eol + text)
  }

  /** A block at the head of the text, with everything up to the first fence as its body. */
  ghost predicate HeadBlock(t: string, pad: string, eol: string, body: string, rest: string) {
    && Opens(t, pad, eol, body + FENCE + rest)
    && forall i :: 0 <= i < |body| ==> !MatchesAt(body + FENCE, FENCE, i)
  }

  lemma FirstFence(t: string, b: nat, body: string, rest: string)
    requires b <= |t| && t[b..] == body + FENCE + rest
    requires forall i :: 0 <= i < |body| ==> !MatchesAt(body + FENCE, FENCE, i)
    ensures Find(t, FENCE, b) == Some(b + |body|)
  {
    OwnFenceMatches(t, b, body, rest);
    forall k | b <= k < b + |body| ensures !MatchesAt(t, FENCE, k) {
      SuffixMatch(t, b, k - b);
      assert body + FENCE + rest == body + (FENCE + rest);
      FrontMatches(body, FENCE, rest, k - b);
    }
    FindFirst(t, FENCE, b, b + |body|);
  }

  /** A block at the head is found, and the scan goes on right behind it. */
  lemma ScanTakesHead(t: string, pad: string, eol: string, body: string, rest: string)
    requires HeadBlock(t, pad, eol, body, rest)
    ensures FindAll(t) == [body] + FindAll(rest)
  {
    var b := OpeningEnds(t, pad, eol, body + FENCE + rest);
    FirstFence(t, b, body, rest);
    TakeBody(t, b, body, rest);
  }

  lemma OpeningEnds(t: string, pad: string, eol: string, text: string) returns (b: nat)
    requires Opens(t, pad, eol, text)
    ensures BodyStart(t) == Some(b) && t[b..] == text
  {
    OpeningLine(t, pad, eol == "\r\n", text);
    b := |OPENER| + |pad| + |eol|;
    assert t[b..] == text;
  }

  lemma {:induction false} PadRun(t: string, i: nat)
    requires i <= |t|
    ensures PlainPad(t[i..PadEnd(t, i)])
    decreases |t| - i
  {
    if i < |t| && t[i] in " \t" {
      PadRun(t, i + 1);
      var k := PadEnd(t, i + 1);
      assert t[i..k] == [t[i]] + t[i + 1..k];
    }
  }

  lemma StartIsOpening(t: string) returns (pad: string, eol: string)
    requires BodyStart(t).Some?
    ensures Opens(t, pad, eol, t[BodyStart(t).value..]) && BodyStart(t).value == 7 + |pad| + |eol|
  {
    var k, b := PadEnd(t, |OPENER|), BodyStart(t).value;
    PadRun(t, |OPENER|);
    pad, eol := t[|OPENER|..k], t[k..b];
    assert t[..|OPENER|] == OPENER;
    assert t == t[..|OPENER|] + pad + (eol + t[b..]);
  }

  lemma HeadIsBlock(t: string) returns (pad: string, eol: string, body: string, rest: string)
    requires BodyEnd(t).Some?
    ensures HeadBlock(t, pad, eol, body, rest)
  {
    var b, c := BodyStart(t).value, BodyEnd(t).value;
    pad, eol := StartIsOpening(t);
    body, rest := t[b..c], t[c + 3..];
    SplitAtFence(t, b, c);
  }

  lemma NoHeadMoves(t: string)
    requires t != "" && BodyEnd(t).None?
    ensures FindAll(t) == FindAll(t[1..])
  {
  }

  /** Without a block at the head the scan moves on by one character. */
  lemma ScanSkipsOne(t: string)
    requires t != "" && forall pad, eol, body, rest :: !HeadBlock(t, pad, eol, body, rest)
    ensures FindAll(t) == FindAll(t[1..]) && FindAll("") == []
  {
    if BodyEnd(t).Some? {
      var pad, eol, body, rest := HeadIsBlock(t);
    } else {
      NoHeadMoves(t);
    }
  }

  lemma SplitAtFence(t: string, b: nat, c: nat)
    requires b <= c && MatchesAt(t, FENCE, c) && forall i :: b <= i < c ==> !MatchesAt(t, FENCE, i)
    ensures t[b..] == t[b..c] + FENCE + t[c + 3..]
    ensures forall i :: 0 <= i < c - b ==> !MatchesAt(t[b..c] + FENCE, FENCE, i)
  {
    var body, rest := t[b..c], t[c + 3..];
    assert t[c..c + 3] == FENCE;
    assert t[b..] == body + FENCE + rest;
    forall i | 0 <= i < c - b ensures !MatchesAt(body + FENCE, FENCE, i) {
      SuffixMatch(t, b, i);
      assert body + FENCE + rest == body + (FENCE + rest);
      FrontMatches(body, FENCE, rest, i);
    }
  }

  function Bodies(blocks: seq<Block>): seq<string> {
    if blocks == [] then [] else [blocks[0].body] + Bodies(blocks[1..])
  }

  /**
    For prose without an opener interleaved with blocks whose bodies hold no fence and do not
    end in a backtick, the scan returns exactly the bodies, in order.
   */
  lemma {:induction false} ScanFindsExactlyTheBodies(blocks: seq<Block>, tail: string)
    requires PlainProse(tail)
    requires forall i :: 0 <= i < |blocks| ==>
               PlainProse(blocks[i].prose) && PlainPad(blocks[i].pad) && PlainBody(blocks[i].body)
    ensures FindAll(Transcript(blocks, tail)) == Bodies(blocks)
    decreases |blocks|
  {
    if blocks == [] {
      ProseIsSkipped(tail, "");
      assert tail + "" == tail;
    } else {
      var rest := Transcript(blocks[1..], tail);
      ScanFindsExactlyTheBodies(blocks[1..], tail);
      FencedIsFound(blocks[0], rest);
      assert MatchesAt(Fenced(blocks[0]) + rest, OPENER, 0);
      ProseIsSkipped(blocks[0].prose, Fenced(blocks[0]) + rest);
    }
  }

  lemma FirstFenceIsEarly(t: string, b: nat, body: string)
    requires b <= |t| && t[b..] == body + FENCE && !PlainBody(body)
    ensures Find(t, FENCE, b).Some? && Find(t, FENCE, b).value < b + |body|
  {
    var s := body + FENCE;
    assert forall j :: b <= j < |t| ==> t[j] == s[j - b];
    assert FENCE[0] == FENCE[1] == FENCE[2] == '`';
    if Contains(body, FENCE) {
      var k :| 0 <= k <= |body| && MatchesAt(body, FENCE, k);
      assert body[k + 0] == FENCE[0] && body[k + 1] == FENCE[1] && body[k + 2] == FENCE[2];
      assert MatchesAt(t, FENCE, b + k);
    } else {
      assert MatchesAt(t, FENCE, b + |body| - 1);
    }
  }

  /** The condition on bodies is exact. */
  lemma BodySurvivesIffPlain(block: Block)
    requires PlainPad(block.pad)
    ensures FindAll(Fenced(block)) == [block.body] <==> PlainBody(block.body)
  {
    var t := Fenced(block);
    assert t + "" == t;
    if PlainBody(block.body) {
      FencedIsFound(block, "");
    } else {
      var b := FencedStart(block, "");
      assert block.body + FENCE + "" == block.body + FENCE;
      FirstFenceIsEarly(t, b, block.body);
      assert |FindAll(t)[0]| < |block.body|;
    }
  }

  // ---------------------------------------------------------------- normalization

  const BUCKETS := ["critical", "important", "minor", "positive"]

  /** dict.get */
  function GetOrNull(fields: seq<Field>, key: string): Json {
    if Has(fields, key) then Get(fields, key) else Null
  }

  /** Python's `not v` on parsed JSON. */
  predicate Falsy(v: Json) {
    match v
    case Null => true
    case Bool(b) => !b
    case Int(n) => n == 0
    case Float(r) => r == 0.0
    case Str(s) => s == ""
    case Arr(items) => items == []
    case Obj(fields) => fields == []
  }

  /** _coerce_text; `dumps` stands for json.dumps and str on the other types. */
  function CoerceText(v: Json, dumps: Json -> string): string {
    match v
    case Null => ""
    case Str(s) => s
    case _ => dumps(v)
  }

  function Finding(item: Json, dumps: Json -> string): Json {
    if item.Obj? then item else Obj([Field("description", Str(CoerceText(item, dumps)))])
  }

  function Findings(items: seq<Json>, dumps: Json -> string): (r: seq<Json>)
    ensures |r| == |items|
    ensures forall i :: 0 <= i < |items| ==> r[i] == Finding(items[i], dumps)
  {
    seq(|items|, i requires 0 <= i < |items| => Finding(items[i], dumps))
  }

  /** findings.get(bucket) or [], None when it is some other non-list. */
  function BucketItems(findings: seq<Field>, bucket: string): Option<seq<Json>> {
    var v := GetOrNull(findings, bucket);
    if Falsy(v) then Some([]) else if v.Arr? then Some(v.items) else None
  }

  /** The findings object as a dict: a missing one is empty, a bare list counts as "important". */
  function FindingsDict(v: Json): Option<seq<Field>> {
    match v
    case Null => Some([])
    case Arr(_) => Some([Field("important", v)])
    case Obj(fields) => Some(fields)
    case _ => None
  }

  predicate AllBucketsOk(findings: seq<Field>, n: nat)
    requires n <= |BUCKETS|
  {
    forall k :: 0 <= k < n ==> BucketItems(findings, BUCKETS[k]).Some?
  }

  function NormalizedBuckets(findings: seq<Field>, n: nat, dumps: Json -> string): (r: seq<Field>)
    requires n <= |BUCKETS| && AllBucketsOk(findings, n)
    ensures |r| == n
    ensures forall k :: 0 <= k < n ==>
              r[k] == Field(BUCKETS[k], Arr(Findings(BucketItems(findings, BUCKETS[k]).value, dumps)))
  {
    if n == 0 then []
    else NormalizedBuckets(findings, n - 1, dumps)
         + [Field(BUCKETS[n - 1], Arr(Findings(BucketItems(findings, BUCKETS[n - 1]).value, dumps)))]
  }

  function QuestionList(v: Json): seq<Json> {
    match v
    case Null => []
    case Str(s) => if Strip(s, IsSpace) != "" then [v] else []
    case Arr(items) => items
    case _ => [v]
  }

  function Questions(items: seq<Json>, dumps: Json -> string): seq<Json> {
    if items == [] then []
    else (if items[0] == Null then [] else [Str(CoerceText(items[0], dumps))]) + Questions(items[1..], dumps)
  }

  function Assemble(data: seq<Field>, buckets: seq<Field>, dumps: Json -> string): Json {
    Obj([Field("summary", Str(CoerceText(GetOrNull(data, "summary"), dumps))),
         Field("findings", Obj(buckets)),
         Field("commit_message_review", Str(CoerceText(GetOrNull(data, "commit_message_review"), dumps))),
         Field("questions", Arr(Questions(QuestionList(GetOrNull(data, "questions")), dumps)))])
  }

  /** Which parsed values can be a result at all. */
  predicate Acceptable(data: Json) {
    data.Obj?
    && var findings := FindingsDict(GetOrNull(data.fields, "findings"));
       findings.Some? && AllBucketsOk(findings.value, |BUCKETS|)
  }

  function Normalized(data: Json, dumps: Json -> string): Json
    requires Acceptable(data)
  {
    var findings := FindingsDict(GetOrNull(data.fields, "findings")).value;
    Assemble(data.fields, NormalizedBuckets(findings, |BUCKETS|, dumps), dumps)
  }

  /** The fixed shape: text, exactly the four buckets of objects, text, a list of strings. */
  predicate ResultShape(v: Json) {
    && v.Obj? && |v.fields| == 4
    && v.fields[0].key == "summary" && v.fields[0].value.Str?
    && v.fields[1].key == "findings" && v.fields[1].value.Obj? && |v.fields[1].value.fields| == |BUCKETS|
    && (forall k :: 0 <= k < |BUCKETS| ==>
          var bucket := v.fields[1].value.fields[k];
          bucket.key == BUCKETS[k] && bucket.value.Arr?
          && forall i :: 0 <= i < |bucket.value.items| ==> bucket.value.items[i].Obj?)
    && v.fields[2].key == "commit_message_review" && v.fields[2].value.Str?
    && v.fields[3].key == "questions" && v.fields[3].value.Arr?
    && (forall i :: 0 <= i < |v.fields[3].value.items| ==> v.fields[3].value.items[i].Str?)
  }

  lemma {:induction false} QuestionsAreStrings(items: seq<Json>, dumps: Json -> string)
    ensures forall i :: 0 <= i < |Questions(items, dumps)| ==> Questions(items, dumps)[i].Str?
    decreases |items|
  {
    if items != [] { QuestionsAreStrings(items[1..], dumps); }
  }

  lemma {:induction false} StringsAreKept(items: seq<Json>, dumps: Json -> string)
    requires forall i :: 0 <= i < |items| ==> items[i].Str?
    ensures Questions(items, dumps) == items
    decreases |items|
  {
    if items != [] { StringsAreKept(items[1..], dumps); }
  }

  /** A normalized result always has the fixed shape. */
  lemma NormalizedHasShape(data: Json, dumps: Json -> string)
    requires Acceptable(data)
    ensures ResultShape(Normalized(data, dumps))
  {
    QuestionsAreStrings(QuestionList(GetOrNull(data.fields, "questions")), dumps);
  }

  lemma ShapeLookups(v: Json)
    requires ResultShape(v)
    ensures GetOrNull(v.fields, "summary") == v.fields[0].value
    ensures GetOrNull(v.fields, "findings") == v.fields[1].value
    ensures GetOrNull(v.fields, "commit_message_review") == v.fields[2].value
    ensures GetOrNull(v.fields, "questions") == v.fields[3].value
  {
    assert DistinctKeys(v.fields);
    IndexOfDistinct(v.fields, 0);
    IndexOfDistinct(v.fields, 1);
    IndexOfDistinct(v.fields, 2);
    IndexOfDistinct(v.fields, 3);
  }

  lemma BucketLookups(fields: seq<Field>, k: nat)
    requires |fields| == |BUCKETS| && (forall i :: 0 <= i < |BUCKETS| ==> fields[i].key == BUCKETS[i])
    requires k < |BUCKETS| && fields[k].value.Arr?
    ensures BucketItems(fields, BUCKETS[k]) == Some(fields[k].value.items)
  {
    assert BUCKETS[0] == "critical" && BUCKETS[1] == "important" && BUCKETS[2] == "minor" && BUCKETS[3] == "positive";
    assert DistinctKeys(fields);
    IndexOfDistinct(fields, k);
  }

  /** Anything of the fixed shape normalizes to itself. */
  lemma ShapeIsFixed(v: Json, dumps: Json -> string)
    requires ResultShape(v)
    ensures Acceptable(v) && Normalized(v, dumps) == v
  {
    ShapeLookups(v);
    var buckets := v.fields[1].value.fields;
    forall k | 0 <= k < |BUCKETS| ensures BucketItems(buckets, BUCKETS[k]) == Some(buckets[k].value.items) {
      BucketLookups(buckets, k);
    }
    var again := NormalizedBuckets(buckets, |BUCKETS|, dumps);
    forall k | 0 <= k < |BUCKETS| ensures again[k] == buckets[k] {
      assert Findings(buckets[k].value.items, dumps) == buckets[k].value.items;
    }
    assert again == buckets;
    StringsAreKept(v.fields[3].value.items, dumps);
    assert Normalized(v, dumps).fields == v.fields;
  }

  /** Normalizing twice equals normalizing once. */
  lemma NormalizeTwice(data: Json, dumps: Json -> string)
    requires Acceptable(data)
    ensures Acceptable(Normalized(data, dumps))
    ensures Normalized(Normalized(data, dumps), dumps) == Normalized(data, dumps)
  {
    NormalizedHasShape(data, dumps);
    ShapeIsFixed(Normalized(data, dumps), dumps);
  }

  // ---------------------------------------------------------------- what normalizing keeps

  /** The normalized bucket of a result. */
  function BucketOf(result: Json, bucket: string): Option<Json> {
    if result.Obj? && Has(result.fields, "findings") && Get(result.fields, "findings").Obj?
       && Has(Get(result.fields, "findings").fields, bucket)
    then Some(Get(Get(result.fields, "findings").fields, bucket)) else None
  }

  lemma BucketIndex(bucket: string) returns (k: nat)
    requires bucket == "critical" || bucket == "important" || bucket == "minor" || bucket == "positive"
    ensures k < |BUCKETS| && BUCKETS[k] == bucket
  {
    k := if bucket == "critical" then 0 else if bucket == "important" then 1 else if bucket == "minor" then 2 else 3;
  }

  lemma BucketOfShape(v: Json, k: nat)
    requires ResultShape(v) && k < |BUCKETS|
    ensures BucketOf(v, BUCKETS[k]) == Some(v.fields[1].value.fields[k].value)
  {
    ShapeLookups(v);
    var buckets := v.fields[1].value.fields;
    assert BUCKETS[0] == "critical" && BUCKETS[1] == "important" && BUCKETS[2] == "minor" && BUCKETS[3] == "positive";
    assert DistinctKeys(buckets);
    IndexOfDistinct(buckets, k);
  }

  lemma BucketAt(data: Json, dumps: Json -> string, k: nat)
    requires Acceptable(data) && k < |BUCKETS| && ResultShape(Normalized(data, dumps))
    ensures var findings := FindingsDict(GetOrNull(data.fields, "findings")).value;
            Normalized(data, dumps).fields[1].value.fields[k].value
            == Arr(Findings(BucketItems(findings, BUCKETS[k]).value, dumps))
  {
  }

  lemma NormalizedBucket(data: Json, dumps: Json -> string, k: nat)
    requires Acceptable(data) && k < |BUCKETS|
    ensures var findings := FindingsDict(GetOrNull(data.fields, "findings")).value;
            BucketOf(Normalized(data, dumps), BUCKETS[k])
            == Some(Arr(Findings(BucketItems(findings, BUCKETS[k]).value, dumps)))
  {
    NormalizedHasShape(data, dumps);
    BucketAt(data, dumps, k);
    BucketOfShape(Normalized(data, dumps), k);
  }

  /** What becomes of one finding: objects stay, text becomes the description, null an empty one. */
  predicate FindingKept(item: Json, out: Json, dumps: Json -> string) {
    match item
    case Obj(_) => out == item
    case Str(s) => out == Obj([Field("description", Str(s))])
    case Null => out == Obj([Field("description", Str(""))])
    case _ => out == Obj([Field("description", Str(dumps(item)))])
  }

  predicate FindingsKept(items: seq<Json>, out: Json, dumps: Json -> string) {
    out.Arr? && |out.items| == |items| && forall i :: 0 <= i < |items| ==> FindingKept(items[i], out.items[i], dumps)
  }

  /** A bucket keeps its findings, in order; one that is missing, or an empty value of any kind, is empty. */
  lemma BucketIsKept(data: Json, dumps: Json -> string, findings: seq<Field>, bucket: string, items: seq<Json>)
    requires Acceptable(data) && Has(data.fields, "findings") && Get(data.fields, "findings") == Obj(findings)
    requires bucket == "critical" || bucket == "important" || bucket == "minor" || bucket == "positive"
    requires if Has(findings, bucket)
                && Get(findings, bucket) !in [Null, Bool(false), Int(0), Float(0.0), Str(""), Obj([])]
             then Get(findings, bucket) == Arr(items) else items == []
    ensures BucketOf(Normalized(data, dumps), bucket).Some?
    ensures FindingsKept(items, BucketOf(Normalized(data, dumps), bucket).value, dumps)
  {
    var k := BucketIndex(bucket);
    NormalizedBucket(data, dumps, k);
    ItemsOfBucket(findings, bucket, items);
    FindingsAreKept(items, dumps);
  }

  lemma ItemsOfBucket(findings: seq<Field>, bucket: string, items: seq<Json>)
    requires if Has(findings, bucket)
                && Get(findings, bucket) !in [Null, Bool(false), Int(0), Float(0.0), Str(""), Obj([])]
             then Get(findings, bucket) == Arr(items) else items == []
    ensures BucketItems(findings, bucket) == Some(items)
  {
  }

  lemma FindingsAreKept(items: seq<Json>, dumps: Json -> string)
    ensures FindingsKept(items, Arr(Findings(items, dumps)), dumps)
  {
  }

  lemma BareBuckets(data: Json, items: seq<Json>)
    requires data.Obj? && Has(data.fields, "findings") && Get(data.fields, "findings") == Arr(items)
    ensures Acceptable(data)
    ensures var findings := FindingsDict(GetOrNull(data.fields, "findings")).value;
            forall k :: 0 <= k < |BUCKETS| ==>
              BucketItems(findings, BUCKETS[k]) == Some(if BUCKETS[k] == "important" then items else [])
  {
    var findings := [Field("important", Arr(items))];
    forall k | 0 <= k < |BUCKETS|
      ensures BucketItems(findings, BUCKETS[k]) == Some(if BUCKETS[k] == "important" then items else [])
    {
      LoneField(findings, BUCKETS[k]);
    }
  }

  /** A bare list of findings is the "important" bucket, and the other three are empty. */
  lemma BareListIsImportant(data: Json, dumps: Json -> string, items: seq<Json>, bucket: string)
    requires data.Obj? && Has(data.fields, "findings") && Get(data.fields, "findings") == Arr(items)
    requires bucket == "critical" || bucket == "important" || bucket == "minor" || bucket == "positive"
    ensures Acceptable(data) && BucketOf(Normalized(data, dumps), bucket).Some?
    ensures FindingsKept(
              if bucket == "important" then items else [], BucketOf(Normalized(data, dumps), bucket).value, dumps)
  {
    var k := BucketIndex(bucket);
    BareBuckets(data, items);
    NormalizedBucket(data, dumps, k);
    FindingsAreKept(if bucket == "important" then items else [], dumps);
  }

  lemma LoneField(fields: seq<Field>, key: string)
    requires |fields| == 1
    ensures Has(fields, key) <==> fields[0].key == key
    ensures Has(fields, key) ==> Get(fields, key) == fields[0].value
  {
  }

  /** The two texts of a result: text stays, missing or null is empty, anything else is dumped. */
  lemma TextsAreKept(data: Json, dumps: Json -> string, key: string)
    requires Acceptable(data) && (key == "summary" || key == "commit_message_review")
    ensures var v := Normalized(data, dumps);
            && v.Obj? && Has(v.fields, key)
            && var given := GetOrNull(data.fields, key);
               && (given.Str? ==> Get(v.fields, key) == given)
               && (given.Null? ==> Get(v.fields, key) == Str(""))
               && (!given.Str? && !given.Null? ==> Get(v.fields, key) == Str(dumps(given)))
  {
    NormalizedHasShape(data, dumps);
    ShapeLookups(Normalized(data, dumps));
  }

  /** The questions of a list: the items that are not null, in order. */
  lemma {:induction false} QuestionsInOrder(a: seq<Json>, b: seq<Json>, dumps: Json -> string)
    ensures Questions(a + b, dumps) == Questions(a, dumps) + Questions(b, dumps)
    decreases |a|
  {
    if a == [] {
      assert a + b == b;
    } else {
      assert (a + b)[1..] == a[1..] + b;
      QuestionsInOrder(a[1..], b, dumps);
    }
  }

  lemma OneQuestion(item: Json, dumps: Json -> string)
    ensures Questions([item], dumps) ==
            match item
            case Null => []
            case Str(s) => [Str(s)]
            case _ => [Str(dumps(item))]
  {
    assert [item][1..] == [];
  }

  predicate Blank(s: string) {
    forall i :: 0 <= i < |s| ==> IsSpace(s[i])
  }

  lemma QuestionsOf(given: Json, dumps: Json -> string)
    ensures var questions := Questions(QuestionList(given), dumps);
            match given
            case Arr(items) => questions == Questions(items, dumps)
            case Null => questions == []
            case Str(s) => questions == if Blank(s) then [] else [Str(s)]
            case _ => questions == [Str(dumps(given))]
  {
    if given.Str? { StripToNothing(given.s, IsSpace); }
    assert [given][1..] == [];
  }

  lemma QuestionsField(data: Json, dumps: Json -> string)
    requires Acceptable(data)
    ensures var v := Normalized(data, dumps);
            && v.Obj? && Has(v.fields, "questions")
            && Get(v.fields, "questions") == Arr(Questions(QuestionList(GetOrNull(data.fields, "questions")), dumps))
  {
    NormalizedHasShape(data, dumps);
    ShapeLookups(Normalized(data, dumps));
  }

  /** A list stays one, text that is not blank is one question, and so is any other value. */
  lemma QuestionsAreKept(data: Json, dumps: Json -> string)
    requires Acceptable(data)
    ensures var v := Normalized(data, dumps);
            && v.Obj? && Has(v.fields, "questions") && Get(v.fields, "questions").Arr?
            && var questions := Get(v.fields, "questions").items;
               match GetOrNull(data.fields, "questions")
               case Arr(items) => questions == Questions(items, dumps)
               case Null => questions == []
               case Str(s) => questions == if Blank(s) then [] else [Str(s)]
               case other => questions == [Str(dumps(other))]
  {
    QuestionsField(data, dumps);
    QuestionsOf(GetOrNull(data.fields, "questions"), dumps);
  }

  /** A bucket the loop accepts: missing, one of Python's empty values, or a list. */
  predicate BucketIsFine(findings: seq<Field>, bucket: string) {
    Has(findings, bucket) ==>
      Get(findings, bucket).Arr? ||
      Get(findings, bucket) in [Null, Bool(false), Int(0), Float(0.0), Str(""), Obj([])]
  }

  /** What can be a result: an object whose findings are missing, null, a list, or an object of fine buckets. */
  lemma AcceptableIff(data: Json)
    ensures Acceptable(data) <==>
            data.Obj? &&
            match GetOrNull(data.fields, "findings")
            case Null => true
            case Arr(_) => true
            case Obj(findings) =>
              && BucketIsFine(findings, "critical") && BucketIsFine(findings, "important")
              && BucketIsFine(findings, "minor") && BucketIsFine(findings, "positive")
            case _ => false
  {
    if data.Obj? && FindingsDict(GetOrNull(data.fields, "findings")).Some? {
      var findings := FindingsDict(GetOrNull(data.fields, "findings")).value;
      FineBuckets(findings);
      if GetOrNull(data.fields, "findings").Arr? {
        LoneField(findings, "critical");
        LoneField(findings, "important");
        LoneField(findings, "minor");
        LoneField(findings, "positive");
      }
    }
  }

  lemma FineBucket(findings: seq<Field>, bucket: string)
    ensures BucketItems(findings, bucket).Some? <==> BucketIsFine(findings, bucket)
  {
  }

  lemma FineBuckets(findings: seq<Field>)
    ensures AllBucketsOk(findings, |BUCKETS|) <==>
            && BucketIsFine(findings, "critical") && BucketIsFine(findings, "important")
            && BucketIsFine(findings, "minor") && BucketIsFine(findings, "positive")
  {
    assert BUCKETS[0] == "critical" && BUCKETS[1] == "important" && BUCKETS[2] == "minor" && BUCKETS[3] == "positive";
    forall k | 0 <= k < |BUCKETS|
      ensures BucketItems(findings, BUCKETS[k]).Some? <==> BucketIsFine(findings, BUCKETS[k])
    {
      FineBucket(findings, BUCKETS[k]);
    }
  }

  lemma WrittenOut(pad: string, body: string, tail: string)
    ensures Fenced(Block("", pad, false, body)) + tail
            == "```json" + (pad + ("\n" + (body + ("```" + tail))))
  {
  }

  /** The pattern, written out: prose, an opening line with blanks, the body, the closing fence. */
  lemma MarkdownBlockIsFound(prose: string, pad: string, body: string, tail: string)
    requires !Contains(prose, "```json")
    requires forall i :: 0 <= i < |pad| ==> pad[i] == ' ' || pad[i] == '\t'
    requires !Contains(body, "```") && (body != "" ==> body[|body| - 1] != '`')
    ensures FindAll(prose + ("```json" + (pad + ("\n" + (body + ("```" + tail)))))) == [body] + FindAll(tail)
  {
    var block := Block("", pad, false, body);
    WrittenOut(pad, body, tail);
    FencedIsFound(block, tail);
    OpensBlock(Fenced(block) + tail, pad + ("\n" + (body + ("```" + tail))));
    ProseIsSkipped(prose, Fenced(block) + tail);
  }

  lemma OpensBlock(t: string, rest: string)
    requires t == "```json" + rest
    ensures MatchesAt(t, OPENER, 0)
  {
  }

  /** The loop over the four buckets; None stands for the ValueError. */
  method NormalizeBuckets(findings: seq<Field>, dumps: Json -> string) returns (r: Option<seq<Field>>)
    ensures r.Some? <==> AllBucketsOk(findings, |BUCKETS|)
    ensures r.Some? ==> r.value == NormalizedBuckets(findings, |BUCKETS|, dumps)
  {
    var buckets := [];
    for k := 0 to |BUCKETS|
      invariant AllBucketsOk(findings, k)
      invariant buckets == NormalizedBuckets(findings, k, dumps)
    {
      var items := GetOrNull(findings, BUCKETS[k]);
      if Falsy(items) {
        items := Arr([]);
      }
      if !items.Arr? {
        return None;
      }
      buckets := buckets + [Field(BUCKETS[k], Arr(Findings(items.items, dumps)))];
    }
    return Some(buckets);
  }

  /** _normalize_result as it runs; None stands for the ValueError. */
  method NormalizeResult(data: Json, dumps: Json -> string) returns (r: Option<Json>)
    ensures r.Some? <==> Acceptable(data)
    ensures r.Some? ==> r.value == Normalized(data, dumps)
  {
    if !data.Obj? {
      return None;
    }
    var findings := GetOrNull(data.fields, "findings");
    if findings == Null {
      findings := Obj([]);
    } else if findings.Arr? {
      findings := Obj([Field("important", findings)]);
    }
    if !findings.Obj? {
      return None;
    }
    var buckets := NormalizeBuckets(findings.fields, dumps);
    if buckets.None? {
      return None;
    }
    return Some(Assemble(data.fields, buckets.value, dumps));
  }

  /** A block's body as a result: `parse` stands for json.loads. */
  function FromBody(body: string, parse: string -> Option<Json>, dumps: Json -> string): Option<Json> {
    var data := parse(body);
    if data.Some? && Acceptable(data.value) then Some(Normalized(data.value, dumps)) else None
  }

  function Extract(t: string, parse: string -> Option<Json>, dumps: Json -> string): Option<Json> {
    var bodies := FindAll(t);
    if bodies == [] then None else FromBody(bodies[|bodies| - 1], parse, dumps)
  }

  lemma {:induction false} BodiesInOrder(blocks: seq<Block>)
    ensures |Bodies(blocks)| == |blocks|
    ensures forall i :: 0 <= i < |blocks| ==> Bodies(blocks)[i] == blocks[i].body
    decreases |blocks|
  {
    if blocks != [] { BodiesInOrder(blocks[1..]); }
  }

  /**
    End to end on a transcript of plain blocks: the result comes from the body of the last block
    alone; a transcript without blocks has none.
   */
  lemma LastBlockDecides(blocks: seq<Block>, tail: string, parse: string -> Option<Json>, dumps: Json -> string)
    requires PlainProse(tail)
    requires forall i :: 0 <= i < |blocks| ==>
               PlainProse(blocks[i].prose) && PlainPad(blocks[i].pad) && PlainBody(blocks[i].body)
    ensures Extract(Transcript(blocks, tail), parse, dumps) ==
            if blocks == [] then None else FromBody(blocks[|blocks| - 1].body, parse, dumps)
  {
    ScanFindsExactlyTheBodies(blocks, tail);
    BodiesInOrder(blocks);
  }

  /** _extract_result: the LAST block, parsed and normalized. */
  method ExtractResult(t: string, parse: string -> Option<Json>, dumps: Json -> string) returns (r: Option<Json>)
    ensures r == Extract(t, parse, dumps)
    ensures r.Some? ==> ResultShape(r.value)
  {
    var matches := FindAll(t);
    if matches == [] {
      return None;
    }
    var data := parse(matches[|matches| - 1]);
    if data.None? {
      return None;
    }
    r := NormalizeResult(data.value, dumps);
    if r.Some? {
      NormalizedHasShape(data.value, dumps);
    }
  }
}
