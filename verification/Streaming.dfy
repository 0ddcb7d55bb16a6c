/**
  Output streaming: a reader thread feeding a queue and a consumer with a deadline
  (_run_streaming in app/orchestrator/podman_client.py, _run_opencode_once in
  containers/review-runner/entrypoint.py).  The schedule says how many lines the reader gets
  in before each poll of the consumer, so the contracts hold under every interleaving.  The
  reader is a daemon thread: what it still queues after the consumer gave up is lost.
 */
module Streaming {
  import opened Wrappers

  /** What travels through the queue: a line, or the reader's final None. */
  datatype Item = Line(text: string) | Eof

  function LinesOf(items: seq<Item>): seq<string> {
    if items == [] then []
    else if items[0].Eof? then LinesOf(items[1..])
    else [items[0].text] + LinesOf(items[1..])
  }

  lemma {:induction false} LinesOfAppend(items: seq<Item>, last: Item)
    ensures LinesOf(items + [last]) == LinesOf(items) + if last.Line? then [last.text] else []
  {
    if items != [] {
      assert (items + [last])[1..] == items[1..] + [last];
      LinesOfAppend(items[1..], last);
    } else {
      assert (items + [last])[1..] == [];
    }
  }

  /** Moving the head of the queue to the emitted lines loses nothing. */
  lemma HeadMoves(emitted: seq<string>, items: seq<Item>)
    requires items != []
    ensures emitted + LinesOf(items)
            == (if items[0].Line? then emitted + [items[0].text] else emitted) + LinesOf(items[1..])
  {
  }

  /**
    The lines a reader gets out of a child that prints `all`: it raises before line failAt (on
    output that does not decode, say) and puts its None all the same.
   */
  function Reached(all: seq<string>, failAt: Option<nat>): seq<string> {
    if failAt.Some? && failAt.value < |all| then all[..failAt.value] else all
  }

  /** line.rstrip("\r\n") */
  function RStrip(line: string): string {
    if line != "" && line[|line| - 1] in "\r\n" then RStrip(line[..|line| - 1]) else line
  }

  /** What a consumer makes of one line; None when it drops the line. */
  type Render = string -> Option<string>

  /** The podman client emits every line without its line end. */
  function PodmanRender(line: string): Option<string> {
    Some(RStrip(line))
  }

  /** The entrypoint also strips escape sequences and drops lines that were nothing else. */
  function EntrypointRender(strip: string -> string, line: string): Option<string> {
    var text := strip(RStrip(line));
    if text == "" then None else Some(text + "\n")
  }

  function RenderAll(render: Render, lines: seq<string>): seq<string> {
    if lines == [] then []
    else
      var last := render(lines[|lines| - 1]);
      RenderAll(render, lines[..|lines| - 1]) + if last.Some? then [last.value] else []
  }

  lemma RenderOneMore(render: Render, lines: seq<string>, line: string)
    ensures RenderAll(render, lines + [line])
            == RenderAll(render, lines) + if render(line).Some? then [render(line).value] else []
  {
    assert (lines + [line])[..|lines|] == lines;
  }

  /** Rendering commutes with taking a prefix of the lines. */
  lemma {:induction false} RenderPrefix(render: Render, lines: seq<string>, n: nat)
    requires n <= |lines|
    ensures RenderAll(render, lines[..n]) <= RenderAll(render, lines)
    decreases |lines|
  {
    if n < |lines| {
      RenderPrefix(render, lines[..|lines| - 1], n);
      assert lines[..|lines| - 1][..n] == lines[..n];
    } else {
      assert lines[..n] == lines;
    }
  }

  /** The reader gets somewhere before every poll, and there are polls for every line and the end. */
  predicate KeepsUp(schedule: seq<nat>, all: seq<string>) {
    |schedule| > |all| && forall k :: 0 <= k < |schedule| ==> schedule[k] > 0
  }

  /** The steps the reader takes before the deadline. */
  function Steps(schedule: seq<nat>): nat {
    if schedule == [] then 0 else Steps(schedule[..|schedule| - 1]) + schedule[|schedule| - 1]
  }

  function Min(a: nat, b: nat): nat {
    if a < b then a else b
  }

  class Stream {
    const all: seq<string>          // everything the child would print
    const failAt: Option<nat>       // the reader raises (say, on a decoding error) before this line
    const render: Render

    var read: nat                   // lines the reader has taken from the pipe
    var limit: nat                  // lines the child gets to print
    var closed: bool                // the reader has put its None
    var buffer: seq<Item>           // the queue
    var out: seq<string>            // what the consumer has emitted
    ghost var emitted: seq<string>  // the raw lines behind it

    /** The queue is first-in first-out and loses nothing. */
    ghost predicate Valid()
      reads this
    {
      && read <= limit <= |all|
      && emitted + LinesOf(buffer) == all[..read]
      && out == RenderAll(render, emitted)
      && (forall k :: 0 <= k < |buffer| && buffer[k].Eof? ==> closed && k == |buffer| - 1)
      && (failAt.Some? ==> read <= failAt.value)
      && (closed ==> read == limit || (failAt.Some? && failAt.value == read))
    }

    /** The reader's final None is still on its way to the consumer. */
    predicate Open()
      reads this
    {
      closed ==> buffer != [] && buffer[|buffer| - 1].Eof?
    }

    constructor (all: seq<string>, failAt: Option<nat>, render: Render)
      ensures Valid() && this.all == all && this.failAt == failAt && this.render == render
      ensures read == 0 && limit == |all| && !closed && buffer == [] && emitted == []
    {
      this.all, this.failAt, this.render := all, failAt, render;
      read, limit, closed, buffer, out, emitted := 0, |all|, false, [], [], [];
    }

    /** Where the reader stops: at the line it fails at, or at the end of the output. */
    function Stop(): nat
      reads this
    {
      if failAt.Some? then Min(failAt.value, limit) else limit
    }

    /** One step of the reader thread: put a line, or the final None; nothing after that. */
    method ReaderStep()
      requires Valid()
      modifies this`read, this`closed, this`buffer
      ensures Valid()
      ensures old(closed) ==> closed && read == old(read) && buffer == old(buffer)
      ensures !old(closed) && old(read) < limit && failAt != Some(old(read)) ==>
                !closed && read == old(read) + 1 && buffer == old(buffer) + [Line(all[old(read)])]
      ensures !old(closed) && (old(read) == limit || failAt == Some(old(read))) ==>
                closed && read == old(read) && buffer == old(buffer) + [Eof]
      ensures |buffer| + Ahead() == |old(buffer)| + old(Ahead())
      ensures old(Open()) ==> Open() && buffer != []
    {
      if closed {
        return;
      }
      if read == limit || failAt == Some(read) {
        LinesOfAppend(buffer, Eof);
        buffer := buffer + [Eof];
        closed := true;
      } else {
        LinesOfAppend(buffer, Line(all[read]));
        assert all[..read + 1] == all[..read] + [all[read]];
        buffer := buffer + [Line(all[read])];
        read := read + 1;
      }
    }

    /** Items the reader can still put. */
    ghost function Ahead(): int
      reads this
    {
      limit - read + if closed then 0 else 1
    }

    /** The reader runs for a while. */
    method ReaderRuns(steps: nat)
      requires Valid()
      modifies this`read, this`closed, this`buffer
      ensures Valid()
      ensures old(closed) ==> closed && read == old(read) && buffer == old(buffer)
      ensures read == Min(old(read) + steps, Stop()) && |buffer| <= |old(buffer)| + steps
      ensures |buffer| + Ahead() == |old(buffer)| + old(Ahead())
      ensures old(Open()) ==> Open() && (steps > 0 ==> buffer != [])
    {
      for k := 0 to steps
        invariant Valid() && (old(closed) ==> closed && read == old(read) && buffer == old(buffer))
        invariant read == Min(old(read) + k, Stop()) && |buffer| <= |old(buffer)| + k
        invariant old(Open()) ==> Open() && (k > 0 ==> buffer != [])
        invariant |buffer| + Ahead() == |old(buffer)| + old(Ahead())
      {
        ReaderStep();
      }
    }

    /** The consumer takes the head of the queue; a line is emitted, the None ends the loop. */
    method TakeHead() returns (ended: bool)
      requires Valid() && buffer != []
      modifies this`buffer, this`out, this`emitted
      ensures Valid()
      ensures buffer == old(buffer)[1..]
      ensures ended <==> old(buffer)[0].Eof?
      ensures emitted == if ended then old(emitted) else old(emitted) + [old(buffer)[0].text]
      ensures ended ==> closed && buffer == []
      ensures old(Open()) && !ended ==> Open()
    {
      var item := buffer[0];
      HeadMoves(emitted, buffer);
      if item.Line? { RenderOneMore(render, emitted, item.text); }
      buffer := buffer[1..];
      if item.Eof? {
        return true;
      }
      var text := render(item.text);
      out := if text.Some? then out + [text.value] else out;
      emitted := emitted + [item.text];
      return false;
    }

    /** proc.kill(): of what the child had not printed yet, at most `piped` more lines arrive. */
    method Kill(piped: nat)
      requires Valid()
      modifies this`limit
      ensures Valid()
      ensures limit == if !closed && read + piped < old(limit) then read + piped else old(limit)
    {
      if !closed && read + piped < limit {
        limit := read + piped;
      }
    }

    /** One poll: the reader takes some steps, then the consumer takes an item if there is one. */
    method Poll(steps: nat) returns (ended: bool)
      requires Valid() && Open()
      modifies this`read, this`closed, this`buffer, this`out, this`emitted
      ensures Valid() && read == Min(old(read) + steps, Stop())
      ensures if ended then closed && buffer == [] else Open()
      ensures !ended && steps > 0 ==> |emitted| == |old(emitted)| + 1
    {
      ReaderRuns(steps);
      if buffer == [] {
        return false;
      }
      ended := TakeHead();
    }

    /** Polls until the reader's None arrives or the deadline has passed. */
    method Consume(schedule: seq<nat>) returns (timedOut: bool)
      requires Valid() && read == 0 && limit == |all| && !closed && emitted == []
      modifies this`read, this`closed, this`buffer, this`out, this`emitted
      ensures Valid()
      ensures timedOut ==> read == Min(Steps(schedule), |Reached(all, failAt)|)
      ensures !timedOut ==> closed && buffer == []
      ensures KeepsUp(schedule, all) ==> !timedOut
    {
      timedOut := false;
      var polls := 0;
      while true
        invariant Valid() && Open() && polls <= |schedule| && limit == |all|
        invariant read == Min(Steps(schedule[..polls]), Stop())
        invariant KeepsUp(schedule, all) ==> |emitted| == polls
        decreases |schedule| - polls
      {
        if polls == |schedule| {
          assert schedule[..polls] == schedule;
          EmittedIsPrefix();
          return true;
        }
        var ended := Poll(schedule[polls]);
        if ended {
          return false;
        }
        polls := polls + 1;
        assert schedule[..polls][..polls - 1] == schedule[..polls - 1];
      }
    }

    /** What is already buffered, or still in the pipe, is emitted until the queue stays empty. */
    method Drain(drain: nat -> nat)
      requires Valid()
      modifies this`read, this`closed, this`buffer, this`out, this`emitted
      ensures Valid() && buffer == [] && read >= old(read)
    {
      var polls := 0;
      while true
        invariant Valid() && read >= old(read)
        decreases |buffer| + Ahead()
      {
        ReaderRuns(drain(polls));
        polls := polls + 1;
        if buffer == [] {
          break;
        }
        var ended := TakeHead();
        if ended {
          break;
        }
      }
    }

    /** The deadline has passed: the child is killed and what it printed is drained. */
    method GiveUp(piped: nat, drain: nat -> nat)
      requires Valid()
      modifies this`limit, this`read, this`closed, this`buffer, this`out, this`emitted
      ensures Valid() && buffer == [] && read >= old(read)
    {
      Kill(piped);
      Drain(drain);
    }

    lemma EmittedIsPrefix()
      requires Valid()
      ensures emitted <= all && out <= RenderAll(render, all)
      ensures |emitted| <= |Reached(all, failAt)|
      ensures buffer == [] ==> |emitted| == read
    {
      assert emitted == all[..|emitted|];
      RenderPrefix(render, all, |emitted|);
    }

    /** The None arrives after everything the reader reached. */
    lemma EndIsReached()
      requires Valid() && closed && buffer == [] && limit == |all|
      ensures emitted == Reached(all, failAt)
      ensures emitted == all <==> failAt.None? || failAt.value >= |all|
    {
      EmittedIsPrefix();
      assert all[..|all|] == all;
    }

    /**
      The whole run.  Before its k-th poll the consumer waits while the reader takes
      schedule[k] steps; after the last poll the deadline has passed.  While draining, the
      reader takes drain(k) steps before the k-th poll, and late more before it is left behind.

      Whatever the interleaving, what is emitted followed by what is left in the queue is exactly
      what the reader read, in order; every line it had read by the deadline is emitted, and
      nothing but the late lines is left.  Without a timeout what is emitted is everything up to
      the line the reader fails at, so the whole output exactly when it does not fail; a child
      that keeps up with the polls never times out.
     */
    method RunStreaming(schedule: seq<nat>, piped: nat, drain: nat -> nat, late: nat) returns (timedOut: bool)
      requires Valid() && read == 0 && limit == |all| && !closed && emitted == []
      modifies this
      ensures Valid() && emitted + LinesOf(buffer) == all[..read]
      ensures emitted <= all && out == RenderAll(render, emitted) <= RenderAll(render, all)
      ensures |emitted| <= |Reached(all, failAt)| && read <= |emitted| + late && |buffer| <= late
      ensures |emitted| >= Min(Steps(schedule), |Reached(all, failAt)|)
      ensures !timedOut ==> buffer == [] && emitted == Reached(all, failAt)
      ensures !timedOut ==> (emitted == all <==> failAt.None? || failAt.value >= |all|)
      ensures KeepsUp(schedule, all) ==> !timedOut
    {
      timedOut := Consume(schedule);
      if timedOut {
        GiveUp(piped, drain);
      } else {
        EndIsReached();
      }
      EmittedIsPrefix();
      ReaderRuns(late);
    }
  }

  // ---------------------------------------------------------------- the two consumers

  /**
    podman: the log is the lines the reader reached, without their line ends, at least all it
    reached by the deadline.  timed_out is false after a reader failure too.
   */
  method RunPodman(
    all: seq<string>, failAt: Option<nat>, schedule: seq<nat>, piped: nat, drain: nat -> nat, late: nat)
    returns (timedOut: bool, emitted: seq<string>)
    ensures Min(Steps(schedule), |Reached(all, failAt)|) <= |emitted| <= |Reached(all, failAt)|
    ensures forall k :: 0 <= k < |emitted| ==> emitted[k] == RStrip(all[k])
    ensures !timedOut ==> |emitted| == |Reached(all, failAt)|
    ensures |schedule| > |all| && (forall k :: 0 <= k < |schedule| ==> schedule[k] >= 1) ==> !timedOut
  {
    var s := new Stream(all, failAt, PodmanRender);
    timedOut := s.RunStreaming(schedule, piped, drain, late);
    emitted := s.out;
    PodmanKeepsEveryLine(s.emitted);
  }

  lemma {:induction false} PodmanKeepsEveryLine(lines: seq<string>)
    ensures |RenderAll(PodmanRender, lines)| == |lines|
    ensures forall k :: 0 <= k < |lines| ==> RenderAll(PodmanRender, lines)[k] == RStrip(lines[k])
    decreases |lines|
  {
    if lines != [] { PodmanKeepsEveryLine(lines[..|lines| - 1]); }
  }

  function Concat(parts: seq<string>): string {
    if parts == [] then "" else Concat(parts[..|parts| - 1]) + parts[|parts| - 1]
  }

  /** What the entrypoint makes of some lines. */
  function OutputOf(strip: string -> string, lines: seq<string>): string {
    Concat(RenderAll(line => EntrypointRender(strip, line), lines))
  }

  /** The entrypoint: exit code 124 on timeout, else the child's; output joined. */
  method RunOpencodeOnce(
    all: seq<string>, failAt: Option<nat>, strip: string -> string, childExit: int,
    schedule: seq<nat>, piped: nat, drain: nat -> nat, late: nat)
    returns (exitCode: int, output: string)
    ensures exists n :: Min(Steps(schedule), |Reached(all, failAt)|) <= n <= |Reached(all, failAt)| &&
                        output == OutputOf(strip, all[..n])
    ensures exitCode != 124 ==> exitCode == childExit && output == OutputOf(strip, Reached(all, failAt))
    ensures KeepsUp(schedule, all) ==> exitCode == childExit && output == OutputOf(strip, Reached(all, failAt))
  {
    var s := new Stream(all, failAt, line => EntrypointRender(strip, line));
    var timedOut := s.RunStreaming(schedule, piped, drain, late);
    output := Concat(s.out);
    assert s.emitted == all[..|s.emitted|];
    assert output == OutputOf(strip, all[..|s.emitted|]);
    exitCode := if timedOut then 124 else childExit;
  }

  // ---------------------------------------------------------------- what the output says

  /** Exactly the run of line ends at the end goes; what is before it stays. */
  lemma {:induction false} LineKeepsItsText(text: string, eol: string)
    requires text != "" ==> text[|text| - 1] != '\r' && text[|text| - 1] != '\n'
    requires forall i :: 0 <= i < |eol| ==> eol[i] == '\r' || eol[i] == '\n'
    ensures RStrip(text + eol) == text
    decreases |eol|
  {
    if eol == "" {
      assert text + eol == text;
    } else {
      var line := text + eol;
      assert line[..|line| - 1] == text + eol[..|eol| - 1];
      LineKeepsItsText(text, eol[..|eol| - 1]);
    }
  }

  /** The output of one line: its stripped text and a line end, or nothing when that text is empty. */
  lemma OneLine(strip: string -> string, text: string, eol: string)
    requires text != "" ==> text[|text| - 1] != '\r' && text[|text| - 1] != '\n'
    requires forall i :: 0 <= i < |eol| ==> eol[i] == '\r' || eol[i] == '\n'
    ensures OutputOf(strip, [text + eol]) == if strip(text) == "" then "" else strip(text) + "\n"
  {
    var render := (line: string) => EntrypointRender(strip, line);
    LineKeepsItsText(text, eol);
    assert render(text + eol) == if strip(text) == "" then None else Some(strip(text) + "\n");
    RenderOne(render, text + eol);
    ConcatOne(strip(text) + "\n");
  }

  lemma RenderOne(render: Render, line: string)
    ensures RenderAll(render, [line]) == if render(line).Some? then [render(line).value] else []
  {
    assert [line][..0] == [];
  }

  lemma ConcatOne(part: string)
    ensures Concat([part]) == part && Concat([]) == ""
  {
    assert [part][..0] == [];
  }

  lemma {:induction false} ConcatSplits(a: seq<string>, b: seq<string>)
    ensures Concat(a + b) == Concat(a) + Concat(b)
    decreases |b|
  {
    if b == [] {
      assert a + b == a;
    } else {
      assert (a + b)[..|a + b| - 1] == a + b[..|b| - 1];
      ConcatSplits(a, b[..|b| - 1]);
    }
  }

  lemma {:induction false} RenderSplits(render: Render, a: seq<string>, b: seq<string>)
    ensures RenderAll(render, a + b) == RenderAll(render, a) + RenderAll(render, b)
    decreases |b|
  {
    if b == [] {
      assert a + b == a;
    } else {
      var first, last := b[..|b| - 1], b[|b| - 1];
      RenderSplits(render, a, first);
      assert a + b == (a + first) + [last] && b == first + [last];
      RenderOneMore(render, a + first, last);
      RenderOneMore(render, first, last);
    }
  }

  /** The output of lines is the outputs of the lines one after the other, in their order. */
  lemma OutputInOrder(strip: string -> string, a: seq<string>, b: seq<string>)
    ensures OutputOf(strip, a + b) == OutputOf(strip, a) + OutputOf(strip, b)
    ensures OutputOf(strip, []) == ""
  {
    var render := (line: string) => EntrypointRender(strip, line);
    RenderSplits(render, a, b);
    ConcatSplits(RenderAll(render, a), RenderAll(render, b));
  }

  // ---------------------------------------------------------------- what a reader failure costs

  lemma {:induction false} EntrypointTextsAreNotEmpty(strip: string -> string, lines: seq<string>)
    ensures Concat(RenderAll(line => EntrypointRender(strip, line), lines)) == ""
            <==> RenderAll(line => EntrypointRender(strip, line), lines) == []
  {
    var texts := RenderAll(line => EntrypointRender(strip, line), lines);
    if texts != [] {
      RenderedFrom(line => EntrypointRender(strip, line), lines, |texts| - 1);
      assert texts[|texts| - 1] != "";
    }
  }

  lemma {:induction false} RenderedFrom(render: Render, lines: seq<string>, k: nat)
    requires k < |RenderAll(render, lines)|
    ensures exists line :: line in lines && render(line) == Some(RenderAll(render, lines)[k])
    decreases |lines|
  {
    var n := |lines| - 1;
    if k < |RenderAll(render, lines[..n])| {
      RenderedFrom(render, lines[..n], k);
    } else {
      assert lines[n] in lines;
    }
  }

  /** podman loses lines exactly when the reader fails before the end of the output. */
  lemma PodmanLosesIffReaderFails(all: seq<string>, failAt: Option<nat>)
    ensures RenderAll(PodmanRender, Reached(all, failAt)) == RenderAll(PodmanRender, all)
            <==> failAt.None? || failAt.value >= |all|
  {
    PodmanKeepsEveryLine(all);
    PodmanKeepsEveryLine(Reached(all, failAt));
  }

  /** The entrypoint loses output exactly when some line it does not get is more than escapes. */
  lemma OpencodeLosesIffTextIsLost(strip: string -> string, all: seq<string>, failAt: Option<nat>)
    ensures OutputOf(strip, Reached(all, failAt)) == OutputOf(strip, all) <==>
            failAt.None? || failAt.value >= |all|
            || RenderAll(line => EntrypointRender(strip, line), all[failAt.value..]) == []
  {
    if failAt.Some? && failAt.value < |all| {
      var render := line => EntrypointRender(strip, line);
      var got, lost := all[..failAt.value], all[failAt.value..];
      assert all == got + lost;
      RenderSplits(render, got, lost);
      ConcatSplits(RenderAll(render, got), RenderAll(render, lost));
      EntrypointTextsAreNotEmpty(strip, lost);
      assert RenderAll(render, lost) == [] ==> RenderAll(render, got) + [] == RenderAll(render, got);
    }
  }

  /** A concrete loss: the second of two lines does not decode. */
  lemma UndecodableLineEndsTheLog()
    ensures Reached(["first\n", "second\n"], Some(1)) == ["first\n"]
    ensures |RenderAll(PodmanRender, Reached(["first\n", "second\n"], Some(1)))| == 1
    ensures |RenderAll(PodmanRender, ["first\n", "second\n"])| == 2
  {
    PodmanKeepsEveryLine(["first\n"]);
    PodmanKeepsEveryLine(["first\n", "second\n"]);
  }
}
