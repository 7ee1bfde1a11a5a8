/**
 * The server-sent-events decoder inside `HttpClient.sse` (src/network/http.ts):
 * decoded text is appended to a buffer, CRLF is turned into LF, complete events
 * are cut off at each blank line, and the `data:` lines of each event are
 * handed to `onEvent`, `[DONE]` aborting the stream instead.
 */
module Sse {
  import opened Wrappers
  import opened Text

  const DataPrefix: string := "data:"
  const DoneSentinel: string := "[DONE]"

  /** `line.replace(/^data:\s?/, '')` on a line that starts with `data:`. */
  function LinePayload(trimmed: string): string
    requires StartsWith(trimmed, DataPrefix)
  {
    var rest := trimmed[5..];
    if rest != [] && IsWhitespace(rest[0]) then rest[1..] else rest
  }

  /** The prefix and at most one whitespace character after it go; the
      character goes exactly when there is one and it is whitespace. */
  lemma LinePayloadSpec(trimmed: string)
    requires StartsWith(trimmed, DataPrefix)
    ensures var r := LinePayload(trimmed);
      && |r| <= |trimmed| - 5 <= |r| + 1
      && r == trimmed[|trimmed| - |r|..]
      && (|r| + 1 == |trimmed| - 5 <==> (|trimmed| > 5 && IsWhitespace(trimmed[5])))
  {
  }

  /** What one line of an event contributes. */
  datatype Item = Skip | DoneMark | Data(payload: string)

  /** The treatment of one line: trimmed, ignored unless it starts with
      `data:`, `[DONE]` marking the end, anything else a payload. */
  function LineItem(line: string): Item
  {
    var trimmed := Trim(line);
    if trimmed == [] || !StartsWith(trimmed, DataPrefix) then Skip
    else
      var d := LinePayload(trimmed);
      if d == DoneSentinel then DoneMark else Data(d)
  }

  /** A line counts iff its trimmed text starts with `data:`; it is the end
      mark iff its payload is `[DONE]`; any other payload is forwarded. */
  lemma LineItemSpec(line: string)
    ensures LineItem(line) != Skip <==> StartsWith(Trim(line), DataPrefix)
    ensures LineItem(line) == DoneMark <==> StartsWith(Trim(line), DataPrefix) && LinePayload(Trim(line)) == DoneSentinel
    ensures LineItem(line).Data? ==> LineItem(line).payload != DoneSentinel && LineItem(line).payload == LinePayload(Trim(line))
  {
  }

  /** What `onEvent` receives for one line: its payload, if it has one. */
  function LineEvents(line: string): seq<string>
  {
    var item := LineItem(line);
    if item.Data? then [item.payload] else []
  }

  /** Whether the line is the end mark. */
  predicate IsDoneLine(line: string)
  {
    LineItem(line) == DoneMark
  }

  /** The values of `f` on the elements of `xs`, concatenated in order. */
  function ConcatMap(f: string -> seq<string>, xs: seq<string>): seq<string>
  {
    if xs == [] then [] else ConcatMap(f, xs[..|xs| - 1]) + f(xs[|xs| - 1])
  }

  /** Whether `p` holds for some element of `xs`. */
  predicate AnyOf(p: string -> bool, xs: seq<string>)
  {
    exists i :: 0 <= i < |xs| && p(xs[i])
  }

  lemma ConcatMapSnoc(f: string -> seq<string>, xs: seq<string>, x: string)
    ensures ConcatMap(f, xs + [x]) == ConcatMap(f, xs) + f(x)
  {
    assert (xs + [x])[..|xs|] == xs;
  }

  lemma ConcatMapSingle(f: string -> seq<string>, x: string)
    ensures ConcatMap(f, [x]) == f(x)
  {
    var one: seq<string> := [x];
    assert one[..0] == [];
  }

  lemma {:induction false} ConcatMapAppend(f: string -> seq<string>, a: seq<string>, b: seq<string>)
    ensures ConcatMap(f, a + b) == ConcatMap(f, a) + ConcatMap(f, b)
    decreases |b|
  {
    if b == [] {
      assert a + b == a;
    } else {
      var n := |b| - 1;
      var front, x := b[..n], b[n];
      assert b == front + [x];
      assert a + b == (a + front) + [x];
      ConcatMapSnoc(f, a + front, x);
      ConcatMapSnoc(f, front, x);
      ConcatMapAppend(f, a, front);
    }
  }

  /** A value no element contributes is not in the concatenation. */
  lemma {:induction false} ConcatMapAvoids(f: string -> seq<string>, xs: seq<string>, v: string)
    requires forall i :: 0 <= i < |xs| ==> v !in f(xs[i])
    ensures v !in ConcatMap(f, xs)
    decreases |xs|
  {
    if xs != [] {
      ConcatMapAvoids(f, xs[..|xs| - 1], v);
    }
  }

  /** Elements that contribute one value each contribute those values, in
      order. */
  lemma {:induction false} ConcatMapSingletons(f: string -> seq<string>, xs: seq<string>, vs: seq<string>)
    requires |xs| == |vs|
    requires forall i :: 0 <= i < |xs| ==> f(xs[i]) == [vs[i]]
    ensures ConcatMap(f, xs) == vs
    decreases |xs|
  {
    if xs != [] {
      var n := |xs| - 1;
      ConcatMapSingletons(f, xs[..n], vs[..n]);
      assert vs == vs[..n] + [vs[n]];
    }
  }

  lemma AnyOfSnoc(p: string -> bool, xs: seq<string>, x: string)
    ensures AnyOf(p, xs + [x]) <==> AnyOf(p, xs) || p(x)
  {
    var ys := xs + [x];
    if AnyOf(p, ys) {
      var i :| 0 <= i < |ys| && p(ys[i]);
      if i < |xs| {
        assert ys[i] == xs[i];
      }
    }
    if AnyOf(p, xs) {
      var i :| 0 <= i < |xs| && p(xs[i]);
      assert ys[i] == xs[i];
    }
    if p(x) {
      assert ys[|xs|] == x;
    }
  }

  lemma AnyOfAppend(p: string -> bool, a: seq<string>, b: seq<string>)
    ensures AnyOf(p, a + b) <==> AnyOf(p, a) || AnyOf(p, b)
  {
    var ab := a + b;
    if AnyOf(p, ab) {
      var i :| 0 <= i < |ab| && p(ab[i]);
      if i < |a| {
        assert ab[i] == a[i];
      } else {
        assert ab[i] == b[i - |a|];
      }
    }
    if AnyOf(p, a) {
      var i :| 0 <= i < |a| && p(a[i]);
      assert ab[i] == a[i];
    }
    if AnyOf(p, b) {
      var i :| 0 <= i < |b| && p(b[i]);
      assert ab[|a| + i] == b[i];
    }
  }

  /** The payloads handed to `onEvent` for the lines, in order. */
  function LinesEvents(lines: seq<string>): seq<string>
  {
    ConcatMap(LineEvents, lines)
  }

  /** Whether one of the lines is `[DONE]`. */
  predicate LinesDone(lines: seq<string>)
  {
    AnyOf(IsDoneLine, lines)
  }

  /** `chunk.trim().split('\n')`. */
  function BlockLines(block: string): seq<string>
  {
    Split(Trim(block), '\n')
  }

  function BlockEvents(block: string): seq<string>
  {
    LinesEvents(BlockLines(block))
  }

  predicate BlockDone(block: string)
  {
    LinesDone(BlockLines(block))
  }

  /** The text of complete events, each followed by its blank line. */
  function Framed(blocks: seq<string>): string
  {
    if blocks == [] then [] else blocks[0] + "\n\n" + Framed(blocks[1..])
  }

  /** A complete event as the framing loop cuts it off: no blank line inside
      and no LF at its end (else the blank line would have come earlier). */
  predicate IsBlock(b: string)
  {
    !ContainsPair(b, '\n', '\n') && (b == [] || b[|b| - 1] != '\n')
  }

  /** The inner `while`: cut the buffer at each first `\n\n`. */
  function Blocks(buf: string): (seq<string>, string)
    decreases |buf|
  {
    match IndexOfPair(buf, '\n', '\n')
    case None => ([], buf)
    case Some(i) =>
      var more := Blocks(buf[i + 2..]);
      ([buf[..i]] + more.0, more.1)
  }

  /** The complete events and the remainder together are the buffer, each
      event is complete, and the remainder holds no blank line. */
  lemma BlocksSpec(buf: string)
    ensures Framed(Blocks(buf).0) + Blocks(buf).1 == buf
    ensures forall i :: 0 <= i < |Blocks(buf).0| ==> IsBlock(Blocks(buf).0[i])
    ensures !ContainsPair(Blocks(buf).1, '\n', '\n')
  {
    BlocksRebuild(buf);
    BlocksAreComplete(buf);
    BlocksRemainder(buf);
  }

  lemma {:induction false} BlocksRebuild(buf: string)
    ensures Framed(Blocks(buf).0) + Blocks(buf).1 == buf
    decreases |buf|
  {
    match IndexOfPair(buf, '\n', '\n')
    case None =>
      assert Blocks(buf) == ([], buf);
    case Some(i) =>
      var tail := buf[i + 2..];
      BlocksRebuild(tail);
      BlocksStep(buf, i);
      CutAtBlankLine(buf, i);
      FramedCons(buf[..i], Blocks(tail).0, Blocks(tail).1);
  }

  /** The buffer around its first blank line. */
  lemma CutAtBlankLine(buf: string, i: nat)
    requires IndexOfPair(buf, '\n', '\n') == Some(i)
    ensures buf == buf[..i] + "\n\n" + buf[i + 2..]
  {
    IndexOfPairSpec(buf, '\n', '\n');
    assert PairAt(buf, i, '\n', '\n');
  }

  lemma FramedCons(b: string, bs: seq<string>, z: string)
    ensures Framed([b] + bs) + z == b + "\n\n" + (Framed(bs) + z)
  {
    assert ([b] + bs)[1..] == bs;
  }

  /** The text before the first blank line is a complete event. */
  lemma FirstBlockIsBlock(buf: string, i: nat)
    requires IndexOfPair(buf, '\n', '\n') == Some(i)
    ensures IsBlock(buf[..i])
  {
    var b := buf[..i];
    IndexOfPairSpec(buf, '\n', '\n');
    forall j | PairAt(b, j, '\n', '\n') ensures false {
      assert PairAt(buf, j, '\n', '\n');
    }
    if b != [] {
      assert !PairAt(buf, i - 1, '\n', '\n');
    }
  }

  lemma {:induction false} BlocksAreComplete(buf: string)
    ensures forall i :: 0 <= i < |Blocks(buf).0| ==> IsBlock(Blocks(buf).0[i])
    decreases |buf|
  {
    match IndexOfPair(buf, '\n', '\n')
    case None =>
      assert Blocks(buf) == ([], buf);
    case Some(i) =>
      var b, tail := buf[..i], buf[i + 2..];
      var more := Blocks(tail);
      BlocksAreComplete(tail);
      FirstBlockIsBlock(buf, i);
      assert Blocks(buf).0 == [b] + more.0;
  }

  lemma {:induction false} BlocksRemainder(buf: string)
    ensures !ContainsPair(Blocks(buf).1, '\n', '\n')
    decreases |buf|
  {
    match IndexOfPair(buf, '\n', '\n')
    case None =>
      IndexOfPairSpec(buf, '\n', '\n');
      assert Blocks(buf) == ([], buf);
    case Some(i) =>
      BlocksRemainder(buf[i + 2..]);
      assert Blocks(buf).1 == Blocks(buf[i + 2..]).1;
  }

  /** The events emitted for a list of complete events, in order. */
  function EventsOf(blocks: seq<string>): seq<string>
  {
    ConcatMap(BlockEvents, blocks)
  }

  /** Whether one of the events carries `[DONE]`. */
  predicate DoneIn(blocks: seq<string>)
  {
    AnyOf(BlockDone, blocks)
  }

  /** One successful `read()`: the chunk is appended and CRLF replaced, then
      the complete events are cut off. */
  function FeedStep(buffer: string, chunk: string): (seq<string>, string)
  {
    Blocks(ReplaceCrlf(buffer + chunk))
  }

  /** After a complete event, the first blank line is the one that ends it. */
  lemma CutAfterBlock(b: string, tail: string)
    requires IsBlock(b)
    ensures Blocks(b + "\n\n" + tail) == ([b] + Blocks(tail).0, Blocks(tail).1)
  {
    var buf := b + "\n\n" + tail;
    FirstBlankLineAfterBlock(b, tail);
    BlocksStep(buf, |b|);
    assert buf[..|b|] == b;
    assert buf[|b| + 2..] == tail;
  }

  lemma FirstBlankLineAfterBlock(b: string, tail: string)
    requires IsBlock(b)
    ensures IndexOfPair(b + "\n\n" + tail, '\n', '\n') == Some(|b|)
  {
    var buf := b + "\n\n" + tail;
    assert PairAt(buf, |b|, '\n', '\n');
    forall j | 0 <= j < |b| ensures !PairAt(buf, j, '\n', '\n') {
      if j + 1 < |b| {
        assert !PairAt(b, j, '\n', '\n');
        assert buf[j] == b[j] && buf[j + 1] == b[j + 1];
      } else {
        assert buf[j] == b[|b| - 1];
      }
    }
    IndexOfPairIs(buf, '\n', '\n', |b|);
  }

  /** One turn of the framing loop. */
  lemma BlocksStep(buf: string, i: nat)
    requires IndexOfPair(buf, '\n', '\n') == Some(i)
    ensures Blocks(buf) == ([buf[..i]] + Blocks(buf[i + 2..]).0, Blocks(buf[i + 2..]).1)
  {
  }

  /** A buffer that starts with complete events is cut at exactly those
      events, whatever follows. */
  lemma {:induction false} BlocksOfFramed(bs: seq<string>, z: string)
    requires forall i :: 0 <= i < |bs| ==> IsBlock(bs[i])
    ensures Blocks(Framed(bs) + z) == (bs + Blocks(z).0, Blocks(z).1)
    decreases |bs|
  {
    if bs == [] {
      assert Framed(bs) + z == z;
      assert bs + Blocks(z).0 == Blocks(z).0;
    } else {
      var b, rest := bs[0], bs[1..];
      assert bs == [b] + rest;
      BlocksOfFramed(rest, z);
      BlocksOfFramedCons(b, rest, z);
    }
  }

  lemma BlocksOfFramedCons(b: string, rest: seq<string>, z: string)
    requires IsBlock(b)
    requires Blocks(Framed(rest) + z) == (rest + Blocks(z).0, Blocks(z).1)
    ensures Blocks(Framed([b] + rest) + z) == ([b] + rest + Blocks(z).0, Blocks(z).1)
  {
    FramedCons(b, rest, z);
    CutAfterBlock(b, Framed(rest) + z);
    AppendAssoc([b], rest, Blocks(z).0);
  }

  /** Framing is unique: complete events followed by a remainder without a
      blank line are cut back into exactly those events and that remainder. */
  lemma BlocksUndoFramed(bs: seq<string>, rest: string)
    requires forall i :: 0 <= i < |bs| ==> IsBlock(bs[i])
    requires !ContainsPair(rest, '\n', '\n')
    ensures Blocks(Framed(bs) + rest) == (bs, rest)
  {
    BlocksOfFramed(bs, rest);
    IndexOfPairSpec(rest, '\n', '\n');
    assert Blocks(rest) == ([], rest);
    assert bs + [] == bs;
  }

  lemma {:induction false} FramedAppend(a: seq<string>, b: seq<string>)
    ensures Framed(a + b) == Framed(a) + Framed(b)
    decreases |a|
  {
    if a == [] {
      assert a + b == b;
    } else {
      assert (a + b)[1..] == a[1..] + b;
      FramedAppend(a[1..], b);
    }
  }

  lemma EventsOfAppend(a: seq<string>, b: seq<string>)
    ensures EventsOf(a + b) == EventsOf(a) + EventsOf(b)
  {
    ConcatMapAppend(BlockEvents, a, b);
  }

  lemma DoneInAppend(a: seq<string>, b: seq<string>)
    ensures DoneIn(a + b) <==> DoneIn(a) || DoneIn(b)
  {
    AnyOfAppend(BlockDone, a, b);
  }

  /** Without CR the replacement does nothing and a step only frames. */
  lemma FeedStepWithoutCr(buffer: string, chunk: string)
    requires '\r' !in buffer + chunk
    ensures FeedStep(buffer, chunk) == Blocks(buffer + chunk)
  {
    ReplaceCrlfNoCr(buffer + chunk);
  }

  /** Framing does not depend on where the chunks were split, as long as no
      CR is involved. */
  lemma FeedStepTwice(buffer: string, c1: string, c2: string)
    requires '\r' !in buffer + c1 + c2
    ensures FeedStep(FeedStep(buffer, c1).1, c2).1 == FeedStep(buffer, c1 + c2).1
    ensures FeedStep(buffer, c1).0 + FeedStep(FeedStep(buffer, c1).1, c2).0 == FeedStep(buffer, c1 + c2).0
  {
    var first := Blocks(buffer + c1);
    var bs, rest := first.0, first.1;
    assert '\r' !in buffer + c1 by {
      assert buffer + c1 + c2 == (buffer + c1) + c2;
    }
    FeedStepWithoutCr(buffer, c1);
    BlocksRebuild(buffer + c1);
    BlocksAreComplete(buffer + c1);
    assert buffer + (c1 + c2) == Framed(bs) + (rest + c2) by {
      AppendAssoc(buffer, c1, c2);
      AppendAssoc(Framed(bs), rest, c2);
    }
    assert '\r' !in buffer + (c1 + c2);
    assert '\r' !in rest + c2 by {
      assert '\r' !in Framed(bs) + (rest + c2);
    }
    FeedStepWithoutCr(buffer, c1 + c2);
    FeedStepWithoutCr(rest, c2);
    BlocksOfFramed(bs, rest + c2);
  }

  /** After a chunk the buffer holds no blank line, and no CRLF unless the
      text had a CR CR pair. */
  lemma FeedStepLeavesNoCrlf(buffer: string, chunk: string)
    requires !ContainsPair(buffer + chunk, '\r', '\r')
    ensures !ContainsPair(FeedStep(buffer, chunk).1, '\n', '\n')
    ensures !ContainsPair(FeedStep(buffer, chunk).1, '\r', '\n')
  {
    var t := ReplaceCrlf(buffer + chunk);
    ReplaceCrlfLeavesNoCrlf(buffer + chunk);
    BlocksRemainder(t);
    BlocksRebuild(t);
    NoPairInSuffix(Framed(Blocks(t).0), Blocks(t).1, '\r', '\n');
  }

  /** A CR CR LF in one chunk leaves a CRLF in the buffer. */
  lemma FeedStepCanKeepCrlf()
    ensures FeedStep("", "\r\r\n") == ([], "\r\n")
    ensures ContainsPair(FeedStep("", "\r\r\n").1, '\r', '\n')
  {
    ReplaceCrlfKeepsCrCrLf();
    assert "" + "\r\r\n" == "\r\r\n";
    assert PairAt("\r\n", 0, '\r', '\n');
    assert IndexOfPair("\r\n", '\n', '\n') == None;
  }

  /** What a `reader.read()` gives: a decoded chunk, the end of the body, a
      failure, or, before the read, a call of the close function. */
  datatype Input<E> = Chunk(text: string) | EndOfStream | ReadFailure(error: E) | CloseCalled

  /** How the read loop ends. `Pending` means the inputs ran out while the
      stream was still open. */
  datatype Outcome<E> = Pending | Completed | Aborted | Failed(error: E)

  /** The read loop as a function of the buffer, the abort flag and the
      inputs: the payloads passed to `onEvent` and how the loop ends. Once
      the controller is aborted the next read rejects with `AbortError`. */
  function Stream<E>(buffer: string, aborted: bool, inputs: seq<Input<E>>): (seq<string>, Outcome<E>)
    decreases |inputs|
  {
    if aborted then ([], Aborted)
    else if inputs == [] then ([], Pending)
    else match inputs[0]
      case EndOfStream => ([], Completed)
      case ReadFailure(e) => ([], Failed(e))
      case CloseCalled => ([], Aborted)
      case Chunk(t) =>
        var (bs, rest) := FeedStep(buffer, t);
        var more := Stream(rest, DoneIn(bs), inputs[1..]);
        (EventsOf(bs) + more.0, more.1)
  }

  /** The buffer when the read loop stops: what the last chunk read left
      over. */
  function StreamBuffer<E>(buffer: string, aborted: bool, inputs: seq<Input<E>>): string
    decreases |inputs|
  {
    if aborted || inputs == [] || !inputs[0].Chunk? then buffer
    else
      var (bs, rest) := FeedStep(buffer, inputs[0].text);
      StreamBuffer(rest, DoneIn(bs), inputs[1..])
  }

  /** The buffer the read loop leaves holds no complete event. */
  lemma {:induction false} StreamBufferHasNoBlankLine<E>(buffer: string, aborted: bool, inputs: seq<Input<E>>)
    requires !ContainsPair(buffer, '\n', '\n')
    ensures !ContainsPair(StreamBuffer(buffer, aborted, inputs), '\n', '\n')
    decreases |inputs|
  {
    if !aborted && inputs != [] && inputs[0].Chunk? {
      var (bs, rest) := FeedStep(buffer, inputs[0].text);
      BlocksSpec(ReplaceCrlf(buffer + inputs[0].text));
      StreamBufferHasNoBlankLine(rest, DoneIn(bs), inputs[1..]);
    }
  }

  /** Nothing is emitted once the stream is aborted. */
  lemma AbortedStreamIsSilent<E>(buffer: string, inputs: seq<Input<E>>)
    ensures Stream(buffer, true, inputs) == ([], Aborted)
  {
  }

  /** `[DONE]` is never passed to `onEvent`. */
  lemma LinesNeverForwardDone(lines: seq<string>)
    ensures DoneSentinel !in LinesEvents(lines)
  {
    forall i | 0 <= i < |lines| ensures DoneSentinel !in LineEvents(lines[i]) {
      LineItemSpec(lines[i]);
    }
    ConcatMapAvoids(LineEvents, lines, DoneSentinel);
  }

  lemma EventsNeverForwardDone(blocks: seq<string>)
    ensures DoneSentinel !in EventsOf(blocks)
  {
    forall i | 0 <= i < |blocks| ensures DoneSentinel !in BlockEvents(blocks[i]) {
      LinesNeverForwardDone(BlockLines(blocks[i]));
    }
    ConcatMapAvoids(BlockEvents, blocks, DoneSentinel);
  }

  lemma {:induction false} StreamNeverForwardsDone<E>(buffer: string, aborted: bool, inputs: seq<Input<E>>)
    ensures DoneSentinel !in Stream(buffer, aborted, inputs).0
    decreases |inputs|
  {
    if !aborted && inputs != [] && inputs[0].Chunk? {
      var (bs, rest) := FeedStep(buffer, inputs[0].text);
      EventsNeverForwardDone(bs);
      StreamNeverForwardsDone(rest, DoneIn(bs), inputs[1..]);
    }
  }

  /** Each chunk written with CRLF line endings. */
  function CrlfInput<E>(i: Input<E>): Input<E>
  {
    if i.Chunk? then Chunk(ReplaceLf(i.text)) else i
  }

  function CrlfInputs<E>(inputs: seq<Input<E>>): (r: seq<Input<E>>)
    ensures |r| == |inputs|
    ensures forall i :: 0 <= i < |r| ==> r[i] == CrlfInput(inputs[i])
  {
    seq(|inputs|, i requires 0 <= i < |inputs| => CrlfInput(inputs[i]))
  }

  predicate NoCrInput<E>(i: Input<E>)
  {
    i.Chunk? ==> '\r' !in i.text
  }

  predicate NoCrInputs<E>(inputs: seq<Input<E>>)
  {
    forall i :: 0 <= i < |inputs| ==> NoCrInput(inputs[i])
  }

  /** A chunk sent with CRLF line endings makes the same step as with LF,
      and the buffer stays free of CR. */
  lemma CrlfChunkSameStep(buffer: string, t: string)
    requires '\r' !in buffer && '\r' !in t
    ensures FeedStep(buffer, ReplaceLf(t)) == FeedStep(buffer, t)
    ensures '\r' !in FeedStep(buffer, t).1
  {
    assert buffer == [] || buffer[|buffer| - 1] != '\r';
    ReplaceCrlfAppend(buffer, ReplaceLf(t));
    ReplaceCrlfNoCr(buffer);
    ReplaceCrlfUndoesReplaceLf(t);
    ReplaceCrlfNoCr(buffer + t);
    BlocksRebuild(buffer + t);
    assert '\r' !in Framed(Blocks(buffer + t).0) + Blocks(buffer + t).1;
  }

  /** A peer that ends its lines with CRLF produces the same events, the same
      outcome and the same buffer contents as one that uses LF. */
  lemma {:induction false} CrlfTolerance<E>(buffer: string, aborted: bool, inputs: seq<Input<E>>)
    requires '\r' !in buffer
    requires forall i :: 0 <= i < |inputs| ==> NoCrInput(inputs[i])
    ensures Stream(buffer, aborted, CrlfInputs(inputs)) == Stream(buffer, aborted, inputs)
    decreases |inputs|
  {
    if !aborted && inputs != [] {
      var cr := CrlfInputs(inputs);
      assert cr[1..] == CrlfInputs(inputs[1..]);
      if inputs[0].Chunk? {
        var t := inputs[0].text;
        assert NoCrInput(inputs[0]);
        assert cr[0] == Chunk(ReplaceLf(t));
        CrlfChunkSameStep(buffer, t);
        var step := FeedStep(buffer, t);
        CrlfTolerance(step.1, DoneIn(step.0), inputs[1..]);
      } else {
        assert cr[0] == inputs[0];
      }
    }
  }

  /** A CR at the end of the buffer never completes a blank line: it stays
      in the remainder and the events are the same. */
  lemma {:induction false} BlocksCr(x: string)
    ensures Blocks(x + "\r") == (Blocks(x).0, Blocks(x).1 + "\r")
    decreases |x|
  {
    var y := x + "\r";
    IndexOfPairSpec(x, '\n', '\n');
    match IndexOfPair(x, '\n', '\n')
    case None =>
      assert y[|x|] == '\r';
      forall j | 0 <= j < |y| && PairAt(y, j, '\n', '\n') ensures false {
        assert PairAt(x, j, '\n', '\n');
      }
      IndexOfPairSpec(y, '\n', '\n');
      assert Blocks(y) == ([], y);
    case Some(i) =>
      assert PairAt(y, i, '\n', '\n');
      forall j | 0 <= j < i ensures !PairAt(y, j, '\n', '\n') {
        assert !PairAt(x, j, '\n', '\n');
      }
      IndexOfPairIs(y, '\n', '\n', i);
      BlocksStep(y, i);
      BlocksStep(x, i);
      assert y[..i] == x[..i];
      assert y[i + 2..] == x[i + 2..] + "\r";
      BlocksCr(x[i + 2..]);
  }

  /** The text the chunks deliver, one after the other. */
  function ChunkText<E>(inputs: seq<Input<E>>): string
    decreases |inputs|
  {
    if inputs == [] then []
    else (if inputs[0].Chunk? then inputs[0].text else []) + ChunkText(inputs[1..])
  }

  /** A chunk of a CRLF text written with LF. A CR at its end belongs to a
      pair whose LF opens a later chunk: the LF text has that LF there and
      nothing here. */
  function LfChunk(c: string): string
  {
    ReplaceCrlf(DropCr(c))
  }

  function LfInput<E>(i: Input<E>): Input<E>
  {
    if i.Chunk? then Chunk(LfChunk(i.text)) else i
  }

  function LfInputs<E>(inputs: seq<Input<E>>): (r: seq<Input<E>>)
    ensures |r| == |inputs|
    ensures forall i :: 0 <= i < |r| ==> r[i] == LfInput(inputs[i])
  {
    seq(|inputs|, i requires 0 <= i < |inputs| => LfInput(inputs[i]))
  }

  /** The CR still waiting for its LF after chunk `c`, given the one (`cr`)
      waiting before it. */
  function NextCr(cr: string, c: string): string
  {
    if c == [] then cr else if EndsInCr(c) then "\r" else ""
  }

  /** What a CRLF text says about one of its chunks: after a waiting CR the
      chunk opens with its LF, no CR but one at the end waits, and the rest
      of the text is again a CRLF text after the CR now waiting. */
  lemma CrlfChunkSplit(cr: string, c: string, t: string)
    requires cr == "" || cr == "\r"
    requires CrOnlyInCrlf(cr + c + t)
    ensures cr == "\r" && c != [] ==> c[0] == '\n'
    ensures CrOnlyInCrlf(DropCr(c))
    ensures CrOnlyInCrlf(NextCr(cr, c) + t)
  {
    var u := cr + c + t;
    if cr == "\r" && c != [] {
      assert u[0] == '\r' && u[1] == c[0];
    }
    var d := DropCr(c);
    forall i | 0 <= i < |d| && d[i] == '\r' ensures i + 1 < |d| && d[i + 1] == '\n' {
      assert c[i] == '\r';
      assert u[|cr| + i] == '\r';
      assert i + 1 < |c|;
      assert c[i + 1] == u[|cr| + i + 1];
    }
    if c == [] {
      assert u == cr + t;
      CrOnlyInCrlfSuffix("", cr + t);
    } else if EndsInCr(c) {
      assert u == (cr + c[..|c| - 1]) + ("\r" + t);
      CrOnlyInCrlfSuffix(cr + c[..|c| - 1], "\r" + t);
    } else {
      assert u == (cr + c) + t;
      CrOnlyInCrlfSuffix(cr + c, t);
    }
  }

  /** The replacement on a chunk after a waiting CR: the LF chunk, and the
      CR now waiting. */
  lemma CrlfChunkReplace(cr: string, c: string)
    requires cr == "" || cr == "\r"
    requires cr == "\r" && c != [] ==> c[0] == '\n'
    requires CrOnlyInCrlf(DropCr(c))
    ensures ReplaceCrlf(cr + c) == LfChunk(c) + NextCr(cr, c)
    ensures '\r' !in LfChunk(c)
  {
    ReplaceCrlfDropCr(c);
    if cr == "" {
      assert cr + c == c;
    } else if c == [] {
      assert cr + c == "\r";
      assert "\r"[1..] == "";
    } else {
      ReplaceCrlfAfterWaitingCr(c);
    }
  }

  /** One chunk of a CRLF text, fed after the CR still waiting, makes the
      same events as its LF chunk, and the remainder differs by that CR. */
  lemma CrlfSplitStep(buffer: string, cr: string, c: string)
    requires '\r' !in buffer
    requires cr == "" || cr == "\r"
    requires cr == "\r" && c != [] ==> c[0] == '\n'
    requires CrOnlyInCrlf(DropCr(c))
    ensures FeedStep(buffer + cr, c) == (FeedStep(buffer, LfChunk(c)).0, FeedStep(buffer, LfChunk(c)).1 + NextCr(cr, c))
    ensures '\r' !in LfChunk(c)
    ensures '\r' !in FeedStep(buffer, LfChunk(c)).1
  {
    CrlfChunkReplace(cr, c);
    var lf := LfChunk(c);
    var x := buffer + lf;
    assert '\r' !in x;
    ReplaceCrlfNoCr(x);
    ReplaceCrlfNoCr(buffer);
    assert buffer == [] || buffer[|buffer| - 1] != '\r';
    ReplaceCrlfAppend(buffer, cr + c);
    AppendAssoc(buffer, cr, c);
    AppendAssoc(buffer, lf, NextCr(cr, c));
    var b := Blocks(x);
    if NextCr(cr, c) == "\r" {
      BlocksCr(x);
    } else {
      assert x + NextCr(cr, c) == x;
      assert b.1 + NextCr(cr, c) == b.1;
      assert b == (b.0, b.1);
    }
    BlocksRebuild(x);
    assert '\r' !in Framed(Blocks(x).0) + Blocks(x).1;
  }

  /** Replacing CRLF in a CRLF text goes chunk by chunk: the LF chunk, then
      the rest after the CR now waiting. */
  lemma CrlfTextStep(cr: string, c: string, t: string)
    requires cr == "" || cr == "\r"
    requires CrOnlyInCrlf(cr + c + t)
    ensures ReplaceCrlf(cr + c + t) == LfChunk(c) + ReplaceCrlf(NextCr(cr, c) + t)
  {
    CrlfChunkSplit(cr, c, t);
    CrlfChunkReplace(cr, c);
    var q := cr + c;
    assert EndsInCr(q) <==> NextCr(cr, c) == "\r" by {
      if c != [] {
        assert q[|q| - 1] == c[|c| - 1];
      }
    }
    ReplaceCrlfJoin(q, LfChunk(c), NextCr(cr, c), t);
  }

  /** The LF chunks deliver the CRLF text with every CRLF replaced by LF. */
  lemma {:induction false} LfInputsText<E>(cr: string, inputs: seq<Input<E>>)
    requires cr == "" || cr == "\r"
    requires CrOnlyInCrlf(cr + ChunkText(inputs))
    ensures ReplaceCrlf(cr + ChunkText(inputs)) == ChunkText(LfInputs(inputs))
    decreases |inputs|
  {
    if inputs == [] {
      assert cr + ChunkText(inputs) == cr;
    } else {
      var lf := LfInputs(inputs);
      assert lf[1..] == LfInputs(inputs[1..]);
      var t := ChunkText(inputs[1..]);
      if inputs[0].Chunk? {
        var c := inputs[0].text;
        assert cr + ChunkText(inputs) == cr + c + t;
        assert lf[0] == Chunk(LfChunk(c));
        CrlfTextStep(cr, c, t);
        CrlfChunkSplit(cr, c, t);
        LfInputsText(NextCr(cr, c), inputs[1..]);
      } else {
        assert lf[0] == inputs[0];
        assert ChunkText(inputs) == [] + t == t;
        LfInputsText(cr, inputs[1..]);
      }
    }
  }

  /** The first input of a CRLF text is a chunk: one step of the read loop
      on it and on its LF chunk. */
  lemma CrlfInputStep<E>(buffer: string, cr: string, inputs: seq<Input<E>>)
    requires '\r' !in buffer
    requires cr == "" || cr == "\r"
    requires CrOnlyInCrlf(cr + ChunkText(inputs))
    requires inputs != [] && inputs[0].Chunk?
    ensures var c := inputs[0].text;
      && FeedStep(buffer + cr, c) == (FeedStep(buffer, LfChunk(c)).0, FeedStep(buffer, LfChunk(c)).1 + NextCr(cr, c))
      && '\r' !in FeedStep(buffer, LfChunk(c)).1
      && (NextCr(cr, c) == "" || NextCr(cr, c) == "\r")
      && CrOnlyInCrlf(NextCr(cr, c) + ChunkText(inputs[1..]))
  {
    var c := inputs[0].text;
    var t := ChunkText(inputs[1..]);
    assert cr + ChunkText(inputs) == cr + c + t;
    CrlfChunkSplit(cr, c, t);
    CrlfSplitStep(buffer, cr, c);
  }

  lemma LfInputsCons<E>(inputs: seq<Input<E>>)
    requires inputs != []
    ensures LfInputs(inputs) == [LfInput(inputs[0])] + LfInputs(inputs[1..])
  {
    assert LfInputs(inputs)[1..] == LfInputs(inputs[1..]);
  }

  /** The read loop on chunks of a CRLF text, with a CR still waiting,
      against the LF chunks with the CR not yet there. */
  lemma {:induction false} CrlfSplitTolerance<E>(buffer: string, cr: string, aborted: bool, inputs: seq<Input<E>>)
    requires '\r' !in buffer
    requires cr == "" || cr == "\r"
    requires CrOnlyInCrlf(cr + ChunkText(inputs))
    ensures Stream(buffer + cr, aborted, inputs) == Stream(buffer, aborted, LfInputs(inputs))
    decreases |inputs|
  {
    if !aborted && inputs != [] && inputs[0].Chunk? {
      CrlfInputStep(buffer, cr, inputs);
      LfInputsCons(inputs);
      var c := inputs[0].text;
      var step := FeedStep(buffer, LfChunk(c));
      CrlfSplitTolerance(step.1, NextCr(cr, c), DoneIn(step.0), inputs[1..]);
    } else if inputs != [] && !inputs[0].Chunk? {
      assert LfInputs(inputs)[0] == inputs[0];
    }
  }

  /** No LF chunk holds a CR. */
  lemma {:induction false} LfInputsHaveNoCr<E>(cr: string, inputs: seq<Input<E>>)
    requires cr == "" || cr == "\r"
    requires CrOnlyInCrlf(cr + ChunkText(inputs))
    ensures NoCrInputs(LfInputs(inputs))
    decreases |inputs|
  {
    if inputs != [] {
      var lf := LfInputs(inputs);
      assert lf[1..] == LfInputs(inputs[1..]);
      var t := ChunkText(inputs[1..]);
      if inputs[0].Chunk? {
        var c := inputs[0].text;
        assert cr + ChunkText(inputs) == cr + c + t;
        CrlfChunkSplit(cr, c, t);
        CrlfChunkReplace(cr, c);
        LfInputsHaveNoCr(NextCr(cr, c), inputs[1..]);
        assert lf[0] == Chunk(LfChunk(c));
      } else {
        assert ChunkText(inputs) == t;
        LfInputsHaveNoCr(cr, inputs[1..]);
        assert lf[0] == inputs[0];
      }
    }
  }

  /** A peer that ends its lines with CRLF produces the same events and the
      same outcome as one that sends the same text with LF, however the
      text is cut into chunks, even between the CR and the LF of a pair
      (the LF chunks are cut at the same places). */
  lemma CrlfToleranceAnySplit<E>(inputs: seq<Input<E>>)
    requires CrOnlyInCrlf(ChunkText(inputs))
    ensures Stream("", false, inputs) == Stream("", false, LfInputs(inputs))
    ensures NoCrInputs(LfInputs(inputs))
    ensures ChunkText(LfInputs(inputs)) == ReplaceCrlf(ChunkText(inputs))
  {
    var none: string := "";
    assert none + ChunkText(inputs) == ChunkText(inputs);
    CrlfSplitTolerance(none, none, false, inputs);
    LfInputsHaveNoCr(none, inputs);
    LfInputsText(none, inputs);
    assert none + none == none;
  }

  lemma AnyOfSingle(p: string -> bool, x: string)
    ensures AnyOf(p, [x]) <==> p(x)
  {
    var one: seq<string> := [x];
    if p(x) {
      assert one[0] == x;
    }
  }

  /** An event of a single line is decoded as that line. */
  lemma OneLineBlock(block: string)
    requires '\n' !in block
    ensures IsBlock(block)
    ensures BlockEvents(block) == LineEvents(block)
    ensures BlockDone(block) <==> IsDoneLine(block)
  {
    assert !ContainsPair(block, '\n', '\n');
    if block != [] {
      assert block[|block| - 1] in block;
    }
    TrimKeepsOut(block, '\n');
    SplitWithoutSeparator(Trim(block), '\n');
    ConcatMapSingle(LineEvents, Trim(block));
    AnyOfSingle(IsDoneLine, Trim(block));
    TrimIdempotent(block);
  }

  lemma FramedSingle(b: string)
    ensures Framed([b]) == b + "\n\n"
  {
    FramedCons(b, [], []);
    assert [b] + [] == [b];
  }

  /** One step of the read loop on a chunk. */
  lemma StreamChunkStep<E>(buffer: string, t: string, more: seq<Input<E>>)
    ensures Stream(buffer, false, [Chunk(t)] + more) ==
      (EventsOf(FeedStep(buffer, t).0) + Stream(FeedStep(buffer, t).1, DoneIn(FeedStep(buffer, t).0), more).0,
       Stream(FeedStep(buffer, t).1, DoneIn(FeedStep(buffer, t).0), more).1)
  {
    assert ([Chunk(t)] + more)[1..] == more;
  }

  /** The read loop at input `i` when that input is a chunk: its events,
      then the loop from the next input with the rest of the buffer. */
  lemma StreamAtChunk<E>(buffer: string, inputs: seq<Input<E>>, i: nat)
    requires i < |inputs| && inputs[i].Chunk?
    ensures var step := FeedStep(buffer, inputs[i].text);
      && Stream(buffer, false, inputs[i..]).0 == EventsOf(step.0) + Stream(step.1, DoneIn(step.0), inputs[i + 1..]).0
      && Stream(buffer, false, inputs[i..]).1 == Stream(step.1, DoneIn(step.0), inputs[i + 1..]).1
      && StreamBuffer(buffer, false, inputs[i..]) == StreamBuffer(step.1, DoneIn(step.0), inputs[i + 1..])
  {
    assert inputs[i..][1..] == inputs[i + 1..];
  }

  /** The line a sender writes for one payload. */
  function EventLine(p: string): string
  {
    DataPrefix + " " + p
  }

  /** The text a sender writes for a list of payloads, one event each. */
  function Encode(payloads: seq<string>): string
  {
    Framed(EventLines(payloads))
  }

  function EventLines(payloads: seq<string>): (r: seq<string>)
    ensures |r| == |payloads|
    ensures forall i :: 0 <= i < |r| ==> r[i] == EventLine(payloads[i])
  {
    seq(|payloads|, i requires 0 <= i < |payloads| => EventLine(payloads[i]))
  }

  /** A payload that survives the trip: a single line, without trailing
      whitespace and other than `[DONE]`. */
  predicate Sendable(p: string)
  {
    '\n' !in p && '\r' !in p && (p == [] || !IsWhitespace(p[|p| - 1])) && p != DoneSentinel
  }

  /** The line of a sendable payload carries exactly that payload. */
  lemma DataLine(p: string)
    requires Sendable(p)
    ensures '\n' !in EventLine(p) && '\r' !in EventLine(p)
    ensures LineItem(EventLine(p)) == Data(p)
  {
    var line := EventLine(p);
    assert forall k :: 6 <= k < |line| ==> line[k] == p[k - 6];
    assert forall k :: 0 <= k < |line| ==> line[k] != '\n' && line[k] != '\r';
    if p == [] {
      assert line == "data: ";
      assert TrimStart(line) == line;
      assert line[..|line| - 1] == "data:";
      assert TrimEnd("data:") == "data:";
      assert Trim(line) == "data:";
    } else {
      assert line[|line| - 1] == p[|p| - 1];
      TrimOfTrimmed(line);
      assert line[5..][1..] == p;
    }
  }

  /** One `data:` line carries a sendable payload through unchanged. */
  lemma EventOfEncoded(p: string)
    requires Sendable(p)
    ensures IsBlock(EventLine(p))
    ensures BlockEvents(EventLine(p)) == [p]
    ensures !BlockDone(EventLine(p))
  {
    DataLine(p);
    OneLineBlock(EventLine(p));
  }

  lemma EventsOfEncoded(payloads: seq<string>)
    requires forall i :: 0 <= i < |payloads| ==> Sendable(payloads[i])
    ensures Blocks(Encode(payloads)) == (EventLines(payloads), [])
    ensures EventsOf(Blocks(Encode(payloads)).0) == payloads
    ensures !DoneIn(Blocks(Encode(payloads)).0)
  {
    var bs := EventLines(payloads);
    forall i | 0 <= i < |bs| ensures IsBlock(bs[i]) && !BlockDone(bs[i]) {
      EventOfEncoded(payloads[i]);
    }
    assert !ContainsPair("", '\n', '\n');
    BlocksUndoFramed(bs, []);
    assert Framed(bs) + [] == Encode(payloads);
    forall i | 0 <= i < |bs| ensures BlockEvents(bs[i]) == [payloads[i]] {
      EventOfEncoded(payloads[i]);
    }
    ConcatMapSingletons(BlockEvents, bs, payloads);
  }

  /** Round trip: a stream of sendable payloads is delivered to `onEvent`
      payload by payload, in order, with nothing left over. */
  lemma EncodedStreamRoundTrip<E>(payloads: seq<string>)
    requires forall i :: 0 <= i < |payloads| ==> Sendable(payloads[i])
    ensures Stream<E>("", false, [Chunk(Encode(payloads)), EndOfStream]) == (payloads, Completed)
  {
    var text := Encode(payloads);
    var step := FeedStep("", text);
    assert step == (EventLines(payloads), []) by {
      EventsOfEncoded(payloads);
      EncodedHasNoCr(payloads);
      assert "" + text == text;
      FeedStepWithoutCr("", text);
    }
    assert EventsOf(step.0) == payloads && !DoneIn(step.0) by {
      EventsOfEncoded(payloads);
    }
    var end: seq<Input<E>> := [EndOfStream];
    StreamChunkStep("", text, end);
    assert Stream<E>([], false, end) == ([], Completed);
    assert [Chunk(text)] + end == [Chunk(text), EndOfStream];
    assert payloads + [] == payloads;
  }

  lemma EncodedHasNoCr(payloads: seq<string>)
    requires forall i :: 0 <= i < |payloads| ==> Sendable(payloads[i])
    ensures '\r' !in Encode(payloads)
  {
    var bs := EventLines(payloads);
    forall i | 0 <= i < |bs| ensures '\r' !in bs[i] {
      DataLine(payloads[i]);
    }
    FramedHasNoCr(bs);
  }

  lemma {:induction false} FramedHasNoCr(bs: seq<string>)
    requires forall i :: 0 <= i < |bs| ==> '\r' !in bs[i]
    ensures '\r' !in Framed(bs)
    decreases |bs|
  {
    if bs != [] {
      FramedHasNoCr(bs[1..]);
      assert '\r' !in bs[0];
    }
  }

  /** The end mark. */
  lemma DoneLine()
    ensures '\n' !in "data: [DONE]"
    ensures IsDoneLine("data: [DONE]")
  {
    var line := "data: [DONE]";
    TrimOfTrimmed(line);
    assert line[..5] == DataPrefix;
    assert line[5..][1..] == DoneSentinel;
  }

  /** Once a chunk completes an event with a `[DONE]` line, the events of
      that chunk are forwarded and the next read ends the loop as aborted,
      without `onDone`, whatever follows. */
  lemma DoneAbortsAfterChunk<E>(buffer: string, t: string, later: seq<Input<E>>)
    requires DoneIn(FeedStep(buffer, t).0)
    ensures Stream(buffer, false, [Chunk(t)] + later) == (EventsOf(FeedStep(buffer, t).0), Aborted)
  {
    StreamChunkStep(buffer, t, later);
    assert EventsOf(FeedStep(buffer, t).0) + [] == EventsOf(FeedStep(buffer, t).0);
  }

  /** `[DONE]` only aborts: the events that are complete in the same chunk,
      after the end mark, are still forwarded. */
  lemma EventsAfterDoneInSameChunk<E>(payloads: seq<string>, later: seq<Input<E>>)
    requires forall i :: 0 <= i < |payloads| ==> Sendable(payloads[i])
    ensures Stream("", false, [Chunk("data: [DONE]\n\n" + Encode(payloads))] + later) == (payloads, Aborted)
  {
    var text := "data: [DONE]\n\n" + Encode(payloads);
    var all := ["data: [DONE]"] + EventLines(payloads);
    DoneThenEventsText(payloads);
    assert "" + text == text;
    FeedStepWithoutCr("", text);
    DoneThenEventsBlocks(payloads);
    DoneThenEventsDecoded(payloads);
    DoneAbortsAfterChunk("", text, later);
  }

  lemma DoneThenEventsText(payloads: seq<string>)
    requires forall i :: 0 <= i < |payloads| ==> Sendable(payloads[i])
    ensures "data: [DONE]\n\n" + Encode(payloads) == Framed(["data: [DONE]"] + EventLines(payloads))
    ensures '\r' !in "data: [DONE]\n\n" + Encode(payloads)
  {
    FramedSingle("data: [DONE]");
    FramedAppend(["data: [DONE]"], EventLines(payloads));
    EncodedHasNoCr(payloads);
  }

  lemma EventLinesAreBlocks(payloads: seq<string>)
    requires forall i :: 0 <= i < |payloads| ==> Sendable(payloads[i])
    ensures forall i :: 0 <= i < |EventLines(payloads)| ==> IsBlock(EventLines(payloads)[i])
  {
    forall i | 0 <= i < |payloads| ensures IsBlock(EventLines(payloads)[i]) {
      EventOfEncoded(payloads[i]);
    }
  }

  /** One line without LF framed before encoded events cuts back into that
      line and the events, with nothing left over. */
  lemma LineThenEventsBlocks(line: string, payloads: seq<string>)
    requires '\n' !in line
    requires forall i :: 0 <= i < |payloads| ==> Sendable(payloads[i])
    ensures Blocks(Framed([line] + EventLines(payloads))) == ([line] + EventLines(payloads), [])
  {
    var bs := EventLines(payloads);
    var all := [line] + bs;
    OneLineBlock(line);
    EventLinesAreBlocks(payloads);
    assert forall i :: 0 < i < |all| ==> all[i] == bs[i - 1];
    assert !ContainsPair([], '\n', '\n');
    BlocksUndoFramed(all, []);
    assert Framed(all) + [] == Framed(all);
  }

  lemma DoneThenEventsBlocks(payloads: seq<string>)
    requires forall i :: 0 <= i < |payloads| ==> Sendable(payloads[i])
    ensures Blocks(Framed(["data: [DONE]"] + EventLines(payloads))) == (["data: [DONE]"] + EventLines(payloads), "")
  {
    DoneLine();
    LineThenEventsBlocks("data: [DONE]", payloads);
  }

  lemma DoneThenEventsDecoded(payloads: seq<string>)
    requires forall i :: 0 <= i < |payloads| ==> Sendable(payloads[i])
    ensures EventsOf(["data: [DONE]"] + EventLines(payloads)) == payloads
    ensures DoneIn(["data: [DONE]"] + EventLines(payloads))
  {
    var done := "data: [DONE]";
    DoneLine();
    OneLineBlock(done);
    EventsOfEncoded(payloads);
    EventsOfAppend([done], EventLines(payloads));
    ConcatMapSingle(BlockEvents, done);
    DoneInAppend([done], EventLines(payloads));
    AnyOfSingle(BlockDone, done);
  }

  /** `[DONE]` aborts the stream: nothing is emitted for it and the next
      read ends the loop without `onDone`. */
  lemma DoneEndsStream<E>(later: seq<Input<E>>)
    ensures Stream("", false, [Chunk("data: [DONE]\n\n")] + later) == ([], Aborted)
  {
    EventsAfterDoneInSameChunk([], later);
    assert Encode([]) == [];
    assert "data: [DONE]\n\n" + Encode([]) == "data: [DONE]\n\n";
  }

  /** One more line adds its event, or marks the end. */
  lemma LinesSnoc(lines: seq<string>, j: nat)
    requires j < |lines|
    ensures LinesEvents(lines[..j + 1]) == LinesEvents(lines[..j]) + LineEvents(lines[j])
    ensures LinesDone(lines[..j + 1]) == (LinesDone(lines[..j]) || IsDoneLine(lines[j]))
  {
    assert lines[..j + 1] == lines[..j] + [lines[j]];
    ConcatMapSnoc(LineEvents, lines[..j], lines[j]);
    AnyOfSnoc(IsDoneLine, lines[..j], lines[j]);
  }

  /** The handling of one complete event: its trimmed text is split into
      lines, each `data:` payload is passed to `onEvent` in order, and a
      `[DONE]` line is noted. */
  method DecodeBlock(block: string) returns (events: seq<string>, done: bool)
    ensures events == BlockEvents(block)
    ensures done == BlockDone(block)
  {
    var lines := Split(Trim(block), '\n');
    events := [];
    done := false;
    for j := 0 to |lines|
      invariant events == LinesEvents(lines[..j])
      invariant done == LinesDone(lines[..j])
    {
      var item := LineItem(lines[j]);
      assert LineEvents(lines[j]) == if item.Data? then [item.payload] else [];
      assert IsDoneLine(lines[j]) == (item == DoneMark);
      LinesSnoc(lines, j);
      if item == DoneMark {
        done := true;
      } else if item.Data? {
        events := events + [item.payload];
      }
    }
    assert lines[..|lines|] == lines;
  }

  /** The decoder's state: the undecoded text and whether the controller
      has been aborted. */
  class SseReader {
    var buffer: string
    var aborted: bool

    constructor ()
      ensures buffer == [] && !aborted
    {
      buffer := [];
      aborted := false;
    }

    /** One successful read: appends the chunk, replaces CRLF, and cuts off
        and decodes every complete event. Returns the payloads passed to
        `onEvent`, in order; a `[DONE]` line aborts the controller. */
    method Feed(chunk: string) returns (events: seq<string>)
      modifies this
      ensures buffer == old(FeedStep(buffer, chunk)).1
      ensures events == EventsOf(old(FeedStep(buffer, chunk)).0)
      ensures aborted == (old(aborted) || DoneIn(old(FeedStep(buffer, chunk)).0))
      ensures !ContainsPair(buffer, '\n', '\n')
    {
      buffer := buffer + chunk;
      buffer := ReplaceCrlf(buffer);
      ghost var start := buffer;
      ghost var seen: seq<string> := [];
      events := [];
      var sawDone := false;
      assert seen + Blocks(buffer).0 == Blocks(buffer).0;
      while IndexOfPair(buffer, '\n', '\n').Some?
        invariant Blocks(start) == (seen + Blocks(buffer).0, Blocks(buffer).1)
        invariant events == EventsOf(seen)
        invariant sawDone == DoneIn(seen)
        invariant aborted == old(aborted)
        decreases |buffer|
      {
        var idx := IndexOfPair(buffer, '\n', '\n').value;
        var block := buffer[..idx];
        BlocksStep(buffer, idx);
        AppendAssoc(seen, [block], Blocks(buffer[idx + 2..]).0);
        buffer := buffer[idx + 2..];
        var blockEvents, blockDone := DecodeBlock(block);
        ConcatMapSnoc(BlockEvents, seen, block);
        AnyOfSnoc(BlockDone, seen, block);
        events := events + blockEvents;
        sawDone := sawDone || blockDone;
        seen := seen + [block];
      }
      IndexOfPairSpec(buffer, '\n', '\n');
      assert Blocks(buffer) == ([], buffer);
      assert seen + [] == seen;
      aborted := aborted || sawDone;
    }

    /** The close function returned by `sse`: aborts the controller. */
    method Close()
      modifies this
      ensures aborted && buffer == old(buffer)
    {
      aborted := true;
    }

    /** The read loop of the detached task, run over a sequence of inputs.
        Stops when the controller is aborted (the read rejects with
        `AbortError`), at the end of the body, on a failed read, or when the
        inputs run out. */
    method ReadLoop<E>(inputs: seq<Input<E>>) returns (emitted: seq<string>, outcome: Outcome<E>)
      modifies this
      ensures (emitted, outcome) == old(Stream(buffer, aborted, inputs))
      ensures buffer == old(StreamBuffer(buffer, aborted, inputs))
      ensures aborted <==> outcome.Aborted?
    {
      emitted := [];
      var i := 0;
      while true
        invariant 0 <= i <= |inputs|
        invariant old(Stream(buffer, aborted, inputs)).0 == emitted + Stream(buffer, aborted, inputs[i..]).0
        invariant old(Stream(buffer, aborted, inputs)).1 == Stream(buffer, aborted, inputs[i..]).1
        invariant old(StreamBuffer(buffer, aborted, inputs)) == StreamBuffer(buffer, aborted, inputs[i..])
        decreases |inputs| - i
      {
        if aborted {
          outcome := Aborted;
          assert emitted + [] == emitted;
          return;
        }
        if i == |inputs| {
          outcome := Pending;
          assert emitted + [] == emitted;
          return;
        }
        var input := inputs[i];
        match input {
          case EndOfStream =>
            outcome := Completed;
            assert emitted + [] == emitted;
            return;
          case ReadFailure(e) =>
            outcome := Failed(e);
            assert emitted + [] == emitted;
            return;
          case CloseCalled =>
            Close();
            assert inputs[i..][1..] == inputs[i + 1..];
            i := i + 1;
          case Chunk(t) =>
            StreamAtChunk(buffer, inputs, i);
            var events := Feed(t);
            emitted := emitted + events;
            i := i + 1;
        }
      }
    }
  }
}
