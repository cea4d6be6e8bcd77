/**
 The length-prefixed stream of src/transports/tcp.rs: the writer's frames, and the reader
 loop that puts a frame together from however many pieces the socket hands it.
 */
module Tcp {
  import opened Wrappers
  import opened Bytes
  import opened Wire

  // ---------------------------------------------------------------- writing

  function Frame(body: seq<byte>): seq<byte>
  {
    ToBe(|body|, 4) + body
  }

  function Frames(bodies: seq<seq<byte>>): seq<byte>
  {
    if bodies == [] then [] else Frame(bodies[0]) + Frames(bodies[1..])
  }

  // The bodies the writer task sends: it stops after the first `Close`.
  function Written(ms: seq<EndpointMessage>): seq<seq<byte>>
  {
    if ms == [] then []
    else [Encode(ms[0])] + if ms[0].Close? then [] else Written(ms[1..])
  }

  // ---------------------------------------------------------------- reading

  // How the reader loop ends: it saw the end of the stream or an error between two
  // frames, or it spins, because a read at the end of the stream inside a body returns 0
  // for ever.
  datatype Ending = Closed | Spinning

  datatype Parsed = Parsed(out: seq<EndpointMessage>, ending: Ending)

  function Min(a: nat, b: nat): nat
  {
    if a < b then a else b
  }

  function Zeros(k: nat): seq<byte>
  {
    seq(k, _ => 0)
  }

  // The length buffer, zero before, after a read that put `head` into it.
  function LengthOf(head: seq<byte>): nat
  {
    FromBe((head + Zeros(4))[..4])
  }

  // The reader only needs to know that lengths and bodies are decoded, not how.
  datatype Format = Format(length: seq<byte> -> nat, decode: seq<byte> -> Result<EndpointMessage>)

  // The format of the program, for any decoder of bodies.
  ghost predicate BigEndian(f: Format)
  {
    forall head :: f.length(head) == LengthOf(head)
  }

  function Emit(f: Format, body: seq<byte>): seq<EndpointMessage>
  {
    var m := f.decode(body);
    if m.Ok? then [m.value] else []
  }

  // When the bytes run out inside a body: a read that fails leaves the inner loop, and the
  // next read closes; the plain end of the stream reads 0 bytes again and again.
  function CutOff(failed: bool): Parsed
  {
    if failed then Parsed([Close], Closed) else Parsed([], Spinning)
  }

  // What a stream means, with no mention of pieces. After its last byte a read fails, or
  // else returns 0.
  function Parse(f: Format, stream: seq<byte>, failed: bool): Parsed
    decreases |stream|
  {
    if stream == [] then Parsed([Close], Closed)
    else
      var size := Min(4, |stream|);
      var len, rest := f.length(stream[..size]), stream[size..];
      if |rest| < len then CutOff(failed)
      else Onto(Emit(f, rest[..len]), Parse(f, rest[len..], failed))
  }

  // The same ending, with `acc` emitted before.
  function Onto(acc: seq<EndpointMessage>, p: Parsed): Parsed
  {
    Parsed(acc + p.out, p.ending)
  }

  lemma OntoNothing(p: Parsed)
    ensures Onto([], p) == p
  {
  }

  lemma OntoTwice(a: seq<EndpointMessage>, b: seq<EndpointMessage>, p: Parsed)
    ensures Onto(a, Onto(b, p)) == Onto(a + b, p)
  {
    assert a + (b + p.out) == (a + b) + p.out;
  }

  // How many bytes a read of at most `most` returns when `n` have come in.
  function Clip(n: nat, most: nat): nat
    requires 1 <= most
  {
    if n < 1 then 1 else Min(n, most)
  }

  // How many bytes the read of a length prefix at `pos` returns.
  function HeadSize(cut: nat -> nat, stream: seq<byte>, pos: nat): (n: nat)
    requires pos < |stream|
    ensures 1 <= n <= 4 && pos + n <= |stream|
  {
    Clip(cut(pos), Min(4, |stream| - pos))
  }

  // Where the body of the frame at `pos` lies when its prefix is read as `cut` says, if the
  // stream has that many bytes: the pieces of a body do not matter, those of a prefix do.
  datatype Span = Span(start: nat, end: nat) | Beyond

  function SpanAt(f: Format, stream: seq<byte>, cut: nat -> nat, pos: nat): (r: Span)
    requires pos < |stream|
    ensures r.Span? ==> pos < r.start <= r.end <= |stream|
  {
    var start := pos + HeadSize(cut, stream, pos);
    var end := start + f.length(stream[pos..start]);
    if end <= |stream| then Span(start, end) else Beyond
  }

  // One round of the reader: what it emits, and where it goes on or how it ends.
  datatype Round = On(out: seq<EndpointMessage>, next: nat) | Stop(end: Parsed)

  function RoundAt(f: Format, stream: seq<byte>, failed: bool, cut: nat -> nat, pos: nat): (r: Round)
    requires pos <= |stream|
    ensures r.On? ==> pos < r.next <= |stream|
  {
    if pos == |stream| then Stop(Parsed([Close], Closed))
    else
      match SpanAt(f, stream, cut, pos)
      case Beyond => Stop(CutOff(failed))
      case Span(start, end) => On(Emit(f, stream[start..end]), end)
  }

  // What the reader makes of the stream from `pos` on.
  function Follow(f: Format, stream: seq<byte>, failed: bool, cut: nat -> nat, pos: nat): Parsed
    requires pos <= |stream|
    decreases |stream| - pos
  {
    match RoundAt(f, stream, failed, cut, pos)
    case Stop(p) => p
    case On(out, next) => Onto(out, Follow(f, stream, failed, cut, next))
  }

  // The reader task. `cut` decides, for every position, how much a read there returns:
  // at least one byte, and no more than the buffer or the stream still has.
  method Read(f: Format, stream: seq<byte>, failed: bool, cut: nat -> nat) returns (out: seq<EndpointMessage>, ending: Ending)
    ensures Parsed(out, ending) == Follow(f, stream, failed, cut, 0)
  {
    out := [];
    var pos := 0;
    while true
      invariant 0 <= pos <= |stream|
      invariant Follow(f, stream, failed, cut, 0) == Onto(out, Follow(f, stream, failed, cut, pos))
      decreases |stream| - pos
    {
      var r := ReadFrame(f, stream, failed, cut, pos);
      match r
      case Stop(end) =>
        return out + end.out, end.ending;
      case On(more, next) =>
        OntoTwice(out, more, Follow(f, stream, failed, cut, next));
        out, pos := out + more, next;
    }
  }

  method ReadFrame(f: Format, stream: seq<byte>, failed: bool, cut: nat -> nat, pos: nat) returns (r: Round)
    requires pos <= |stream|
    ensures r == RoundAt(f, stream, failed, cut, pos)
  {
    if pos == |stream| {
      return Stop(Parsed([Close], Closed));
    }
    var start := pos + HeadSize(cut, stream, pos);
    var len := f.length(stream[pos..start]);
    var body, ok := ReadBody(stream, start, len, cut);
    if ok {
      var out := EmitBody(f, body);
      r := On(out, start + len);
    } else if failed {
      r := Stop(Parsed([Close], Closed));
    } else {
      r := Stop(Parsed([], Spinning));
    }
  }

  // A body that decodes is sent on; any other is dropped.
  method EmitBody(f: Format, body: seq<byte>) returns (out: seq<EndpointMessage>)
    ensures out == Emit(f, body)
  {
    var m := f.decode(body);
    out := if m.Ok? then [m.value] else [];
  }

  // The inner loop: fills a buffer of `len` bytes piece by piece.
  method ReadBody(stream: seq<byte>, start: nat, len: nat, cut: nat -> nat) returns (body: seq<byte>, ok: bool)
    requires start <= |stream|
    ensures ok <==> start + len <= |stream|
    ensures ok ==> body == stream[start..start + len]
  {
    body := seq(len, _ => 0);
    var received := 0;
    while received != len
      invariant 0 <= received <= len == |body| && start + received <= |stream|
      invariant body[..received] == stream[start..start + received]
      decreases len - received
    {
      var left := |stream| - (start + received);
      if left == 0 {
        return body, false;
      }
      var n := Clip(cut(start + received), Min(len - received, left));
      body := body[..received] + stream[start + received..start + received + n] + body[received + n..];
      received := received + n;
    }
    ok := true;
  }

  // ---------------------------------------------------------------- how reads are cut

  // Along the way of the reader from `pos` on, every read of a length prefix returns all the
  // bytes there are, up to four. How bodies are read is left open.
  ghost predicate HeadsWhole(f: Format, stream: seq<byte>, cut: nat -> nat, pos: nat)
    requires pos <= |stream|
    decreases |stream| - pos
  {
    pos == |stream| ||
    (&& HeadSize(cut, stream, pos) == Min(4, |stream| - pos)
     && var span := SpanAt(f, stream, cut, pos);
        span.Span? ==> HeadsWhole(f, stream, cut, span.end))
  }

  // However the reads of the bodies are cut, the reader emits what the stream means, as
  // long as length prefixes are read whole.
  lemma {:induction false} ReaderEmitsMeaning(f: Format, stream: seq<byte>, failed: bool, cut: nat -> nat, pos: nat)
    requires pos <= |stream| && HeadsWhole(f, stream, cut, pos)
    ensures Follow(f, stream, failed, cut, pos) == Parse(f, stream[pos..], failed)
    decreases |stream| - pos
  {
    if pos == |stream| {
      FollowEnd(f, stream, failed, cut);
      assert Parse(f, stream[pos..], failed) == Parsed([Close], Closed);
    } else {
      FollowRound(f, stream, failed, cut, pos);
      MeaningRound(f, stream, failed, cut, pos);
      var span := SpanAt(f, stream, cut, pos);
      if span.Span? {
        ReaderEmitsMeaning(f, stream, failed, cut, span.end);
      }
    }
  }

  lemma FollowEnd(f: Format, stream: seq<byte>, failed: bool, cut: nat -> nat)
    ensures Follow(f, stream, failed, cut, |stream|) == Parsed([Close], Closed)
  {
  }

  lemma FollowRound(f: Format, stream: seq<byte>, failed: bool, cut: nat -> nat, pos: nat)
    requires pos < |stream|
    ensures Follow(f, stream, failed, cut, pos) ==
            var span := SpanAt(f, stream, cut, pos);
            if span.Beyond? then CutOff(failed)
            else Onto(Emit(f, stream[span.start..span.end]), Follow(f, stream, failed, cut, span.end))
  {
  }

  lemma MeaningRound(f: Format, stream: seq<byte>, failed: bool, cut: nat -> nat, pos: nat)
    requires pos < |stream| && HeadSize(cut, stream, pos) == Min(4, |stream| - pos)
    ensures Parse(f, stream[pos..], failed) ==
            var span := SpanAt(f, stream, cut, pos);
            if span.Beyond? then CutOff(failed)
            else Onto(Emit(f, stream[span.start..span.end]), Parse(f, stream[span.end..], failed))
  {
    match SpanAt(f, stream, cut, pos)
    case Beyond => ParseCut(f, stream, failed, pos, pos + HeadSize(cut, stream, pos));
    case Span(start, end) => ParseFrame(f, stream, failed, pos, start, end);
  }

  lemma ParseStep(f: Format, here: seq<byte>, body: seq<byte>, tail: seq<byte>, failed: bool)
    requires here != [] && here[Min(4, |here|)..] == body + tail && |body| == f.length(here[..Min(4, |here|)])
    ensures Parse(f, here, failed) == Onto(Emit(f, body), Parse(f, tail, failed))
  {
    var rest := here[Min(4, |here|)..];
    assert rest[..|body|] == body && rest[|body|..] == tail;
  }

  lemma Slices(stream: seq<byte>, pos: nat, start: nat, end: nat)
    requires pos <= start <= end <= |stream|
    ensures stream[pos..][..start - pos] == stream[pos..start]
    ensures stream[pos..][start - pos..] == stream[start..end] + stream[end..]
  {
  }

  lemma ParseFrame(f: Format, stream: seq<byte>, failed: bool, pos: nat, start: nat, end: nat)
    requires pos < start <= end <= |stream| && start - pos == Min(4, |stream| - pos) && end - start == f.length(stream[pos..start])
    ensures Parse(f, stream[pos..], failed) == Onto(Emit(f, stream[start..end]), Parse(f, stream[end..], failed))
  {
    Slices(stream, pos, start, end);
    ParseStep(f, stream[pos..], stream[start..end], stream[end..], failed);
  }

  lemma ParseCut(f: Format, stream: seq<byte>, failed: bool, pos: nat, start: nat)
    requires pos < start <= |stream| && start - pos == Min(4, |stream| - pos)
    requires |stream| < start + f.length(stream[pos..start])
    ensures Parse(f, stream[pos..], failed) == CutOff(failed)
  {
    var here, size := stream[pos..], start - pos;
    assert here[..size] == stream[pos..start] && here[size..] == stream[start..];
  }

  // A frame of one byte whose prefix comes in as three bytes and one is lost, and the reader
  // spins.
  lemma ShortHeadDerails(f: Format, b: byte, cut: nat -> nat)
    requires BigEndian(f)
    requires cut(0) == 3 && 2 <= cut(3)
    ensures Parse(f, Frame([b]), false) == Parsed(Emit(f, [b]) + [Close], Closed)
    ensures Follow(f, Frame([b]), false, cut, 0) == Parsed(Emit(f, []), Spinning)
  {
    var stream := Frame([b]);
    FrameParses(f, [b], [], false);
    assert stream + [] == stream;
    FirstBytes(b);
    SpanOfThree(f, b, cut);
    SpanOfOne(f, b, cut);
    FollowRound(f, stream, false, cut, 0);
    FollowRound(f, stream, false, cut, 3);
  }

  lemma SpanOfThree(f: Format, b: byte, cut: nat -> nat)
    requires BigEndian(f) && cut(0) == 3
    ensures SpanAt(f, [0, 0, 0, 1, b], cut, 0) == Span(3, 3)
  {
    assert [0, 0, 0, 1, b][0..3] == Zeros(3);
    ShortLength(Zeros(3));
  }

  lemma SpanOfOne(f: Format, b: byte, cut: nat -> nat)
    requires BigEndian(f) && 2 <= cut(3)
    ensures SpanAt(f, [0, 0, 0, 1, b], cut, 3) == Beyond
  {
    assert [0, 0, 0, 1, b][3..5] == [1, b];
    LongLength(b);
  }

  lemma FirstBytes(b: byte)
    ensures Frame([b]) == [0, 0, 0, 1, b]
  {
    assert ToBe(1, 4) == [0, 0, 0, 1];
  }

  lemma LongLength(b: byte)
    ensures LengthOf([1, b]) >= 0x100_0000
  {
    assert ([1, b] + Zeros(4))[..4] == [1, b, 0, 0];
    assert [1, b, 0, 0][..3] == [1, b, 0] && [1, b, 0][..2] == [1, b] && [1, b][..1] == [1];
    assert FromBe([1]) == 1;
    assert FromBe([1, b]) >= 256;
    assert FromBe([1, b, 0]) >= 0x1_0000;
  }

  // ---------------------------------------------------------------- whole frames

  lemma FrameParses(f: Format, body: seq<byte>, tail: seq<byte>, failed: bool)
    requires BigEndian(f)
    requires |body| < 0x1_0000_0000
    ensures Parse(f, Frame(body) + tail, failed) == Onto(Emit(f, body), Parse(f, tail, failed))
  {
    var stream := Frame(body) + tail;
    assert stream[..4] == ToBe(|body|, 4) && stream[4..] == body + tail;
    LengthOfFrame(body);
    ParseStep(f, stream, body, tail, failed);
  }

  lemma LengthOfFrame(body: seq<byte>)
    requires |body| < 0x1_0000_0000
    ensures LengthOf(ToBe(|body|, 4)) == |body|
  {
    Widths();
    BeRoundTrip(|body|, 4);
    assert (ToBe(|body|, 4) + Zeros(4))[..4] == ToBe(|body|, 4);
  }

  // The messages of the bodies that decode, in order; the others leave no trace.
  ghost function EmitAll(f: Format, bodies: seq<seq<byte>>): seq<EndpointMessage>
  {
    if bodies == [] then []
    else if f.decode(bodies[0]).Err? then EmitAll(f, bodies[1..])
    else [f.decode(bodies[0]).value] + EmitAll(f, bodies[1..])
  }

  // Whole frames, then anything: the messages of the frames come out first, in order.
  lemma {:induction false} FramesParse(f: Format, bodies: seq<seq<byte>>, tail: seq<byte>, failed: bool)
    requires BigEndian(f)
    requires forall b :: b in bodies ==> |b| < 0x1_0000_0000
    ensures Parse(f, Frames(bodies) + tail, failed) == Onto(EmitAll(f, bodies), Parse(f, tail, failed))
  {
    if bodies == [] {
      assert Frames(bodies) + tail == tail;
    } else {
      var more := Frames(bodies[1..]) + tail;
      assert Frames(bodies) + tail == Frame(bodies[0]) + more;
      FrameParses(f, bodies[0], more, failed);
      EmitFirst(f, bodies[0], bodies[1..]);
      FirstAndRest(bodies);
      FramesParse(f, bodies[1..], tail, failed);
      OntoTwice(Emit(f, bodies[0]), EmitAll(f, bodies[1..]), Parse(f, tail, failed));
    }
  }

  // What a peer gets to see of the messages `ms`: up to the first `Close`, each once
  // and in order, as it comes off the wire.
  ghost function Received(ms: seq<EndpointMessage>): seq<EndpointMessage>
  {
    if ms == [] then []
    else [Normal(ms[0])] + if ms[0].Close? then [] else Received(ms[1..])
  }

  // That is: every message up to and including the first `Close`, and none behind it.
  lemma {:induction false} ReceivedExact(ms: seq<EndpointMessage>, n: nat)
    requires n <= |ms| && (forall i :: 0 <= i < n ==> !ms[i].Close?) && (n < |ms| ==> ms[n].Close?)
    ensures |Received(ms)| == |Written(ms)| == if n < |ms| then n + 1 else n
    ensures forall i :: 0 <= i < |Received(ms)| ==> Received(ms)[i] == Normal(ms[i]) && Written(ms)[i] == Encode(ms[i])
    decreases |ms|
  {
    if ms == [] {
    } else if ms[0].Close? {
      assert n == 0;
    } else {
      ReceivedExact(ms[1..], n - 1);
    }
  }

  lemma {:induction false} WrittenEmits(ms: seq<EndpointMessage>)
    requires forall m :: m in ms ==> WellFormed(m)
    ensures EmitAll(Format(LengthOf, Decode), Written(ms)) == Received(ms)
  {
    if ms == [] {
    } else {
      RoundTrip(ms[0]);
      if ms[0].Close? {
        assert Written(ms)[1..] == [];
      } else {
        WrittenEmits(ms[1..]);
        assert Written(ms)[1..] == Written(ms[1..]);
      }
    }
  }

  // ---------------------------------------------------------------- written frames, read back

  // The bodies the reader hands to the decoder, and the position at which it finds that
  // there is no further whole frame.
  ghost function Handed(f: Format, stream: seq<byte>, cut: nat -> nat, pos: nat): seq<seq<byte>>
    requires pos <= |stream|
    decreases |stream| - pos
  {
    if pos == |stream| then []
    else
      var span := SpanAt(f, stream, cut, pos);
      if span.Beyond? then [] else [stream[span.start..span.end]] + Handed(f, stream, cut, span.end)
  }

  ghost function StopAt(f: Format, stream: seq<byte>, cut: nat -> nat, pos: nat): (n: nat)
    requires pos <= |stream|
    ensures pos <= n <= |stream|
    decreases |stream| - pos
  {
    if pos == |stream| then pos
    else
      var span := SpanAt(f, stream, cut, pos);
      if span.Beyond? then pos else StopAt(f, stream, cut, span.end)
  }

  // The positions at which the reader begins to read a prefix, and at which it stops.
  ghost function Starts(f: Format, stream: seq<byte>, cut: nat -> nat, pos: nat): (ps: seq<nat>)
    requires pos <= |stream|
    ensures ps != [] && ps[0] == pos
    decreases |stream| - pos
  {
    if pos == |stream| then [pos]
    else
      var span := SpanAt(f, stream, cut, pos);
      if span.Beyond? then [pos] else [pos] + Starts(f, stream, cut, span.end)
  }

  // Whatever the cutting, what comes out is the decoded bodies, and the reader ends exactly
  // when a read fails or it stops at the end of the stream.
  lemma {:induction false} FollowEmitsHanded(f: Format, stream: seq<byte>, failed: bool, cut: nat -> nat, pos: nat)
    requires pos <= |stream|
    ensures Follow(f, stream, failed, cut, pos) ==
            Onto(EmitAll(f, Handed(f, stream, cut, pos)),
                 if failed || StopAt(f, stream, cut, pos) == |stream| then Parsed([Close], Closed) else Parsed([], Spinning))
    decreases |stream| - pos
  {
    if pos == |stream| {
      FollowEnd(f, stream, failed, cut);
    } else {
      FollowRound(f, stream, failed, cut, pos);
      var span := SpanAt(f, stream, cut, pos);
      if span.Span? {
        FollowEmitsHanded(f, stream, failed, cut, span.end);
        var body, more := stream[span.start..span.end], Handed(f, stream, cut, span.end);
        EmitFirst(f, body, more);
        OntoTwice(Emit(f, body), EmitAll(f, more),
                  if failed || StopAt(f, stream, cut, span.end) == |stream| then Parsed([Close], Closed) else Parsed([], Spinning));
      }
    }
  }

  lemma EmitFirst(f: Format, body: seq<byte>, more: seq<seq<byte>>)
    ensures EmitAll(f, [body] + more) == Emit(f, body) + EmitAll(f, more)
  {
    assert ([body] + more)[1..] == more;
  }

  // The prefix of every frame, when the first begins at `pos`, is read in one piece. The
  // reads of the bodies may be cut in any way.
  ghost predicate PrefixesWhole(cut: nat -> nat, pos: nat, bodies: seq<seq<byte>>)
    decreases |bodies|
  {
    bodies == [] || (4 <= cut(pos) && PrefixesWhole(cut, pos + 4 + |bodies[0]|, bodies[1..]))
  }

  // The positions at which the frames begin, and at which the last one ends.
  ghost function FrameStarts(pos: nat, bodies: seq<seq<byte>>): (ps: seq<nat>)
    ensures ps != [] && ps[0] == pos
    decreases |bodies|
  {
    if bodies == [] then [pos] else [pos] + FrameStarts(pos + 4 + |bodies[0]|, bodies[1..])
  }

  ghost predicate Sized(bodies: seq<seq<byte>>)
  {
    forall b :: b in bodies ==> |b| < 0x1_0000_0000
  }

  ghost predicate FrameAt(stream: seq<byte>, pos: nat, body: seq<byte>)
  {
    && pos + 4 + |body| <= |stream| && |body| < 0x1_0000_0000
    && stream[pos..pos + 4] == ToBe(|body|, 4)
    && stream[pos + 4..pos + 4 + |body|] == body
  }

  // The frames of `bodies` lie in the stream from `pos` to `end`.
  ghost predicate FramesAt(stream: seq<byte>, pos: nat, bodies: seq<seq<byte>>, end: nat)
    decreases |bodies|
  {
    if bodies == [] then pos == end <= |stream|
    else FrameAt(stream, pos, bodies[0]) && FramesAt(stream, pos + 4 + |bodies[0]|, bodies[1..], end)
  }

  lemma {:induction false} FramesLaidOut(pre: seq<byte>, bodies: seq<seq<byte>>, tail: seq<byte>)
    requires Sized(bodies)
    ensures FramesAt(pre + Frames(bodies) + tail, |pre|, bodies, |pre + Frames(bodies)|)
    decreases |bodies|
  {
    if bodies == [] {
    } else {
      var body, more := bodies[0], Frames(bodies[1..]);
      FramesLaidOut(pre + Frame(body), bodies[1..], tail);
      Regroup(pre, Frame(body), more, tail);
      FrameInside(pre, body, more + tail);
    }
  }

  lemma Regroup<T>(a: seq<T>, b: seq<T>, c: seq<T>, d: seq<T>)
    ensures a + (b + c) + d == (a + b) + c + d == a + b + (c + d)
    ensures a + (b + c) == (a + b) + c
  {
  }

  lemma FrameInside(pre: seq<byte>, body: seq<byte>, more: seq<byte>)
    requires |body| < 0x1_0000_0000
    ensures FrameAt(pre + Frame(body) + more, |pre|, body)
  {
    SliceInside(pre, ToBe(|body|, 4), body, more);
  }

  lemma SliceInside<T>(pre: seq<T>, head: seq<T>, body: seq<T>, more: seq<T>)
    ensures var q, n := pre + (head + body) + more, |pre|;
            q[n..n + |head|] == head && q[n + |head|..n + |head| + |body|] == body
  {
  }

  // A prefix that is read whole leads to the body and to the next frame ...
  lemma WholeSpan(f: Format, stream: seq<byte>, cut: nat -> nat, pos: nat, body: seq<byte>)
    requires BigEndian(f) && FrameAt(stream, pos, body) && 4 <= cut(pos)
    ensures SpanAt(f, stream, cut, pos) == Span(pos + 4, pos + 4 + |body|)
  {
    LengthOfFrame(body);
  }

  lemma {:induction false} BeMonotone(a: seq<byte>, b: seq<byte>)
    requires |a| == |b| && forall i :: 0 <= i < |a| ==> a[i] <= b[i]
    ensures FromBe(a) <= FromBe(b)
  {
    if a == [] {
    } else {
      BeMonotone(a[..|a| - 1], b[..|b| - 1]);
    }
  }

  lemma ShorterIsLess(head: seq<byte>, n: nat)
    requires |head| == 4 && n <= 4
    ensures LengthOf(head[..n]) <= LengthOf(head)
  {
    BeMonotone((head[..n] + Zeros(4))[..4], (head + Zeros(4))[..4]);
  }

  // ... and one that is read short leads to a place inside the same frame.
  lemma ShortSpan(f: Format, stream: seq<byte>, cut: nat -> nat, pos: nat, body: seq<byte>)
    requires BigEndian(f) && FrameAt(stream, pos, body) && cut(pos) < 4
    ensures var span := SpanAt(f, stream, cut, pos); span.Span? && span.end < pos + 4 + |body|
  {
    var n := HeadSize(cut, stream, pos);
    LengthOfFrame(body);
    ShorterIsLess(stream[pos..pos + 4], n);
    HeadOfHead(stream, pos, n);
  }

  lemma HeadOfHead(stream: seq<byte>, pos: nat, n: nat)
    requires n <= 4 && pos + 4 <= |stream|
    ensures stream[pos..pos + 4][..n] == stream[pos..pos + n]
  {
  }

  // The same frames as the reader meets them.
  ghost predicate Met(f: Format, stream: seq<byte>, cut: nat -> nat, pos: nat, bodies: seq<seq<byte>>, end: nat)
    decreases |bodies|
  {
    if bodies == [] then pos == end <= |stream|
    else
      var next := pos + 4 + |bodies[0]|;
      && next <= |stream| && stream[pos + 4..next] == bodies[0]
      && MetOne(SpanAt(f, stream, cut, pos), cut(pos), pos, next)
      && Met(f, stream, cut, next, bodies[1..], end)
  }

  ghost predicate MetOne(span: Span, size: nat, pos: nat, next: nat)
  {
    if 4 <= size then span == Span(pos + 4, next) else span.Span? && span.end < next
  }

  lemma {:induction false} FramesAreMet(f: Format, stream: seq<byte>, cut: nat -> nat, pos: nat, bodies: seq<seq<byte>>, end: nat)
    requires BigEndian(f) && FramesAt(stream, pos, bodies, end)
    ensures Met(f, stream, cut, pos, bodies, end)
    decreases |bodies|
  {
    if bodies == [] {
    } else {
      FramesAreMet(f, stream, cut, pos + 4 + |bodies[0]|, bodies[1..], end);
      FrameIsMet(f, stream, cut, pos, bodies[0]);
    }
  }

  lemma FrameIsMet(f: Format, stream: seq<byte>, cut: nat -> nat, pos: nat, body: seq<byte>)
    requires BigEndian(f) && FrameAt(stream, pos, body)
    ensures MetOne(SpanAt(f, stream, cut, pos), cut(pos), pos, pos + 4 + |body|)
  {
    if 4 <= cut(pos) {
      WholeSpan(f, stream, cut, pos, body);
    } else {
      ShortSpan(f, stream, cut, pos, body);
    }
  }

  lemma {:induction false} StartsKept(f: Format, stream: seq<byte>, cut: nat -> nat, pos: nat, bodies: seq<seq<byte>>)
    requires Met(f, stream, cut, pos, bodies, |stream|)
    ensures pos <= |stream|
    ensures Starts(f, stream, cut, pos) == FrameStarts(pos, bodies) <==> PrefixesWhole(cut, pos, bodies)
    decreases |bodies|
  {
    if bodies == [] {
    } else {
      var next := pos + 4 + |bodies[0]|;
      StartsKept(f, stream, cut, next, bodies[1..]);
      SameRest(pos, Starts(f, stream, cut, SpanAt(f, stream, cut, pos).end), FrameStarts(next, bodies[1..]));
    }
  }

  lemma SameRest<T>(x: T, a: seq<T>, b: seq<T>)
    ensures [x] + a == [x] + b <==> a == b
  {
    assert ([x] + a)[1..] == a && ([x] + b)[1..] == b;
  }

  lemma FollowMet(f: Format, stream: seq<byte>, failed: bool, cut: nat -> nat, pos: nat, body: seq<byte>)
    requires pos + 4 + |body| <= |stream| && stream[pos + 4..pos + 4 + |body|] == body
    requires SpanAt(f, stream, cut, pos) == Span(pos + 4, pos + 4 + |body|)
    ensures Follow(f, stream, failed, cut, pos) == Onto(Emit(f, body), Follow(f, stream, failed, cut, pos + 4 + |body|))
  {
    FollowRound(f, stream, failed, cut, pos);
  }

  // When every prefix is read in one piece the frames come out one after the other.
  lemma {:induction false} FollowFrames(f: Format, stream: seq<byte>, failed: bool, cut: nat -> nat, pos: nat,
                                        bodies: seq<seq<byte>>, end: nat)
    requires Met(f, stream, cut, pos, bodies, end) && PrefixesWhole(cut, pos, bodies)
    ensures pos <= end <= |stream|
    ensures Follow(f, stream, failed, cut, pos) == Onto(EmitAll(f, bodies), Follow(f, stream, failed, cut, end))
    decreases |bodies|
  {
    if bodies == [] {
      OntoNothing(Follow(f, stream, failed, cut, end));
    } else {
      var next := pos + 4 + |bodies[0]|;
      FollowMet(f, stream, failed, cut, pos, bodies[0]);
      FollowFrames(f, stream, failed, cut, next, bodies[1..], end);
      EmitFirst(f, bodies[0], bodies[1..]);
      FirstAndRest(bodies);
      OntoTwice(Emit(f, bodies[0]), EmitAll(f, bodies[1..]), Follow(f, stream, failed, cut, end));
    }
  }

  lemma {:induction false} HandedFrames(f: Format, stream: seq<byte>, cut: nat -> nat, pos: nat, bodies: seq<seq<byte>>)
    requires Met(f, stream, cut, pos, bodies, |stream|) && PrefixesWhole(cut, pos, bodies)
    ensures pos <= |stream|
    ensures Handed(f, stream, cut, pos) == bodies && StopAt(f, stream, cut, pos) == |stream|
    decreases |bodies|
  {
    if bodies == [] {
    } else {
      HandedFrames(f, stream, cut, pos + 4 + |bodies[0]|, bodies[1..]);
      FirstAndRest(bodies);
    }
  }

  lemma FirstAndRest<T>(q: seq<T>)
    requires q != []
    ensures q == [q[0]] + q[1..]
  {
  }

  // A reader that hands out these bodies has eaten at most their frames, and exactly them
  // only if every prefix was read in one piece.
  lemma {:induction false} BytesEaten(f: Format, stream: seq<byte>, cut: nat -> nat, pos: nat, bodies: seq<seq<byte>>)
    requires pos <= |stream| && Handed(f, stream, cut, pos) == bodies
    ensures StopAt(f, stream, cut, pos) - pos <= |Frames(bodies)|
    ensures StopAt(f, stream, cut, pos) - pos == |Frames(bodies)| ==> PrefixesWhole(cut, pos, bodies)
    decreases |bodies|
  {
    if bodies == [] {
    } else {
      var span := SpanAt(f, stream, cut, pos);
      var body, more := stream[span.start..span.end], Handed(f, stream, cut, span.end);
      FirstAndRest(bodies);
      SameFirst(bodies[0], body, bodies[1..], more);
      BytesEaten(f, stream, cut, span.end, more);
    }
  }

  lemma SameFirst<T>(x: T, y: T, a: seq<T>, b: seq<T>)
    requires [x] + a == [y] + b
    ensures x == y && a == b
  {
    assert ([x] + a)[0] == x && ([y] + b)[0] == y;
    assert ([x] + a)[1..] == a && ([y] + b)[1..] == b;
  }

  // The reader begins every round at the beginning of a frame if and only if it reads every
  // prefix in one piece, and then and only then the decoder is handed exactly the bodies
  // that were written.
  lemma KeepsToFrames(f: Format, pre: seq<byte>, bodies: seq<seq<byte>>, cut: nat -> nat)
    requires BigEndian(f) && Sized(bodies)
    ensures var stream, pos := pre + Frames(bodies), |pre|;
            && (Starts(f, stream, cut, pos) == FrameStarts(pos, bodies) <==> PrefixesWhole(cut, pos, bodies))
            && (Handed(f, stream, cut, pos) == bodies && StopAt(f, stream, cut, pos) == |stream| <==> PrefixesWhole(cut, pos, bodies))
  {
    var stream, pos := pre + Frames(bodies), |pre|;
    FramesLaidOut(pre, bodies, []);
    assert pre + Frames(bodies) + [] == stream;
    FramesAreMet(f, stream, cut, pos, bodies, |stream|);
    StartsKept(f, stream, cut, pos, bodies);
    if PrefixesWhole(cut, pos, bodies) {
      HandedFrames(f, stream, cut, pos, bodies);
    } else if Handed(f, stream, cut, pos) == bodies {
      BytesEaten(f, stream, cut, pos, bodies);
    }
  }

  // From writer to reader, for every list of messages and every cutting of their bodies: the
  // receiver sees the messages in order, and then the `Close` of the end of the stream.
  lemma StreamRoundTrip(ms: seq<EndpointMessage>, failed: bool, cut: nat -> nat)
    requires forall m :: m in ms ==> WellFormed(m)
    requires Sized(Written(ms)) && PrefixesWhole(cut, 0, Written(ms))
    ensures Follow(Format(LengthOf, Decode), Frames(Written(ms)), failed, cut, 0) == Parsed(Received(ms) + [Close], Closed)
  {
    var f, stream := Format(LengthOf, Decode), Frames(Written(ms));
    FramesLaidOut([], Written(ms), []);
    assert [] + stream + [] == stream;
    FramesAreMet(f, stream, cut, 0, Written(ms), |stream|);
    FollowFrames(f, stream, failed, cut, 0, Written(ms), |stream|);
    FollowEnd(f, stream, failed, cut);
    WrittenEmits(ms);
  }

  // A stream that ends inside a body: nothing of that body comes out. After an error the
  // reader closes, after a plain end of the stream it never ends, whatever came before.
  lemma CutInsideBody(f: Format, bodies: seq<seq<byte>>, body: seq<byte>, n: nat, failed: bool, cut: nat -> nat)
    requires BigEndian(f) && Sized(bodies) && |body| < 0x1_0000_0000 && n < |body|
    requires PrefixesWhole(cut, 0, bodies) && 4 <= cut(|Frames(bodies)|)
    ensures Follow(f, Frames(bodies) + Frame(body)[..4 + n], failed, cut, 0) ==
            if failed then Parsed(EmitAll(f, bodies) + [Close], Closed) else Parsed(EmitAll(f, bodies), Spinning)
  {
    var tail, pos := Frame(body)[..4 + n], |Frames(bodies)|;
    var stream := Frames(bodies) + tail;
    FramesLaidOut([], bodies, tail);
    assert [] + Frames(bodies) == Frames(bodies);
    FramesAreMet(f, stream, cut, 0, bodies, pos);
    FollowFrames(f, stream, failed, cut, 0, bodies, pos);
    CutSpan(f, Frames(bodies), body, n, cut);
    FollowRound(f, stream, failed, cut, pos);
    assert EmitAll(f, bodies) + [] == EmitAll(f, bodies);
  }

  lemma CutSpan(f: Format, pre: seq<byte>, body: seq<byte>, n: nat, cut: nat -> nat)
    requires BigEndian(f) && |body| < 0x1_0000_0000 && n < |body| && 4 <= cut(|pre|)
    ensures SpanAt(f, pre + Frame(body)[..4 + n], cut, |pre|) == Beyond
  {
    var stream := pre + Frame(body)[..4 + n];
    assert stream[|pre|..|pre| + 4] == ToBe(|body|, 4);
    LengthOfFrame(body);
  }

  // ---------------------------------------------------------------- when the reader ends

  // Whole frames, and after them at most three zero bytes.
  ghost predicate Complete(stream: seq<byte>, bodies: seq<seq<byte>>, k: nat)
  {
    k < 4 && stream == Frames(bodies) + Zeros(k) && Sized(bodies)
  }

  lemma {:induction false} ZeroValue(b: seq<byte>)
    ensures FromBe(b) == 0 <==> forall i :: 0 <= i < |b| ==> b[i] == 0
  {
    if b == [] {
    } else {
      ZeroValue(b[..|b| - 1]);
    }
  }

  lemma {:induction false} BeInverse(b: seq<byte>)
    ensures ToBe(FromBe(b), |b|) == b
  {
    if b == [] {
    } else {
      BeInverse(b[..|b| - 1]);
      assert FromBe(b) / 256 == FromBe(b[..|b| - 1]) && FromBe(b) % 256 == b[|b| - 1];
    }
  }

  lemma ShortLength(z: seq<byte>)
    requires |z| < 4
    ensures LengthOf(z) == 0 <==> z == Zeros(|z|)
  {
    var b := (z + Zeros(4))[..4];
    ZeroValue(b);
    if z != Zeros(|z|) {
      var i :| 0 <= i < |z| && z[i] != 0;
      assert b[i] != 0;
    }
  }

  lemma ShortTail(f: Format, z: seq<byte>)
    requires BigEndian(f)
    requires |z| < 4
    ensures Parse(f, z, false).ending.Closed? <==> z == Zeros(|z|)
  {
    ShortLength(z);
    if z != [] {
      assert z[..|z|] == z && z[|z|..] == [];
    }
  }

  // A reader that reads prefixes whole ends exactly when a read fails, or when the stream is
  // made of whole frames, up to three zero bytes left over.
  lemma EndsIffComplete(f: Format, stream: seq<byte>, failed: bool, cut: nat -> nat)
    requires BigEndian(f) && HeadsWhole(f, stream, cut, 0)
    ensures Follow(f, stream, failed, cut, 0).ending.Closed? <==> failed || exists bodies, k :: Complete(stream, bodies, k)
  {
    ReaderEmitsMeaning(f, stream, failed, cut, 0);
    assert stream[0..] == stream;
    MeaningEndsIffComplete(f, stream, failed);
  }

  lemma MeaningEndsIffComplete(f: Format, stream: seq<byte>, failed: bool)
    requires BigEndian(f)
    ensures Parse(f, stream, failed).ending.Closed? <==> failed || exists bodies, k :: Complete(stream, bodies, k)
  {
    if failed {
      FailureEnds(f, stream, 0);
      assert stream[0..] == stream;
    } else {
      if Parse(f, stream, false).ending.Closed? {
        var bodies, k := Decompose(f, stream);
      }
      forall bodies, k | Complete(stream, bodies, k) ensures Parse(f, stream, false).ending.Closed? {
        FramesParse(f, bodies, Zeros(k), false);
        ShortTail(f, Zeros(k));
      }
    }
  }

  lemma {:induction false} FailureEnds(f: Format, stream: seq<byte>, pos: nat)
    requires pos <= |stream|
    ensures Parse(f, stream[pos..], true).ending.Closed?
    decreases |stream| - pos
  {
    if pos == |stream| {
    } else {
      var start := pos + Min(4, |stream| - pos);
      var end := start + f.length(stream[pos..start]);
      if end <= |stream| {
        ParseFrame(f, stream, true, pos, start, end);
        FailureEnds(f, stream, end);
      } else {
        ParseCut(f, stream, true, pos, start);
      }
    }
  }

  lemma FirstFrame(f: Format, stream: seq<byte>) returns (body: seq<byte>, tail: seq<byte>)
    requires BigEndian(f)
    requires 4 <= |stream| && Parse(f, stream, false).ending.Closed?
    ensures stream == Frame(body) + tail && |body| < 0x1_0000_0000
    ensures Parse(f, tail, false).ending.Closed?
  {
    var len, rest := LengthOf(stream[..4]), stream[4..];
    assert (stream[..4] + Zeros(4))[..4] == stream[..4];
    BeBounded(stream[..4]);
    Widths();
    body, tail := rest[..len], rest[len..];
    assert ToBe(len, 4) == stream[..4] by {
      BeInverse(stream[..4]);
    }
  }

  lemma {:induction false} Decompose(f: Format, stream: seq<byte>) returns (bodies: seq<seq<byte>>, k: nat)
    requires BigEndian(f)
    requires Parse(f, stream, false).ending.Closed?
    ensures Complete(stream, bodies, k)
    decreases |stream|
  {
    if |stream| < 4 {
      ShortTail(f, stream);
      bodies, k := [], |stream|;
      assert Frames(bodies) + Zeros(k) == stream;
    } else {
      var body, tail := FirstFrame(f, stream);
      var more;
      more, k := Decompose(f, tail);
      bodies := [body] + more;
      assert bodies[1..] == more;
      assert Frames(bodies) + Zeros(k) == Frame(body) + (Frames(more) + Zeros(k));
    }
  }
}
