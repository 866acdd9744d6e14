/** Native-messaging framing over byte streams, the daemon's request loop, and the helper at the other end. */
module Framing {
  import opened Bytes

  const MAX_FRAME := 32 * 1024 * 1024
  const MAX_REPLY := 8 * 1024 * 1024
  const U32_RANGE := 0x1_0000_0000

  datatype FrameError = TooLarge | Truncated

  // ---- frames as byte strings ---------------------------------------------------------------------

  /** A length cast to 32 bits. */
  function AsU32(n: nat): (w: u32)
    ensures n < U32_RANGE ==> w == n
    ensures n >= U32_RANGE ==> w < n
  {
    n % U32_RANGE
  }

  /** Length as a little-endian 32-bit word, cast from the payload's length, then the payload. */
  function Frame(payload: seq<byte>): seq<byte> {
    WordBytes(AsU32(|payload|)) + payload
  }

  /** What one read finds at the front of a stream; fewer than four bytes are a clean end. */
  datatype Front = Clean | Failed(error: FrameError) | Got(payload: seq<byte>, rest: seq<byte>)

  function ReadFront(s: seq<byte>, limit: nat): Front {
    if |s| < 4 then Clean
    else
      var len := BytesWord(s[0], s[1], s[2], s[3]);
      if len > limit then Failed(TooLarge)
      else if |s| < 4 + len then Failed(Truncated)
      else Got(s[4..4 + len], s[4 + len..])
  }

  function Frames(payloads: seq<seq<byte>>): seq<byte> {
    if payloads == [] then [] else Frame(payloads[0]) + Frames(payloads[1..])
  }

  /** All frames of a stream, and what stopped the reading. */
  datatype Reading = Reading(payloads: seq<seq<byte>>, end: Option<FrameError>)

  function ReadAll(s: seq<byte>, limit: nat): Reading
    decreases |s|
  {
    match ReadFront(s, limit)
    case Clean => Reading([], None)
    case Failed(e) => Reading([], Some(e))
    case Got(p, rest) => var r := ReadAll(rest, limit); Reading([p] + r.payloads, r.end)
  }

  lemma HeaderOfFrame(p: seq<byte>, rest: seq<byte>)
    ensures var s := Frame(p) + rest;
            |s| == 4 + |p| + |rest| && BytesWord(s[0], s[1], s[2], s[3]) == AsU32(|p|)
            && s[4..4 + |p|] == p && s[4 + |p|..] == rest
  {
    WordBytesInverse(AsU32(|p|));
  }

  /** A written frame is read back, with the rest of the stream untouched, exactly when it is within the limit. */
  lemma FrameRoundTrip(p: seq<byte>, rest: seq<byte>, limit: nat)
    requires limit < U32_RANGE
    ensures ReadFront(Frame(p) + rest, limit) == Got(p, rest) <==> |p| <= limit
  {
    HeaderOfFrame(p, rest);
  }

  /** Reading any list of written frames, each within the limit, yields that list and then a clean end. */
  lemma {:induction false} StreamRoundTrip(payloads: seq<seq<byte>>, limit: nat)
    requires limit < U32_RANGE && forall k :: 0 <= k < |payloads| ==> |payloads[k]| <= limit
    ensures ReadAll(Frames(payloads), limit) == Reading(payloads, None)
  {
    if payloads != [] {
      FrameRoundTrip(payloads[0], Frames(payloads[1..]), limit);
      StreamRoundTrip(payloads[1..], limit);
      assert payloads == [payloads[0]] + payloads[1..];
    }
  }

  /** Bytes no further frame can be read from, and why. */
  predicate Stuck(tail: seq<byte>, limit: nat, end: Option<FrameError>) {
    match end
    case None => |tail| < 4
    case Some(TooLarge) => |tail| >= 4 && BytesWord(tail[0], tail[1], tail[2], tail[3]) > limit
    case Some(Truncated) =>
      |tail| >= 4 && BytesWord(tail[0], tail[1], tail[2], tail[3]) <= limit
      && |tail| < 4 + BytesWord(tail[0], tail[1], tail[2], tail[3])
  }

  /**
   Whatever arrives: the payloads read are the frames the stream starts with, all within the limit, and
   what is left over explains the end that was reported.
   */
  lemma {:induction false} ReadingExplainsStream(s: seq<byte>, limit: nat) returns (tail: seq<byte>)
    requires limit < U32_RANGE
    ensures var r := ReadAll(s, limit);
            s == Frames(r.payloads) + tail && Stuck(tail, limit, r.end)
            && forall k :: 0 <= k < |r.payloads| ==> |r.payloads[k]| <= limit
    decreases |s|
  {
    var front := ReadFront(s, limit);
    if front.Got? {
      tail := ReadingExplainsStream(front.rest, limit);
      GotIsFrame(s, limit);
      FrameBefore(front.payload, front.rest, ReadAll(front.rest, limit).payloads, tail);
    } else {
      tail := s;
      StuckEnd(s, limit);
    }
  }

  lemma FrameBefore(p: seq<byte>, rest: seq<byte>, payloads: seq<seq<byte>>, tail: seq<byte>)
    requires rest == Frames(payloads) + tail
    ensures Frame(p) + rest == Frames([p] + payloads) + tail
  {
    assert ([p] + payloads)[1..] == payloads;
    Assoc(Frame(p), Frames(payloads), tail);
  }

  lemma StuckEnd(s: seq<byte>, limit: nat)
    requires !ReadFront(s, limit).Got?
    ensures Stuck(s, limit, ReadAll(s, limit).end) && ReadAll(s, limit).payloads == [] && s == Frames([]) + s
  {
  }

  lemma GotIsFrame(s: seq<byte>, limit: nat)
    requires limit < U32_RANGE && ReadFront(s, limit).Got?
    ensures s == Frame(ReadFront(s, limit).payload) + ReadFront(s, limit).rest && |ReadFront(s, limit).payload| <= limit
  {
    var len := BytesWord(s[0], s[1], s[2], s[3]);
    HeaderBytes(s, len);
    ThreeParts(s, 4, len);
  }

  lemma HeaderBytes(s: seq<byte>, len: u32)
    requires |s| >= 4 && len == BytesWord(s[0], s[1], s[2], s[3])
    ensures WordBytes(AsU32(len)) == s[..4]
  {
    BytesWordInverse(s[0], s[1], s[2], s[3]);
    assert [s[0], s[1], s[2], s[3]] == s[..4];
  }

  lemma ThreeParts(s: seq<byte>, n: nat, len: nat)
    requires n + len <= |s|
    ensures s == s[..n] + s[n..n + len] + s[n + len..]
    ensures s[n..][..len] == s[n..n + len] && s[n..][len..] == s[n + len..]
  {
  }

  // ---- streams --------------------------------------------------------------------------------------

  class Pipe {
    var data: seq<byte>

    constructor (data: seq<byte>)
      ensures this.data == data
    {
      this.data := data;
    }

    /** Fills a buffer of the given length, or finds the end first and has used up what there was. */
    method ReadExact(n: nat) returns (buf: Option<seq<byte>>)
      modifies this
      ensures if n <= old(|data|) then buf == Some(old(data)[..n]) && data == old(data)[n..]
              else buf == None && data == []
    {
      if |data| < n {
        data := [];
        return None;
      }
      buf := Some(data[..n]);
      data := data[n..];
    }

    method WriteAll(bytes: seq<byte>)
      modifies this
      ensures data == old(data) + bytes
    {
      data := data + bytes;
    }
  }

  method ReadFrame(stdin: Pipe, limit: nat) returns (r: Result<Option<seq<byte>>, FrameError>)
    modifies stdin
    ensures match ReadFront(old(stdin.data), limit)
            case Clean => r == Ok(None)
            case Failed(e) => r == Err(e)
            case Got(p, rest) => r == Ok(Some(p)) && stdin.data == rest
  {
    ghost var whole := stdin.data;
    var header := stdin.ReadExact(4);
    if header.None? {
      return Ok(None);
    }
    var b := header.value;
    var len := BytesWord(b[0], b[1], b[2], b[3]);
    if len > limit {
      return Err(TooLarge);
    }
    var buf := stdin.ReadExact(len);
    if buf.None? {
      return Err(Truncated);
    }
    ThreeParts(whole, 4, len);
    r := Ok(Some(buf.value));
  }

  method WriteFrame(stdout: Pipe, payload: seq<byte>)
    modifies stdout
    ensures stdout.data == old(stdout.data) + Frame(payload)
  {
    stdout.WriteAll(WordBytes(AsU32(|payload|)));
    stdout.WriteAll(payload);
    Assoc(old(stdout.data), WordBytes(AsU32(|payload|)), payload);
  }

  // ---- the daemon ---------------------------------------------------------------------------------------

  datatype Request<+O> = Request(id: u64, op: O)

  datatype Reply<+P> = Done(id: u64, output: P) | Refused(id: u64, error: string)

  /** JSON and the worker, which is a state machine of its own. */
  datatype Service<!O, !P, !W> = Service(
    parse: seq<byte> -> Option<Request<O>>, render: Reply<P> -> seq<byte>, execute: (W, O) -> (W, Result<P, string>))

  function ReplyTo<O, P, W>(s: Service<O, P, W>, worker: W, frame: seq<byte>): (W, Reply<P>) {
    match s.parse(frame)
    case None => (worker, Refused(0, "bad request"))
    case Some(request) =>
      var (after, r) := s.execute(worker, request.op);
      (after, if r.Ok? then Done(request.id, r.value) else Refused(request.id, r.error))
  }

  function Replies<O, P, W>(s: Service<O, P, W>, worker: W, frames: seq<seq<byte>>): seq<Reply<P>> {
    if frames == [] then []
    else var (after, reply) := ReplyTo(s, worker, frames[0]); [reply] + Replies(s, after, frames[1..])
  }

  function Printed<O, P, W>(s: Service<O, P, W>, replies: seq<Reply<P>>): seq<seq<byte>> {
    if replies == [] then [] else [s.render(replies[0])] + Printed(s, replies[1..])
  }

  /** The id a frame asks to be answered under: its own, or 0 when it is no request. */
  function AskedId<O, P, W>(s: Service<O, P, W>, frame: seq<byte>): u64 {
    match s.parse(frame)
    case None => 0
    case Some(request) => request.id
  }

  /** The worker after it has executed the requests among some frames; other frames leave it alone. */
  function WorkerAfter<O, P, W>(s: Service<O, P, W>, worker: W, frames: seq<seq<byte>>): W {
    if frames == [] then worker
    else match s.parse(frames[0])
         case None => WorkerAfter(s, worker, frames[1..])
         case Some(request) => WorkerAfter(s, s.execute(worker, request.op).0, frames[1..])
  }

  /** The reply a frame gets: a refusal under id 0, or what executing its request gave, under its id. */
  ghost predicate Answers<O, P, W>(s: Service<O, P, W>, worker: W, frame: seq<byte>, reply: Reply<P>) {
    match s.parse(frame)
    case None => reply.Refused? && reply.id == 0
    case Some(request) =>
      match s.execute(worker, request.op).1
      case Ok(output) => reply == Done(request.id, output)
      case Err(error) => reply == Refused(request.id, error)
  }

  /**
   One reply a frame, in order: reply k answers frame k under its id, from the worker as the earlier frames
   left it.
   */
  lemma {:induction false} RepliesInOrder<O, P, W>(s: Service<O, P, W>, worker: W, frames: seq<seq<byte>>, k: nat)
    requires k < |frames|
    ensures |Replies(s, worker, frames)| == |frames|
    ensures var reply := Replies(s, worker, frames)[k];
            reply.id == AskedId(s, frames[k]) && Answers(s, WorkerAfter(s, worker, frames[..k]), frames[k], reply)
  {
    var after := ReplyTo(s, worker, frames[0]).0;
    if k == 0 {
      RepliesCount(s, after, frames[1..]);
      assert frames[..0] == [];
    } else {
      RepliesInOrder(s, after, frames[1..], k - 1);
      assert frames[..k][1..] == frames[1..][..k - 1];
    }
  }

  lemma {:induction false} RepliesCount<O, P, W>(s: Service<O, P, W>, worker: W, frames: seq<seq<byte>>)
    ensures |Replies(s, worker, frames)| == |frames|
  {
    if frames != [] {
      RepliesCount(s, ReplyTo(s, worker, frames[0]).0, frames[1..]);
    }
  }

  lemma FramesFirst(p: seq<byte>, rest: seq<seq<byte>>)
    ensures Frames([p] + rest) == Frame(p) + Frames(rest)
  {
    assert ([p] + rest)[1..] == rest;
  }

  /**
   The daemon reads to the end of its input. It writes one reply frame for every frame it could read, in
   order; a frame that is too large or cut off ends it with an error after the replies before.
   */
  method Serve<O, P, W>(s: Service<O, P, W>, start: W, input: Pipe, output: Pipe) returns (failed: Option<FrameError>)
    requires input != output
    modifies input, output
    ensures var r := ReadAll(old(input.data), 33_554_432);
            && failed == r.end
            && output.data == old(output.data) + Frames(Printed(s, Replies(s, start, r.payloads)))
  {
    var worker := start;
    ghost var whole := ReadAll(input.data, MAX_FRAME);
    ghost var out := Frames(Printed(s, Replies(s, start, whole.payloads)));
    while true
      invariant var r := ReadAll(input.data, MAX_FRAME);
                r.end == whole.end
                && old(output.data) + out == output.data + Frames(Printed(s, Replies(s, worker, r.payloads)))
      decreases |input.data|
    {
      ghost var r := ReadAll(input.data, MAX_FRAME);
      var frame := ReadFrame(input, MAX_FRAME);
      if frame.Err? {
        assert r.payloads == [] && output.data + [] == output.data;
        return Some(frame.error);
      }
      if frame.value.None? {
        assert r.payloads == [] && output.data + [] == output.data;
        return None;
      }
      var (after, reply) := ReplyTo(s, worker, frame.value.value);
      ghost var before := output.data;
      ghost var more := ReadAll(input.data, MAX_FRAME).payloads;
      WriteFrame(output, s.render(reply));
      assert ([frame.value.value] + more)[1..] == more;
      ghost var replies := Replies(s, after, more);
      assert ([reply] + replies)[1..] == replies;
      FramesFirst(s.render(reply), Printed(s, replies));
      Assoc(before, Frame(s.render(reply)), Frames(Printed(s, replies)));
      worker := after;
    }
  }

  // ---- the helper at the other end ------------------------------------------------------------------

  datatype CallError = NoReply | ReplyTooLarge | ReplyTruncated

  /** Sends a request and waits for one reply; here a stream that ends early is an error. */
  method HelperCall(stdin: Pipe, stdout: Pipe, request: seq<byte>) returns (r: Result<seq<byte>, CallError>)
    requires stdin != stdout
    modifies stdin, stdout
    ensures stdin.data == old(stdin.data) + Frame(request)
    ensures match ReadFront(old(stdout.data), 8_388_608)
            case Clean => r == Err(NoReply)
            case Failed(e) => r == Err(if e == TooLarge then ReplyTooLarge else ReplyTruncated)
            case Got(p, rest) => r == Ok(p) && stdout.data == rest
  {
    WriteFrame(stdin, request);
    ghost var whole := stdout.data;
    var header := stdout.ReadExact(4);
    if header.None? {
      return Err(NoReply);
    }
    var b := header.value;
    var len := BytesWord(b[0], b[1], b[2], b[3]);
    if len > MAX_REPLY {
      return Err(ReplyTooLarge);
    }
    var buf := stdout.ReadExact(len);
    if buf.None? {
      return Err(ReplyTruncated);
    }
    ThreeParts(whole, 4, len);
    r := Ok(buf.value);
  }

  /**
   A call through the daemon: what the helper gets back is the daemon's printed reply to its request,
   exactly when the request is within the daemon's limit and the reply within the helper's.
   */
  lemma CallThroughDaemon<O, P, W>(s: Service<O, P, W>, worker: W, request: seq<byte>)
    ensures var r := ReadAll(Frame(request), 33_554_432);
            var answer := Frames(Printed(s, Replies(s, worker, r.payloads)));
            var reply := s.render(ReplyTo(s, worker, request).1);
            |request| <= 33_554_432 ==>
              r == Reading([request], None)
              && (ReadFront(answer, 8_388_608) == Got(reply, []) <==> |reply| <= 8_388_608)
  {
    if |request| <= MAX_FRAME {
      FramesFirst(request, []);
      assert [request] + [] == [request] && Frame(request) + [] == Frame(request);
      StreamRoundTrip([request], MAX_FRAME);
      var reply := ReplyTo(s, worker, request).1;
      assert [request][1..] == [] && [reply] + [] == [reply] && [reply][1..] == [];
      FramesFirst(s.render(reply), []);
      assert [s.render(reply)] + [] == [s.render(reply)];
      FrameRoundTrip(s.render(reply), [], MAX_REPLY);
    }
  }
}
