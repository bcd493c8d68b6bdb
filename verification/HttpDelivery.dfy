/** What a handler observes over whole runs of a connection: a POST body reaches it unchanged
    however TCP cuts the stream. */
module HttpDelivery {
  import opened Common
  import opened HttpRequest
  import opened HttpLength
  import opened HttpServer
  import opened HttpStream

  ghost predicate AllDeliver(outs: seq<Output>, id: nat) {
    forall i :: 0 <= i < |outs| ==> outs[i].Deliver? && outs[i].id == id
  }

  /** A POST request about to be read: a complete head that fits the buffer, a registered
      handler, a body of the announced length, and whatever follows. */
  datatype Posting = Posting(start: Conn, head: string, body: string, more: string, handler: Handler)
  {
    function Stream(): string { head + body + more }
  }

  ghost predicate ValidPosting(sv: Server, p: Posting) {
    && Fresh(p.start) && p.start.pending == p.Stream()
    && HeaderEnd(p.head) == |p.head| && |p.head| <= sv.rxSize
    && |p.body| < TWO_32
    && exists url ::
         && ParseRequest(p.head) == Some(Request(Post, url, Some(|p.body|)))
         && FindHandler(sv.handlers, Post, url) == Some(p.handler)
  }

  /** The head is done and the first bytes of the body, but not all calls, have been made. */
  ghost predicate Receiving(p: Posting, s: Conn) {
    exists outs :: ReceivingWith(p, s, outs)
  }

  ghost predicate ReceivingWith(p: Posting, s: Conn, outs: seq<Output>) {
    && s.fileOffset <= |p.body|
    && s == p.start.(command := Post, handler := Some(p.handler), contentLength := |p.body|,
                     fileOffset := s.fileOffset, pending := p.body[s.fileOffset..] + p.more,
                     log := p.start.log + outs)
    && AllDeliver(outs, p.handler.id) && Texts(outs) == p.body[..s.fileOffset]
  }

  /** The request is over: the handler got the body in order and was then asked for its
      response exactly once, the connection is ready for the next request, and of the bytes
      that follow exactly the first `lost` are gone. */
  ghost predicate Answered(p: Posting, s: Conn, lost: nat) {
    exists outs, length, tail :: AnsweredWith(p, s, lost, outs, length, tail)
  }

  ghost predicate AnsweredWith(
    p: Posting, s: Conn, lost: nat, outs: seq<Output>, length: nat, tail: seq<Output>)
  {
    && AllDeliver(outs, p.handler.id) && Texts(outs) == p.body
    && (tail == [] || tail == [Reply(length)])
    && s.log == p.start.log + (outs + [Respond(p.handler.id), Header(OK, length)] + tail)
    && lost <= |p.more| && s == p.start.(pending := p.more[lost..], log := s.log)
  }

  /** How many bytes of the stream the receives of a run have taken until the head was complete. */
  ghost function TakenBy(sv: Server, p: Posting, es: seq<Env>): (n: nat)
    requires |p.head| <= sv.rxSize
    ensures n <= |p.Stream()|
  {
    Taken(sv, |p.head|, |p.Stream()|, es)
  }

  /** What the receive that completed the head returned beyond head and body. */
  function Excess(p: Posting, taken: nat): nat {
    if taken <= |p.head| + |p.body| then 0 else taken - |p.head| - |p.body|
  }

  /** Head or body are being received: what the handler has got is a prefix of the body. */
  ghost predicate InProgress(p: Posting, s: Conn, taken: nat) {
    || (taken < |p.head| && WaitingAt(p.start, p.Stream(), s, taken))
    || (|p.head| <= taken < |p.head| + |p.body| && Receiving(p, s))
  }

  // The step after the last body byte answers.
  lemma AnswerStep(p: Posting, s: Conn, outs: seq<Output>, lost: nat, e: Env)
    requires lost <= |p.more| && Clear(s) == p.start.(pending := p.more[lost..], log := s.log)
    requires s.log == p.start.log + outs && AllDeliver(outs, p.handler.id) && Texts(outs) == p.body
    ensures Answered(p, Answer(s, p.handler, e).conn, lost)
  {
    var length := Min(e.space, e.answer);
    var tail := if e.headerOk && e.answer < 0x8000_0000 then [Reply(length)] else [];
    var s' := Answer(s, p.handler, e).conn;
    assert s'.log == p.start.log + (outs + [Respond(p.handler.id), Header(OK, length)] + tail);
    assert AnsweredWith(p, s', lost, outs, length, tail);
  }

  // The next chunk of the body is handed over.
  lemma ChunkStep(p: Posting, s: Conn, outs: seq<Output>, n: nat)
    requires ReceivingWith(p, s, outs) && 0 < n <= |p.body| - s.fileOffset
    ensures Receiving(p, s.(fileOffset := s.fileOffset + n, pending := s.pending[n..],
                            log := s.log + [Deliver(p.handler.id, s.pending[..n])]))
  {
    var k, piece := s.fileOffset, Deliver(p.handler.id, s.pending[..n]);
    ChunkSlices(p.body, p.more, k, n);
    TextsAppend(outs, piece);
    DeliverAppend(outs, p.handler.id, s.pending[..n]);
    LogAppend(p.start.log, outs, piece);
    hide Texts, AllDeliver;
    var s' := s.(fileOffset := k + n, pending := p.body[k + n..] + p.more, log := p.start.log + (outs + [piece]));
    assert ReceivingWith(p, s', outs + [piece]);
  }

  lemma ChunkSlices(body: string, more: string, k: nat, n: nat)
    requires k + n <= |body|
    ensures (body[k..] + more)[..n] == body[k..k + n]
    ensures (body[k..] + more)[n..] == body[k + n..] + more
    ensures body[..k] + body[k..k + n] == body[..k + n]
  {
  }

  lemma DeliverAppend(outs: seq<Output>, id: nat, text: string)
    requires AllDeliver(outs, id)
    ensures AllDeliver(outs + [Deliver(id, text)], id)
  {
  }

  lemma LogAppend(log: seq<Output>, outs: seq<Output>, o: Output)
    ensures (log + outs) + [o] == log + (outs + [o])
  {
  }

  // A step in the body phase takes the next bytes of the body, or answers.
  lemma ReceivingStep(sv: Server, p: Posting, s: Conn, e: Env)
    requires sv.rxSize > 0 && Fresh(p.start) && Receiving(p, s) && e.connected
    ensures var r := Work(sv, s, e);
      && (s.fileOffset < |p.body| ==> Receiving(p, r.conn) && (r.closed <==> e.received < 0))
      && (s.fileOffset < |p.body| && e.received > 0 ==> r.conn.fileOffset > s.fileOffset)
      && (s.fileOffset == |p.body| ==> Answered(p, r.conn, 0))
  {
    var outs :| ReceivingWith(p, s, outs);
    hide Receiving, Answered, Texts, AllDeliver, ReadHead, SendFile;
    if s.fileOffset == |p.body| {
      assert s.pending == p.more[0..] && p.body[..s.fileOffset] == p.body;
      AnswerStep(p, s, outs, 0, e);
    } else if e.received > 0 {
      ChunkStep(p, s, outs, Received(e, Min(|p.body| - s.fileOffset, sv.rxSize), s.pending));
    }
  }

  // A complete head starts the POST handler.
  lemma PostDispatched(sv: Server, p: Posting, s: Conn, data: string, e: Env)
    requires ValidPosting(sv, p) && s == p.start.(rx := s.rx, pending := s.pending)
    ensures var k := Min(|p.body|, |data|);
      var s1 := s.(command := Post, contentLength := |p.body|, handler := Some(p.handler), fileOffset := k,
                   rx := "", log := s.log + if k == 0 then [] else [Deliver(p.handler.id, data[..k])]);
      Dispatch(sv, s, p.head, data, e) ==
        if k == |p.body| then Answer(s1, p.handler, e) else Outcome(s1, false)
  {
    hide ParseRequest, HeaderEnd, FindHandler, GetStart;
    assert s.log + [] == s.log;
  }

  // The head is complete and `d` bytes came with it.
  lemma HeadDone(sv: Server, p: Posting, s: Conn, d: nat, e: Env)
    requires ValidPosting(sv, p) && d <= |p.body + p.more|
    requires s == p.start.(rx := s.rx, pending := (p.body + p.more)[d..])
    ensures var r := Dispatch(sv, s, p.head, (p.body + p.more)[..d], e);
      if d < |p.body| then !r.closed && Receiving(p, r.conn) else Answered(p, r.conn, d - |p.body|)
  {
    hide ParseRequest, HeaderEnd, FindHandler, Dispatch, Answered, Texts;
    var data := (p.body + p.more)[..d];
    var k := Min(|p.body|, d);
    var outs := if k == 0 then [] else [Deliver(p.handler.id, data[..k])];
    PostDispatched(sv, p, s, data, e);
    FirstChunk(p, data, k, outs);
    var s1 := s.(command := Post, contentLength := |p.body|, handler := Some(p.handler), fileOffset := k,
                 rx := "", log := s.log + outs);
    if k < |p.body| {
      assert s.pending == p.body[k..] + p.more;
      assert ReceivingWith(p, s1, outs);
    } else {
      assert s.pending == p.more[d - |p.body|..];
      AnswerStep(p, s1, outs, d - |p.body|, e);
    }
  }

  lemma FirstChunk(p: Posting, data: string, k: nat, outs: seq<Output>)
    requires k <= |data| && k <= |p.body| && data[..k] == p.body[..k]
    requires outs == if k == 0 then [] else [Deliver(p.handler.id, data[..k])]
    ensures AllDeliver(outs, p.handler.id) && Texts(outs) == p.body[..k]
    ensures k == |p.body| ==> Texts(outs) == p.body
  {
    if k > 0 {
      TextsAppend([], outs[0]);
      assert [] + outs == outs;
    }
  }

  lemma TailSlices(head: string, body: string, more: string, k: nat)
    requires |head| <= k <= |head + body + more|
    ensures (head + body + more)[|head|..k] == (body + more)[..k - |head|]
    ensures (head + body + more)[k..] == (body + more)[k - |head|..]
  {
  }

  // A step in the head phase stays in it, or moves into the body, or answers at once.
  lemma WaitingStep(sv: Server, p: Posting, s: Conn, n: nat, e: Env)
    requires ValidPosting(sv, p) && n < |p.head| && WaitingAt(p.start, p.Stream(), s, n) && e.connected
    ensures var r, k := Work(sv, s, e), n + Got(sv, e, n, |p.Stream()|);
      && (e.received > 0 ==> k > n)
      && (k < |p.head| + |p.body| ==> !r.closed && InProgress(p, r.conn, k))
      && (k >= |p.head| + |p.body| ==> Answered(p, r.conn, Excess(p, k)))
  {
    hide Work, Dispatch, ParseRequest, FindHandler, HeaderEnd, Answered, Receiving;
    var stream, k := p.Stream(), n + Got(sv, e, n, |p.Stream()|);
    assert p.head <= stream;
    HeadStep(sv, p.start, p.head, stream, s, n, e);
    if k >= |p.head| {
      TailSlices(p.head, p.body, p.more, k);
      HeadDone(sv, p, p.start.(rx := stream[..k], pending := stream[k..]), k - |p.head|, e);
    }
  }

  // Any step of a request in progress: the receive takes `k` bytes in all.
  lemma ProgressStep(sv: Server, p: Posting, s: Conn, n: nat, e: Env)
    requires ValidPosting(sv, p) && InProgress(p, s, n)
    ensures n <= |p.Stream()| && n <= sv.rxSize ==>
      var r, k := Work(sv, s, e), TakenNext(sv, |p.head|, |p.Stream()|, n, e, e.connected);
      || Answered(p, r.conn, Excess(p, k))
      || (InProgress(p, r.conn, k) && (r.closed ==> !e.connected || (e.received < 0 && k >= |p.head|)))
  {
    hide ParseRequest, HeaderEnd, FindHandler, ReadHead, PostNext, SendFile, Answered, Receiving;
    if e.connected && n <= |p.Stream()| && n <= sv.rxSize {
      if n < |p.head| {
        WaitingStep(sv, p, s, n, e);
      } else {
        BodyStep(sv, p, s, n, e);
      }
    }
  }

  lemma BodyStep(sv: Server, p: Posting, s: Conn, n: nat, e: Env)
    requires ValidPosting(sv, p) && |p.head| <= n < |p.head| + |p.body| && Receiving(p, s) && e.connected
    ensures var r := Work(sv, s, e);
      || Answered(p, r.conn, Excess(p, n))
      || (Receiving(p, r.conn) && (r.closed ==> e.received < 0) &&
          (e.received > 0 ==> r.conn.fileOffset > s.fileOffset))
  {
    hide ParseRequest, HeaderEnd, FindHandler, Work, Answered;
    ReceivingStep(sv, p, s, e);
  }

  lemma StartsWaiting(sv: Server, p: Posting)
    requires ValidPosting(sv, p)
    ensures InProgress(p, p.start, 0)
  {
    hide ParseRequest, HeaderEnd, FindHandler;
  }

  /** A run broken off: by a lost connection, or by a receive error in the body. */
  ghost predicate Broken(p: Posting, es: seq<Env>, taken: nat) {
    || !AllConnected(es)
    || (taken >= |p.head| && exists n :: 0 <= n < |es| && es[n].received < 0)
  }

  lemma StaysBroken(sv: Server, p: Posting, es: seq<Env>)
    requires |p.head| <= sv.rxSize && es != [] && Broken(p, es[..|es| - 1], TakenBy(sv, p, es[..|es| - 1]))
    ensures TakenBy(sv, p, es) == TakenBy(sv, p, es[..|es| - 1]) && Broken(p, es, TakenBy(sv, p, es))
  {
    var n := |es| - 1;
    assert forall i :: 0 <= i < n ==> es[..n][i] == es[i];
  }

  // Safety, for every run and every cut of the stream: until the answer is given, what the
  // handler has got is a prefix of the body, also when a lost connection or a receive error,
  // and nothing else, has broken it off. The answer comes after exactly the body, and then
  // exactly what the receive that completed the head returned beyond the body is lost.
  lemma {:induction false} PostNeverCorrupted(sv: Server, p: Posting, es: seq<Env>)
    requires ValidPosting(sv, p)
    requires forall n :: 0 <= n < |es| ==>
      !Answered(p, Run(sv, p.start, es[..n]).conn, Excess(p, TakenBy(sv, p, es[..n])))
    ensures var r, taken := Run(sv, p.start, es), TakenBy(sv, p, es);
      || Answered(p, r.conn, Excess(p, taken))
      || (InProgress(p, r.conn, taken) && (r.closed ==> Broken(p, es, taken)))
  {
    hide HeaderEnd, ParseRequest, FindHandler, Work, Answered, Receiving, Broken, TakenNext;
    if es == [] {
      StartsWaiting(sv, p);
    } else {
      var n := |es| - 1;
      assert forall m :: 0 <= m < n ==> es[..n][..m] == es[..m];
      PostNeverCorrupted(sv, p, es[..n]);
      if Run(sv, p.start, es[..n]).closed {
        StaysBroken(sv, p, es);
      } else {
        OpenIsConnected(sv, p.start, es[..n]);
        RunStep(sv, p, es);
      }
    }
  }

  lemma RunStep(sv: Server, p: Posting, es: seq<Env>)
    requires ValidPosting(sv, p) && es != [] && AllConnected(es[..|es| - 1])
    requires var most := es[..|es| - 1];
      !Run(sv, p.start, most).closed && InProgress(p, Run(sv, p.start, most).conn, TakenBy(sv, p, most))
    ensures var r, taken := Run(sv, p.start, es), TakenBy(sv, p, es);
      || Answered(p, r.conn, Excess(p, taken))
      || (InProgress(p, r.conn, taken) && (r.closed ==> Broken(p, es, taken)))
  {
    hide HeaderEnd, ParseRequest, FindHandler, Work, Answered, Receiving;
    var n := |es| - 1;
    assert AllConnected(es) <==> es[n].connected;
    ProgressStep(sv, p, Run(sv, p.start, es[..n]).conn, TakenBy(sv, p, es[..n]), es[n]);
  }

  // ---------------------------------------------------------------- progress

  /** How many steps with data the request still needs at most. */
  function StepsLeft(p: Posting, s: Conn, taken: nat): int {
    if taken < |p.head| then |p.head| - taken + |p.body| + 1 else |p.body| - s.fileOffset + 1
  }

  // Every step that gets data brings the answer closer.
  lemma ProgressMade(sv: Server, p: Posting, s: Conn, n: nat, e: Env)
    requires ValidPosting(sv, p) && InProgress(p, s, n) && e.connected && e.received > 0
    requires n <= |p.Stream()| && n <= sv.rxSize
    ensures StepsLeft(p, s, n) > 0
    ensures var r, k := Work(sv, s, e), TakenNext(sv, |p.head|, |p.Stream()|, n, e, true);
      || Answered(p, r.conn, Excess(p, k))
      || (!r.closed && InProgress(p, r.conn, k) && StepsLeft(p, r.conn, k) < StepsLeft(p, s, n))
  {
    hide ParseRequest, HeaderEnd, FindHandler, Work, Answered;
    if n < |p.head| {
      WaitingStep(sv, p, s, n, e);
    } else {
      BodyStep(sv, p, s, n, e);
    }
  }

  lemma RunProgress(sv: Server, p: Posting, es: seq<Env>)
    requires ValidPosting(sv, p) && es != [] && AllConnected(es) && es[|es| - 1].received > 0
    requires var most := es[..|es| - 1];
      !Run(sv, p.start, most).closed && InProgress(p, Run(sv, p.start, most).conn, TakenBy(sv, p, most))
    ensures var r, taken, most := Run(sv, p.start, es), TakenBy(sv, p, es), es[..|es| - 1];
      var before := StepsLeft(p, Run(sv, p.start, most).conn, TakenBy(sv, p, most));
      && before > 0
      && (|| Answered(p, r.conn, Excess(p, taken))
          || (!r.closed && InProgress(p, r.conn, taken) && StepsLeft(p, r.conn, taken) < before))
  {
    hide HeaderEnd, ParseRequest, FindHandler, Work, Answered, Receiving, StepsLeft;
    var n := |es| - 1;
    ProgressMade(sv, p, Run(sv, p.start, es[..n]).conn, TakenBy(sv, p, es[..n]), es[n]);
  }

  // Liveness: as long as data keeps coming, in whatever portions, the answer is given
  // after at most one step per byte of head and body, and one more.
  lemma {:induction false} PostIsAnswered(sv: Server, p: Posting, es: seq<Env>)
    requires ValidPosting(sv, p) && |es| > |p.head| + |p.body|
    requires forall i :: 0 <= i < |es| ==> es[i].connected && es[i].received > 0
    ensures exists n ::
      0 <= n <= |es| && Answered(p, Run(sv, p.start, es[..n]).conn, Excess(p, TakenBy(sv, p, es[..n])))
  {
    hide HeaderEnd, ParseRequest, FindHandler, Work, Answered, Receiving, TakenNext, Run;
    StartsWaiting(sv, p);
    assert Run(sv, p.start, es[..0]) == Outcome(p.start, false) by { NoStep(sv, p.start); }
    var n := 0;
    while n < |es|
      invariant 0 <= n <= |es|
      invariant var r, taken := Run(sv, p.start, es[..n]), TakenBy(sv, p, es[..n]);
        !r.closed && InProgress(p, r.conn, taken) && 0 < StepsLeft(p, r.conn, taken) + n <= |p.head| + |p.body| + 1
      invariant n > 0 ==> StepsLeft(p, Run(sv, p.start, es[..n]).conn, TakenBy(sv, p, es[..n])) > 0
    {
      assert es[..n + 1][..n] == es[..n];
      RunProgress(sv, p, es[..n + 1]);
      if Answered(p, Run(sv, p.start, es[..n + 1]).conn, Excess(p, TakenBy(sv, p, es[..n + 1]))) {
        return;
      }
      LeftIsPositive(p, Run(sv, p.start, es[..n + 1]).conn, TakenBy(sv, p, es[..n + 1]));
      n := n + 1;
    }
  }

  lemma NoStep(sv: Server, s: Conn)
    ensures Run(sv, s, []) == Outcome(s, false)
  {
  }

  lemma LeftIsPositive(p: Posting, s: Conn, taken: nat)
    requires InProgress(p, s, taken)
    ensures StepsLeft(p, s, taken) > 0
  {
  }

  // The common form of a POST request, with the announced body, is a valid posting.
  lemma WellFormedPostIsValid(sv: Server, p: Posting, url: string, version: string, rest: string)
    requires p.head == RequestHead("POST", url, version, rest) && IsToken(url) && IsToken(version)
    requires HeaderEnd(p.head) == |p.head| <= sv.rxSize && |p.body| < TWO_32
    requires LastAnnounces(HeaderLines(rest), |p.body|)
    requires FindHandler(sv.handlers, Post, url) == Some(p.handler)
    requires Fresh(p.start) && p.start.pending == p.Stream()
    ensures ValidPosting(sv, p)
  {
    hide ParseRequest, FindHandler, HeaderEnd, LastAnnounces, HeaderLines, IsToken;
    LastIsRead(HeaderLines(rest), |p.body|);
    WellFormedRequest(2, p.head, url, version, rest);
  }

  // So is one written out line by line, the last length line of which spells the length in decimal.
  lemma SpelledPostIsValid(sv: Server, p: Posting, url: string, version: string, lines: seq<string>)
    requires p.head == HeadOf("POST", url, version, lines) && IsToken(url) && IsToken(version)
    requires ProperLines(lines) && LastAnnounces(lines, |p.body|) && |p.head| <= sv.rxSize && |p.body| < TWO_32
    requires FindHandler(sv.handlers, Post, url) == Some(p.handler)
    requires Fresh(p.start) && p.start.pending == p.Stream()
    ensures ValidPosting(sv, p)
  {
    hide FindHandler, HeaderEnd, LastAnnounces, HeaderLines, IsToken, Joined, ProperLines, ValidPosting;
    assert COMMANDS[2].0 == "POST";
    HeadOfEnds(2, url, version, lines);
    WellFormedPostIsValid(sv, p, url, version, Joined(lines));
  }

  // For example with the one line that a client would write.
  lemma PlainPostIsValid(sv: Server, p: Posting, url: string, version: string)
    requires p.head == HeadOf("POST", url, version, ["Content-Length: " + Spelled(|p.body|)])
    requires IsToken(url) && IsToken(version) && |p.head| <= sv.rxSize && |p.body| < TWO_32
    requires FindHandler(sv.handlers, Post, url) == Some(p.handler)
    requires Fresh(p.start) && p.start.pending == p.Stream()
    ensures ValidPosting(sv, p)
  {
    PlainLine(|p.body|);
    hide FindHandler, LastAnnounces, IsToken, Joined, ProperLines, ValidPosting, Spelled;
    SpelledPostIsValid(sv, p, url, version, ["Content-Length: " + Spelled(|p.body|)]);
  }

  // ------------------------------------------------------------ what follows

  // Whether the bytes that follow survive depends on the cut: they do exactly if the receive
  // that completed the head returned no more than head and body.
  lemma FollowingBytesKeptIff(sv: Server, p: Posting, es: seq<Env>)
    requires |p.head| <= sv.rxSize
    requires Answered(p, Run(sv, p.start, es).conn, Excess(p, TakenBy(sv, p, es)))
    ensures var taken, left := TakenBy(sv, p, es), Run(sv, p.start, es).conn.pending;
      && left == p.more[Excess(p, taken)..]
      && (left == p.more <==> taken <= |p.head| + |p.body| || p.more == "")
  {
    hide Run, Taken;
  }

  // In particular nothing is left of a stream that one receive takes whole.
  lemma PipelinedBytesAreDropped(sv: Server, p: Posting, e: Env)
    requires ValidPosting(sv, p) && |p.Stream()| <= sv.rxSize && e.connected && e.received >= |p.Stream()|
    ensures Work(sv, p.start, e).conn.pending == ""
  {
    hide HeaderEnd, ParseRequest, FindHandler, Work;
    StartsWaiting(sv, p);
    WaitingStep(sv, p, p.start, 0, e);
  }
}
