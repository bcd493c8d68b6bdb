/** Which handler or file a request finds, and the calls with which a request is answered or
    refused, over whole runs. */
module HttpReplies {
  import opened Common
  import opened HttpRequest
  import opened HttpServer
  import opened HttpStream
  import opened HttpDelivery

  // ------------------------------------------------------------- registration

  predicate HandlerFits(h: Handler, command: Command, url: string) {
    h.command == command && h.path == url
  }

  /** Entry `i` is the first one registered for the command and the path. */
  ghost predicate IsFirstHandler(hs: seq<Handler>, command: Command, url: string, i: int) {
    0 <= i < |hs| && HandlerFits(hs[i], command, url) && forall j :: 0 <= j < i ==> !HandlerFits(hs[j], command, url)
  }

  // A registered handler is found, and it is the first one.
  lemma {:induction false} HandlerIsFound(hs: seq<Handler>, command: Command, url: string, i: int)
    requires IsFirstHandler(hs, command, url, i)
    ensures FindHandler(hs, command, url) == Some(hs[i])
  {
    if i > 0 {
      assert !HandlerFits(hs[0], command, url);
      assert forall j :: 0 <= j < i - 1 ==> hs[1..][j] == hs[j + 1];
      HandlerIsFound(hs[1..], command, url, i - 1);
    }
  }

  lemma {:induction false} NoHandlerIff(hs: seq<Handler>, command: Command, url: string)
    ensures FindHandler(hs, command, url) == None <==> forall i :: 0 <= i < |hs| ==> !HandlerFits(hs[i], command, url)
  {
    if hs != [] {
      NoHandlerIff(hs[1..], command, url);
      assert forall i :: 0 < i < |hs| ==> hs[i] == hs[1..][i - 1];
    }
  }

  ghost predicate IsFirstFile(fs: seq<File>, url: string, i: int) {
    0 <= i < |fs| && fs[i].path == url && forall j :: 0 <= j < i ==> fs[j].path != url
  }

  lemma {:induction false} FileIsFound(fs: seq<File>, url: string, i: int)
    requires IsFirstFile(fs, url, i)
    ensures FindFile(fs, url) == Some(fs[i])
  {
    if i > 0 {
      assert forall j :: 0 <= j < i - 1 ==> fs[1..][j] == fs[j + 1];
      FileIsFound(fs[1..], url, i - 1);
    }
  }

  lemma {:induction false} NoFileIff(fs: seq<File>, url: string)
    ensures FindFile(fs, url) == None <==> forall i :: 0 <= i < |fs| ==> fs[i].path != url
  {
    if fs != [] {
      NoFileIff(fs[1..], url);
      assert forall i :: 0 < i < |fs| ==> fs[i] == fs[1..][i - 1];
    }
  }

  // -------------------------------------------------------- to the end of a head

  /** The last step of a run completes the head. */
  ghost predicate Completes(sv: Server, head: string, stream: string, es: seq<Env>)
    requires |head| <= sv.rxSize
  {
    && es != [] && AllConnected(es)
    && Taken(sv, |head|, |stream|, es[..|es| - 1]) < |head| <= Taken(sv, |head|, |stream|, es)
  }

  // Until then nothing happens; then exactly the head is dispatched.
  lemma {:induction false} HeadPhase(sv: Server, start: Conn, head: string, stream: string, es: seq<Env>)
    requires |head| <= sv.rxSize && HeaderEnd(head) == |head| && head <= stream
    requires Fresh(start) && start.pending == stream && AllConnected(es)
    requires es != [] ==> Taken(sv, |head|, |stream|, es[..|es| - 1]) < |head|
    ensures var k := Taken(sv, |head|, |stream|, es);
      var s := start.(rx := stream[..k], pending := stream[k..]);
      Run(sv, start, es) ==
        if es == [] || k < |head| then Outcome(s, false) else Dispatch(sv, s, head, stream[|head|..k], es[|es| - 1])
  {
    hide Work, Dispatch, HeaderEnd;
    if es == [] {
      assert stream[..0] == "" && stream[0..] == stream;
    } else {
      var n := |es| - 1;
      var most := es[..n];
      HeadPhase(sv, start, head, stream, most);
      var m := Taken(sv, |head|, |stream|, most);
      HeadStep(sv, start, head, stream, start.(rx := stream[..m], pending := stream[m..]), m, es[n]);
    }
  }

  // ------------------------------------------------------------------ answers

  /** What a handler's response looks like from outside: it is asked once, and the smaller one of its
      answer and the transmit space is announced and, if the header went out, sent. */
  predicate IsAnswer(id: nat, e: Env, calls: seq<Output>) {
    var n := if e.answer < e.space then e.answer else e.space;
    calls == [Respond(id), Header(200, n)] + if e.headerOk && e.answer < 0x8000_0000 then [Reply(n)] else []
  }

  predicate AnswerFails(e: Env) { e.answer >= 0x8000_0000 || (e.headerOk && !e.bodyOk) }

  lemma AnswerCalls(s: Conn, h: Handler, e: Env) returns (calls: seq<Output>)
    ensures IsAnswer(h.id, e, calls)
    ensures Answer(s, h, e) == Outcome(Clear(s).(log := s.log + calls), AnswerFails(e))
  {
    var n := if e.answer < e.space then e.answer else e.space;
    var tail := if e.headerOk && e.answer < 0x8000_0000 then [Reply(n)] else [];
    calls := [Respond(h.id), Header(200, n)] + tail;
    assert s.log + calls == s.log + [Respond(h.id), Header(200, n)] + tail;
  }

  /** The outcome of a request that is answered or refused in the step that completes its head. */
  function AtOnce(start: Conn, stream: string, taken: nat, calls: seq<Output>, closed: bool): Outcome
    requires taken <= |stream|
  {
    Outcome(start.(pending := stream[taken..], log := start.log + calls), closed)
  }

  // A GET for a registered handler: the first one is asked, for every cut of the request.
  lemma GetAsksHandler(
    sv: Server, start: Conn, head: string, more: string, es: seq<Env>, url: string, length: Option<UInt32>, i: int)
    returns (calls: seq<Output>)
    requires |head| <= sv.rxSize && HeaderEnd(head) == |head| && Fresh(start) && start.pending == head + more
    requires Completes(sv, head, head + more, es) && ParseRequest(head) == Some(Request(Get, url, length))
    requires IsFirstHandler(sv.handlers, Get, url, i) && sv.handlers[i].hasFunction
    ensures IsAnswer(sv.handlers[i].id, es[|es| - 1], calls)
    ensures Run(sv, start, es) ==
      AtOnce(start, head + more, Taken(sv, |head|, |head + more|, es), calls, AnswerFails(es[|es| - 1]))
  {
    hide ParseRequest, HeaderEnd, FindHandler, FindFile, Run, Taken, Answer, IsAnswer;
    var stream, e := head + more, es[|es| - 1];
    assert head <= stream;
    HeadPhase(sv, start, head, stream, es);
    HandlerIsFound(sv.handlers, Get, url, i);
    var k := Taken(sv, |head|, |stream|, es);
    calls := AnswerCalls(start.(pending := stream[k..]), sv.handlers[i], e);
  }

  /** Why a complete head is refused, by status. */
  ghost predicate RefusedWith(sv: Server, head: string, status: nat) {
    match ParseRequest(head)
    case None => status == 400
    case Some(Request(command, url, length)) =>
      if command == Post then
        if length == None then status == 400
        else status == 404 && forall i :: 0 <= i < |sv.handlers| ==> !HandlerFits(sv.handlers[i], Post, url)
      else
        && command == Get
        && (|| (status == 500 && exists i :: IsFirstHandler(sv.handlers, Get, url, i) && !sv.handlers[i].hasFunction)
            || (&& status == 404
                && (forall i :: 0 <= i < |sv.handlers| ==> !HandlerFits(sv.handlers[i], Get, url))
                && (forall i :: 0 <= i < |sv.files| ==> sv.files[i].path != url)))
  }

  // A refused request gets one header with its status and no body, for every cut of the request;
  // a bad one also ends the connection.
  lemma RefusalIsSent(sv: Server, start: Conn, head: string, more: string, es: seq<Env>, status: nat)
    requires |head| <= sv.rxSize && HeaderEnd(head) == |head| && Fresh(start) && start.pending == head + more
    requires Completes(sv, head, head + more, es) && RefusedWith(sv, head, status)
    ensures Run(sv, start, es) ==
      AtOnce(start, head + more, Taken(sv, |head|, |head + more|, es), [Header(status, 0)],
             status == 400 || !es[|es| - 1].headerOk)
  {
    hide HeaderEnd, Run, Taken, Dispatch;
    var stream, e := head + more, es[|es| - 1];
    assert head <= stream;
    HeadPhase(sv, start, head, stream, es);
    var k := Taken(sv, |head|, |stream|, es);
    DispatchRefuses(sv, start.(rx := stream[..k], pending := stream[k..]), head, stream[|head|..k], e, status);
  }

  lemma DispatchRefuses(sv: Server, s: Conn, head: string, data: string, e: Env, status: nat)
    requires RefusedWith(sv, head, status)
    ensures Dispatch(sv, s, head, data, e) ==
      Outcome(Clear(s).(log := s.log + [Header(status, 0)]), status == 400 || !e.headerOk)
  {
    hide ParseRequest, FindHandler, FindFile;
    match ParseRequest(head)
    case None =>
    case Some(Request(command, url, length)) =>
      if command == Post {
        NoHandlerIff(sv.handlers, Post, url);
      } else if status == 404 {
        NoHandlerIff(sv.handlers, Get, url);
        NoFileIff(sv.files, url);
      } else {
        var i :| IsFirstHandler(sv.handlers, Get, url, i) && !sv.handlers[i].hasFunction;
        HandlerIsFound(sv.handlers, Get, url, i);
      }
  }

  // A request with any other method is read and gets no answer.
  lemma OthersAreIgnored(
    sv: Server, start: Conn, head: string, more: string, es: seq<Env>, command: Command, url: string,
    length: Option<UInt32>)
    requires |head| <= sv.rxSize && HeaderEnd(head) == |head| && Fresh(start) && start.pending == head + more
    requires Completes(sv, head, head + more, es) && command != Get && command != Post
    requires ParseRequest(head) == Some(Request(command, url, length))
    ensures Run(sv, start, es) == AtOnce(start, head + more, Taken(sv, |head|, |head + more|, es), [], false)
  {
    hide ParseRequest, HeaderEnd, Run, Taken;
    var stream := head + more;
    assert head <= stream && start.log + [] == start.log;
    HeadPhase(sv, start, head, stream, es);
  }

  // --------------------------------------------------------------- a head too long

  lemma NoEndBefore(stream: string, size: nat, n: nat)
    requires n <= size <= |stream| && HeaderEnd(stream[..size]) < 0
    ensures HeaderEnd(stream[..n]) < 0
  {
    hide HeaderEnd;
    assert forall i: nat :: BlankLineAt(stream[..n], i) ==> BlankLineAt(stream[..size], i);
  }

  // A head that does not end within the buffer is refused when the buffer is full, and reading
  // goes on behind it.
  lemma {:induction false} LongHeadIsRefused(sv: Server, start: Conn, stream: string, es: seq<Env>)
    requires Fresh(start) && start.pending == stream && AllConnected(es)
    requires 0 < sv.rxSize <= |stream| && HeaderEnd(stream[..sv.rxSize]) < 0
    requires es != [] ==> Taken(sv, sv.rxSize, |stream|, es[..|es| - 1]) < sv.rxSize
    ensures var k := Taken(sv, sv.rxSize, |stream|, es);
      Run(sv, start, es) ==
        if k < sv.rxSize then Outcome(start.(rx := stream[..k], pending := stream[k..]), false)
        else Outcome(start.(pending := stream[k..], log := start.log + [Header(400, 0)]), false)
  {
    hide Work, HandleRx, HeaderEnd;
    if es == [] {
      assert stream[..0] == "" && stream[0..] == stream;
    } else {
      var most, e := es[..|es| - 1], es[|es| - 1];
      LongHeadIsRefused(sv, start, stream, most);
      var m, k := Taken(sv, sv.rxSize, |stream|, most), Taken(sv, sv.rxSize, |stream|, es);
      var s := start.(rx := stream[..m], pending := stream[m..]);
      if e.received <= 0 {
        QuietStep(sv, s, e);
      } else {
        ReadStep(sv, s, stream, m, e);
        LongHeadStep(sv, start, stream, k, e);
      }
    }
  }

  lemma LongHeadStep(sv: Server, start: Conn, stream: string, k: nat, e: Env)
    requires Fresh(start) && k <= sv.rxSize <= |stream| && HeaderEnd(stream[..sv.rxSize]) < 0
    ensures var s := start.(rx := stream[..k], pending := stream[k..]);
      HandleRx(sv, s, e) == if k < sv.rxSize then Outcome(s, false)
                            else Outcome(start.(pending := stream[k..], log := start.log + [Header(400, 0)]), false)
  {
    hide HeaderEnd, Dispatch;
    NoEndBefore(stream, sv.rxSize, k);
  }

  // ------------------------------------------------------------ answers to a POST

  // The step that ends a POST asks its handler and sends the answer.
  lemma PostAnswerIsSent(sv: Server, p: Posting, s: Conn, n: nat, e: Env)
    returns (outs: seq<Output>, calls: seq<Output>)
    requires ValidPosting(sv, p) && InProgress(p, s, n) && n <= |p.Stream()| && n <= sv.rxSize && e.connected
    requires !InProgress(p, Work(sv, s, e).conn, TakenNext(sv, |p.head|, |p.Stream()|, n, e, true))
    ensures IsAnswer(p.handler.id, e, calls) && AllDeliver(outs, p.handler.id) && Texts(outs) == p.body
    ensures Work(sv, s, e).conn.log == p.start.log + (outs + calls) && Work(sv, s, e).closed == AnswerFails(e)
  {
    hide ParseRequest, HeaderEnd, FindHandler, IsAnswer, Answer, AnswerFails;
    if n < |p.head| {
      outs, calls := AnsweredAtHead(sv, p, s, n, e);
    } else {
      hide InProgress, TakenNext, Work;
      outs, calls := AnsweredInBody(sv, p, s, n, e);
    }
  }

  lemma AnsweredInBody(sv: Server, p: Posting, s: Conn, n: nat, e: Env) returns (outs: seq<Output>, calls: seq<Output>)
    requires ValidPosting(sv, p) && InProgress(p, s, n) && |p.head| <= n && e.connected
    requires !InProgress(p, Work(sv, s, e).conn, n)
    ensures IsAnswer(p.handler.id, e, calls) && AllDeliver(outs, p.handler.id) && Texts(outs) == p.body
    ensures Work(sv, s, e).conn.log == p.start.log + (outs + calls) && Work(sv, s, e).closed == AnswerFails(e)
  {
    hide ParseRequest, HeaderEnd, FindHandler, IsAnswer, Answer, AnswerFails;
    ReceivingStep(sv, p, s, e);
    hide ReadHead, SendFile;
    outs :| ReceivingWith(p, s, outs);
    assert s.fileOffset == |p.body| && p.body[..|p.body|] == p.body;
    hide Texts, AllDeliver;
    calls := AnswerCalls(s, p.handler, e);
    assert Work(sv, s, e) == Answer(s, p.handler, e);
    LogOfBoth(p.start.log, outs, calls);
  }

  lemma LogOfBoth(log: seq<Output>, a: seq<Output>, b: seq<Output>)
    ensures (log + a) + b == log + (a + b)
  {
  }

  lemma AnsweredAtHead(sv: Server, p: Posting, s: Conn, n: nat, e: Env) returns (outs: seq<Output>, calls: seq<Output>)
    requires ValidPosting(sv, p) && WaitingAt(p.start, p.Stream(), s, n) && n < |p.head| && e.connected
    requires !InProgress(p, Work(sv, s, e).conn, n + Got(sv, e, n, |p.Stream()|))
    ensures IsAnswer(p.handler.id, e, calls) && AllDeliver(outs, p.handler.id) && Texts(outs) == p.body
    ensures Work(sv, s, e).conn.log == p.start.log + (outs + calls) && Work(sv, s, e).closed == AnswerFails(e)
  {
    hide ParseRequest, HeaderEnd, FindHandler, IsAnswer, AnswerFails, Dispatch, Work, Texts, AllDeliver, Got, Answered;
    var stream, k := p.Stream(), n + Got(sv, e, n, |p.Stream()|);
    WaitingStep(sv, p, s, n, e);
    assert p.head <= stream && k >= |p.head| + |p.body|;
    HeadStep(sv, p.start, p.head, stream, s, n, e);
    hide InProgress, ValidPosting;
    TailSlices(p.head, p.body, p.more, k);
    var s0 := p.start.(rx := stream[..k], pending := stream[k..]);
    outs, calls := DispatchAnswers(sv, p, s0, k - |p.head|, e);
  }

  // The head is dispatched with the whole body behind it.
  lemma DispatchAnswers(sv: Server, p: Posting, s: Conn, d: nat, e: Env)
    returns (outs: seq<Output>, calls: seq<Output>)
    requires ValidPosting(sv, p) && s == p.start.(rx := s.rx, pending := s.pending)
    requires |p.body| <= d <= |p.body + p.more|
    ensures IsAnswer(p.handler.id, e, calls) && AllDeliver(outs, p.handler.id) && Texts(outs) == p.body
    ensures var r := Dispatch(sv, s, p.head, (p.body + p.more)[..d], e);
      r.conn.log == p.start.log + (outs + calls) && r.closed == AnswerFails(e)
  {
    var data := (p.body + p.more)[..d];
    assert data[..|p.body|] == p.body && p.body[..|p.body|] == p.body;
    outs := if |p.body| == 0 then [] else [Deliver(p.handler.id, data[..|p.body|])];
    FirstChunk(p, data, |p.body|, outs);
    PostDispatched(sv, p, s, data, e);
    hide ValidPosting, Dispatch, Texts, AllDeliver, IsAnswer, Answer, AnswerFails;
    var s1 := s.(command := Post, contentLength := |p.body|, handler := Some(p.handler), fileOffset := |p.body|,
                 rx := "", log := s.log + outs);
    calls := AnswerCalls(s1, p.handler, e);
    LogOfBoth(p.start.log, outs, calls);
  }
}
