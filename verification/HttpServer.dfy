/** One client connection of the HTTP server as a step machine over values. Each call
    of `Work` is one pass of the server loop over the client. */
module HttpServer {
  import opened Common
  import opened HttpRequest

  datatype Handler = Handler(id: nat, path: string, command: Command, hasFunction: bool)
  datatype File = File(path: string, data: string)

  datatype Server = Server(handlers: seq<Handler>, files: seq<File>, rxSize: nat, txSize: nat)

  /** Calls the server makes to the outside, in order. `Deliver` hands body bytes to a
      handler, `Respond` asks it for its response. */
  datatype Output =
    | Header(status: nat, length: nat)
    | Body(text: string)
    | Deliver(id: nat, text: string)
    | Respond(id: nat)
    | Reply(length: nat)

  /** A client. `rx` is the filled part of the receive buffer, `pending` what the peer has
      sent and TCP has not handed over yet, `log` the calls made so far. */
  datatype Conn = Conn(
    command: Command, file: Option<File>, handler: Option<Handler>, fileOffset: nat,
    contentLength: nat, headerSent: bool, rx: string, pending: string, log: seq<Output>)

  /** What the network and the application answer during one step: `received` bounds the
      bytes that recv returns (negative: an error), `answer` is the handler's response size,
      and `sends` lists, for the file loop, the transmit space and the fate of each send. */
  datatype Env = Env(
    connected: bool, received: int, answer: UInt32, space: nat, headerOk: bool, bodyOk: bool,
    sends: seq<(nat, bool)>)

  /** A connection and whether the step ended it. */
  datatype Outcome = Outcome(conn: Conn, closed: bool)

  const OK := 200
  const BAD_REQUEST := 400
  const NOT_FOUND := 404
  const INTERNAL_ERROR := 500

  function Clear(s: Conn): Conn {
    s.(command := Unknown, file := None, handler := None, fileOffset := 0, contentLength := 0,
       headerSent := false, rx := "")
  }

  /** An error status is sent with an empty body, and the client starts over. */
  function Refuse(s: Conn, status: nat): Conn {
    Clear(s).(log := s.log + [Header(status, 0)])
  }

  function Received(e: Env, max: int, pending: string): int {
    if e.received <= 0 then e.received else Min(e.received, Min(max, |pending|))
  }

  function FindHandler(hs: seq<Handler>, command: Command, url: string): (r: Option<Handler>)
    ensures r.Some? ==> r.value in hs && r.value.command == command && r.value.path == url
  {
    if hs == [] then None
    else if hs[0].command == command && hs[0].path == url then Some(hs[0])
    else FindHandler(hs[1..], command, url)
  }

  function FindFile(fs: seq<File>, url: string): (r: Option<File>)
    ensures r.Some? ==> r.value in fs && r.value.path == url
  {
    if fs == [] then None else if fs[0].path == url then Some(fs[0]) else FindFile(fs[1..], url)
  }

  /** The handler's response: a negative size ends the connection. */
  function Answer(s: Conn, h: Handler, e: Env): Outcome {
    var length := Min(e.space, e.answer);
    var negative := e.answer >= 0x8000_0000;
    var sent := if e.headerOk && !negative then [Reply(length)] else [];
    Outcome(Clear(s).(log := s.log + [Respond(h.id), Header(OK, length)] + sent),
            negative || (e.headerOk && !e.bodyOk))
  }

  // ---------------------------------------------------------------------- GET

  datatype Sending = Sending(offset: nat, pieces: seq<Output>, ok: bool)

  /** How much of the file one pass of the send loop takes. */
  function Portion(sv: Server, data: string, offset: nat, sends: seq<(nat, bool)>): (n: nat)
    requires offset <= |data|
    ensures offset + n <= |data|
  {
    if sends == [] then 0 else Min(sends[0].0, Min(|data| - offset, sv.txSize))
  }

  /** The send loop: pieces go out until there is no space, no data, or a failure. */
  function SendLoop(sv: Server, data: string, offset: nat, sends: seq<(nat, bool)>): (r: Sending)
    requires offset <= |data|
    ensures offset <= r.offset <= |data|
    decreases |data| - offset
  {
    var n := Portion(sv, data, offset, sends);
    if n == 0 then Sending(offset, [], true)
    else
      var piece := Body(data[offset..offset + n]);
      if !sends[0].1 then Sending(offset + n, [piece], false)
      else
        var r := SendLoop(sv, data, offset + n, sends[1..]);
        r.(pieces := [piece] + r.pieces)
  }

  function SendFile(sv: Server, s: Conn, f: File, e: Env): Outcome
    requires s.fileOffset <= |f.data|
  {
    var s1 := if s.headerSent then s
              else s.(contentLength := |f.data|, headerSent := true, log := s.log + [Header(OK, |f.data|)]);
    var headerOk := s.headerSent || e.headerOk;
    var r := if headerOk then SendLoop(sv, f.data, s.fileOffset, e.sends) else Sending(s.fileOffset, [], false);
    var s2 := s1.(fileOffset := r.offset, log := s1.log + r.pieces);
    Outcome(if r.offset >= |f.data| then Clear(s2) else s2, !r.ok)
  }

  /** A client between requests has offset 0 already (see `Consistent`); setting it here only
      makes the function total. */
  function GetStart(sv: Server, s: Conn, url: string, e: Env): Outcome {
    var h := FindHandler(sv.handlers, Get, url);
    if h.Some? then
      if h.value.hasFunction then Answer(s, h.value, e)
      else Outcome(Refuse(s, INTERNAL_ERROR), !e.headerOk)
    else
      var f := FindFile(sv.files, url);
      if f.Some? then SendFile(sv, s.(command := Get, file := f, fileOffset := 0), f.value, e)
      else Outcome(Refuse(s, NOT_FOUND), !e.headerOk)
  }

  // --------------------------------------------------------------------- POST

  function PostNext(sv: Server, s: Conn, h: Handler, e: Env): Outcome {
    var remaining := s.contentLength - s.fileOffset;
    if remaining > 0 then
      var n := Received(e, Min(remaining, sv.rxSize), s.pending);
      if n > 0 then
        Outcome(s.(fileOffset := s.fileOffset + n, pending := s.pending[n..],
                   log := s.log + [Deliver(h.id, s.pending[..n])]), false)
      else Outcome(s, n < 0)
    else Answer(s, h, e)
  }

  function PostStart(sv: Server, s: Conn, url: string, length: nat, data: string, e: Env): Outcome {
    var h := FindHandler(sv.handlers, Post, url);
    if h.None? then Outcome(Refuse(s, NOT_FOUND), !e.headerOk)
    else
      var s1 := s.(command := Post, contentLength := length, handler := h);
      var chunk := Min(length - s.fileOffset, |data|);
      var s2 := if chunk <= 0 then s1
                else s1.(fileOffset := s.fileOffset + chunk, log := s.log + [Deliver(h.value.id, data[..chunk])]);
      if s2.fileOffset >= length then PostNext(sv, s2, h.value, e) else Outcome(s2, false)
  }

  // ---------------------------------------------------------------- one step

  /** Dispatches a complete head; `data` is what arrived after it. */
  function Dispatch(sv: Server, s: Conn, head: string, data: string, e: Env): Outcome {
    match ParseRequest(head)
    case None => Outcome(Refuse(s, BAD_REQUEST), true)
    case Some(Request(command, url, length)) =>
      if command == Post && length.None? then Outcome(Refuse(s, BAD_REQUEST), true)
      else
        var s1 := s.(rx := "");
        if command == Get then GetStart(sv, s1, url, e)
        else if command == Post then PostStart(sv, s1, url, length.value, data, e)
        else Outcome(s1, false)
  }

  /** After bytes have arrived: dispatch if the head is complete. */
  function HandleRx(sv: Server, s: Conn, e: Env): Outcome {
    var h := HeaderEnd(s.rx);
    if h >= 0 then Dispatch(sv, s, s.rx[..h], s.rx[h..], e)
    else if |s.rx| == sv.rxSize then Outcome(Refuse(s, BAD_REQUEST), false)
    else Outcome(s, false)
  }

  function ReadHead(sv: Server, s: Conn, e: Env): Outcome {
    var n := Received(e, sv.rxSize - |s.rx|, s.pending);
    if n <= 0 then Outcome(s, false)
    else HandleRx(sv, s.(rx := s.rx + s.pending[..n], pending := s.pending[n..]), e)
  }

  function Work(sv: Server, s: Conn, e: Env): Outcome {
    if !e.connected then Outcome(s, true)
    else match s.command
      case Unknown => ReadHead(sv, s, e)
      case Get =>
        if s.file.Some? && s.fileOffset <= |s.file.value.data| then SendFile(sv, s, s.file.value, e)
        else Outcome(s, false)
      case Post => if s.handler.Some? then PostNext(sv, s, s.handler.value, e) else Outcome(s, false)
      case _ => Outcome(s, false)
  }

  /** A run: steps are taken until one ends the connection. */
  function Run(sv: Server, s: Conn, es: seq<Env>): Outcome {
    if es == [] then Outcome(s, false)
    else
      var r := Run(sv, s, es[..|es| - 1]);
      if r.closed then r else Work(sv, r.conn, es[|es| - 1])
  }

  // ----------------------------------------------------- what every step keeps

  /** Between requests nothing of an earlier request is left; within a request the
      counters fit. */
  ghost predicate Consistent(sv: Server, s: Conn) {
    && (s.command == Unknown ==> s == Clear(s).(rx := s.rx) && |s.rx| < sv.rxSize)
    && (s.command == Post ==> s.handler.Some? && s.fileOffset <= s.contentLength && s.rx == "")
    && (s.command == Get ==> s.file.Some? && s.headerSent && s.rx == ""
                             && s.contentLength == |s.file.value.data| && s.fileOffset <= s.contentLength)
    && (s.command == Unknown || s.command == Get || s.command == Post)
  }

  lemma SendFileKeepsConsistent(sv: Server, s: Conn, f: File, e: Env)
    requires sv.rxSize > 0 && s.rx == "" && s.command == Get && s.file == Some(f) && s.fileOffset <= |f.data|
    requires s.headerSent ==> s.contentLength == |f.data|
    ensures var r := SendFile(sv, s, f, e); !r.closed ==> Consistent(sv, r.conn)
  {
  }

  lemma PostNextKeepsConsistent(sv: Server, s: Conn, h: Handler, e: Env)
    requires sv.rxSize > 0 && s.rx == "" && s.command == Post && s.handler == Some(h) && s.fileOffset <= s.contentLength
    ensures var r := PostNext(sv, s, h, e); !r.closed ==> Consistent(sv, r.conn)
  {
  }

  lemma DispatchKeepsConsistent(sv: Server, s: Conn, head: string, data: string, e: Env)
    requires sv.rxSize > 0 && s == Clear(s).(rx := s.rx)
    ensures var r := Dispatch(sv, s, head, data, e); !r.closed ==> Consistent(sv, r.conn)
  {
    var p := ParseRequest(head);
    if p.Some? && p.value.command == Get {
      var f := FindFile(sv.files, p.value.url);
      if FindHandler(sv.handlers, Get, p.value.url).None? && f.Some? {
        SendFileKeepsConsistent(sv, s.(command := Get, file := f, fileOffset := 0, rx := ""), f.value, e);
      }
    } else if p.Some? && p.value.command == Post && p.value.contentLength.Some? {
      var h, length := FindHandler(sv.handlers, Post, p.value.url), p.value.contentLength.value;
      if h.Some? {
        var chunk := Min(length, |data|);
        var s1 := s.(command := Post, contentLength := length, handler := h, rx := "");
        var s2 := if chunk <= 0 then s1
                  else s1.(fileOffset := chunk, log := s.log + [Deliver(h.value.id, data[..chunk])]);
        PostNextKeepsConsistent(sv, s2, h.value, e);
      }
    }
  }

  lemma ReadHeadKeepsConsistent(sv: Server, s: Conn, e: Env)
    requires sv.rxSize > 0 && s == Clear(s).(rx := s.rx) && |s.rx| < sv.rxSize
    ensures var r := ReadHead(sv, s, e); !r.closed ==> Consistent(sv, r.conn)
  {
    hide HeaderEnd, ParseRequest, Dispatch;
    var n := Received(e, sv.rxSize - |s.rx|, s.pending);
    if n > 0 {
      var rx := s.rx + s.pending[..n];
      var h := HeaderEnd(rx);
      if h >= 0 {
        DispatchKeepsConsistent(sv, s.(rx := rx, pending := s.pending[n..]), rx[..h], rx[h..], e);
      }
    }
  }

  // No step leaves anything of a finished request behind.
  lemma WorkKeepsConsistent(sv: Server, s: Conn, e: Env)
    requires sv.rxSize > 0 && Consistent(sv, s)
    ensures !Work(sv, s, e).closed ==> Consistent(sv, Work(sv, s, e).conn)
  {
    hide ReadHead, SendFile, PostNext;
    if e.connected {
      if s.command == Get {
        SendFileKeepsConsistent(sv, s, s.file.value, e);
      } else if s.command == Post {
        PostNextKeepsConsistent(sv, s, s.handler.value, e);
      } else {
        ReadHeadKeepsConsistent(sv, s, e);
      }
    }
  }

  lemma {:induction false} RunKeepsConsistent(sv: Server, s: Conn, es: seq<Env>)
    requires sv.rxSize > 0 && Consistent(sv, s)
    ensures !Run(sv, s, es).closed ==> Consistent(sv, Run(sv, s, es).conn)
  {
    if es != [] {
      var n := |es| - 1;
      RunKeepsConsistent(sv, s, es[..n]);
      if !Run(sv, s, es[..n]).closed {
        WorkKeepsConsistent(sv, Run(sv, s, es[..n]).conn, es[n]);
      }
    }
  }
}
