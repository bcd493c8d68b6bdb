/** A client of the HTTP server as an object: its fields and its receive buffer are
    changed in place, one `ClientWork` call per pass of the server loop. */
module HttpConnection {
  import opened Common
  import opened HttpRequest
  import opened HttpBuffer
  import opened HttpServer

  // One pass of the send loop, after `before` has been sent.
  lemma SendLoopStep(sv: Server, data: string, offset: nat, sends: seq<(nat, bool)>, before: seq<Output>)
    requires offset <= |data|
    ensures var n, r := Portion(sv, data, offset, sends), SendLoop(sv, data, offset, sends);
      && (n == 0 ==> r == Sending(offset, [], true) && before + r.pieces == before)
      && (n > 0 ==>
            var piece := Body(data[offset..offset + n]);
            var rest := SendLoop(sv, data, offset + n, sends[1..]);
            && (!sends[0].1 ==> r == Sending(offset + n, [piece], false))
            && (sends[0].1 ==> r == rest.(pieces := [piece] + rest.pieces)
                               && before + r.pieces == before + [piece] + rest.pieces))
  {
  }

  lemma SameTail(a: string, b: string, i: nat, j: nat)
    requires |a| == |b| && i <= j <= |a| && a[i..] == b[i..]
    ensures a[i..j] == b[i..j]
  {
    assert a[i..j] == a[i..][..j - i] && b[i..j] == b[i..][..j - i];
  }

  class Client {
    const server: Server
    const bufRx: array<char>
    var rxLen: nat
    var command: Command
    var file: Option<File>
    var handler: Option<Handler>
    var fileOffset: nat
    var contentLength: nat
    var headerSent: bool
    var pending: string
    var log: seq<Output>

    ghost function State(): Conn
      requires rxLen <= bufRx.Length
      reads this, bufRx
    {
      Conn(command, file, handler, fileOffset, contentLength, headerSent, bufRx[..rxLen], pending, log)
    }

    ghost predicate Valid()
      reads this, bufRx
    {
      bufRx.Length == server.rxSize > 0 && rxLen <= bufRx.Length && Consistent(server, State())
    }

    constructor (server: Server, pending: string)
      requires server.rxSize > 0
      ensures Valid() && fresh(bufRx) && this.server == server
      ensures State() == Conn(Unknown, None, None, 0, 0, false, "", pending, [])
    {
      this.server := server;
      bufRx := new char[server.rxSize](i => '\0');
      rxLen, command, file, handler := 0, Unknown, None, None;
      fileOffset, contentLength, headerSent := 0, 0, false;
      this.pending := pending;
      log := [];
    }

    method SendHeader(status: nat)
      requires rxLen <= bufRx.Length
      modifies this
      ensures rxLen <= bufRx.Length
      ensures var length := if status == OK then old(contentLength) else 0;
        State() == old(State()).(headerSent := true, contentLength := length,
                                 log := old(log) + [Header(status, length)])
    {
      if status != OK {
        contentLength := 0;
      }
      log := log + [Header(status, contentLength)];
      headerSent := true;
    }

    method ClientClear()
      requires rxLen <= bufRx.Length
      modifies this
      ensures rxLen <= bufRx.Length
      ensures State() == Clear(old(State()))
    {
      command, file, handler := Unknown, None, None;
      fileOffset, contentLength, headerSent, rxLen := 0, 0, false, 0;
    }

    /** The calls that answer through a handler, for GET and POST alike. */
    method SendResponse(h: Handler, e: Env) returns (closed: bool)
      requires rxLen <= bufRx.Length
      modifies this
      ensures rxLen <= bufRx.Length
      ensures Outcome(State(), closed) == Answer(old(State()), h, e)
    {
      log := log + [Respond(h.id)];
      var result: int := if e.answer < 0x8000_0000 then e.answer else e.answer - TWO_32;
      contentLength := Min(e.space, e.answer);
      SendHeader(OK);
      if e.headerOk && result >= 0 {
        log := log + [Reply(contentLength)];
        result := if e.bodyOk then contentLength else -1;
      }
      ClientClear();
      closed := result < 0;
    }

    method SendFileLoop(f: File, sends: seq<(nat, bool)>) returns (ok: bool)
      requires rxLen <= bufRx.Length && fileOffset <= |f.data|
      modifies this
      ensures rxLen <= bufRx.Length
      ensures var r := SendLoop(server, f.data, old(fileOffset), sends);
        && ok == r.ok
        && State() == old(State()).(fileOffset := r.offset, log := old(log) + r.pieces)
    {
      hide SendLoop;
      ok := true;
      var k, done := 0, false;
      ghost var pieces: seq<Output> := [];
      ghost var whole := SendLoop(server, f.data, fileOffset, sends);
      assert sends[0..] == sends && [] + whole.pieces == whole.pieces;
      while !done
        invariant rxLen <= bufRx.Length && fileOffset <= |f.data| && k <= |sends|
        invariant State() == old(State()).(fileOffset := fileOffset, log := old(log) + pieces)
        invariant !done ==> ok && var r := SendLoop(server, f.data, fileOffset, sends[k..]);
          whole == r.(pieces := pieces + r.pieces)
        invariant done ==> whole == Sending(fileOffset, pieces, ok)
        decreases |f.data| - fileOffset, !done
      {
        var space := if k < |sends| then sends[k].0 else 0;
        var count := Min(space, Min(|f.data| - fileOffset, server.txSize));
        SendLoopStep(server, f.data, fileOffset, sends[k..], pieces);
        if count > 0 {
          assert sends[k..][1..] == sends[k + 1..];
          var piece := Body(f.data[fileOffset..fileOffset + count]);
          fileOffset := fileOffset + count;
          log := log + [piece];
          pieces := pieces + [piece];
          ok := sends[k].1;
          done := !ok;
          k := k + 1;
        } else {
          done := true;
        }
      }
    }

    method SendFile(f: File, e: Env) returns (closed: bool)
      requires rxLen <= bufRx.Length && fileOffset <= |f.data|
      modifies this
      ensures rxLen <= bufRx.Length
      ensures Outcome(State(), closed) == HttpServer.SendFile(server, old(State()), f, e)
    {
      var ok := true;
      if !headerSent {
        contentLength := |f.data|;
        SendHeader(OK);
        ok := e.headerOk;
      }
      if ok {
        ok := SendFileLoop(f, e.sends);
      }
      if fileOffset >= |f.data| {
        ClientClear();
      }
      closed := !ok;
    }

    method LookUpHandler(cmd: Command, url: string) returns (r: Option<Handler>)
      ensures r == FindHandler(server.handlers, cmd, url)
    {
      var hs := server.handlers;
      var i := 0;
      while i < |hs|
        invariant 0 <= i <= |hs|
        invariant FindHandler(hs, cmd, url) == FindHandler(hs[i..], cmd, url)
      {
        assert hs[i..][1..] == hs[i + 1..];
        if hs[i].command == cmd && url == hs[i].path {
          return Some(hs[i]);
        }
        i := i + 1;
      }
      return None;
    }

    method LookUpFile(url: string) returns (r: Option<File>)
      ensures r == FindFile(server.files, url)
    {
      var fs := server.files;
      var i := 0;
      while i < |fs|
        invariant 0 <= i <= |fs|
        invariant FindFile(fs, url) == FindFile(fs[i..], url)
      {
        assert fs[i..][1..] == fs[i + 1..];
        if url == fs[i].path {
          return Some(fs[i]);
        }
        i := i + 1;
      }
      return None;
    }

    method GetStart(url: string, e: Env) returns (closed: bool)
      requires rxLen <= bufRx.Length && fileOffset == 0 && !headerSent && file.None? && handler.None?
      modifies this
      ensures rxLen <= bufRx.Length
      ensures Outcome(State(), closed) == HttpServer.GetStart(server, old(State()), url, e)
    {
      var h := LookUpHandler(Get, url);
      if h.Some? {
        if h.value.hasFunction {
          closed := SendResponse(h.value, e);
        } else {
          SendHeader(INTERNAL_ERROR);
          ClientClear();
          closed := !e.headerOk;
        }
      } else {
        var f := LookUpFile(url);
        if f.Some? {
          command, file := Get, f;
          closed := SendFile(f.value, e);
        } else {
          SendHeader(NOT_FOUND);
          ClientClear();
          closed := !e.headerOk;
        }
      }
    }

    method PostNext(h: Handler, e: Env) returns (closed: bool)
      requires rxLen <= bufRx.Length == server.rxSize && fileOffset <= contentLength && rxLen == 0
      modifies this, bufRx
      ensures rxLen <= bufRx.Length
      ensures Outcome(State(), closed) == HttpServer.PostNext(server, old(State()), h, e)
    {
      var remaining := contentLength - fileOffset;
      if remaining > 0 {
        var n := Received(e, Min(remaining, bufRx.Length), pending);
        if n > 0 {
          forall i | 0 <= i < n {
            bufRx[i] := pending[i];
          }
          assert bufRx[..n] == pending[..n];
          log := log + [Deliver(h.id, bufRx[..n])];
          pending := pending[n..];
          fileOffset := fileOffset + n;
        }
        closed := n < 0;
      } else {
        closed := SendResponse(h, e);
      }
    }

    /** Hands over the first `chunk` of the bytes `bufRx[from..to]`, if there are any. */
    method DeliverFirst(h: Handler, chunk: nat, from: nat, to: nat)
      requires from <= to <= bufRx.Length && chunk <= to - from && fileOffset == 0 && rxLen <= bufRx.Length
      modifies `fileOffset, `log
      ensures State() == old(State()).(
        fileOffset := chunk,
        log := if chunk == 0 then old(log) else old(log) + [Deliver(h.id, bufRx[from..to][..chunk])])
    {
      if chunk > 0 {
        ghost var data, piece := bufRx[from..to], bufRx[from..from + chunk];
        assert forall j :: 0 <= j < chunk ==> piece[j] == data[j];
        assert piece == data[..chunk];
        log := log + [Deliver(h.id, bufRx[from..from + chunk])];
        fileOffset := chunk;
      }
    }

    /** The body bytes that came with the head are `bufRx[from..to]`. */
    method PostStart(url: string, length: nat, from: nat, to: nat, e: Env) returns (closed: bool)
      requires rxLen == 0 && from <= to <= bufRx.Length == server.rxSize && fileOffset == 0
      modifies this, bufRx
      ensures rxLen <= bufRx.Length
      ensures Outcome(State(), closed) ==
        HttpServer.PostStart(server, old(State()), url, length, old(bufRx[from..to]), e)
    {
      hide FindHandler, HttpServer.PostNext;
      var h := LookUpHandler(Post, url);
      if h.None? {
        SendHeader(NOT_FOUND);
        ClientClear();
        closed := !e.headerOk;
      } else {
        command, contentLength, handler := Post, length, h;
        DeliverFirst(h.value, Min(length, to - from), from, to);
        if fileOffset >= length {
          closed := PostNext(h.value, e);
        } else {
          closed := false;
        }
      }
    }

    /** Reads and dispatches the head once its blank line has arrived. */
    method DispatchHead(hdrEnd: nat, e: Env) returns (closed: bool)
      requires bufRx.Length == server.rxSize > 0 && rxLen <= bufRx.Length
      requires HeaderEnd(bufRx[..rxLen]) == hdrEnd && State() == Clear(State()).(rx := State().rx)
      modifies this, bufRx
      ensures rxLen <= bufRx.Length
      ensures Outcome(State(), closed) ==
        Dispatch(server, old(State()), old(bufRx[..hdrEnd]), old(bufRx[hdrEnd..rxLen]), e)
    {
      hide ParseRequest, HeaderEnd, FindHandler, FindFile, HttpServer.GetStart, HttpServer.PostStart;
      ghost var was := bufRx[..];
      assert bufRx[hdrEnd..rxLen] == was[hdrEnd..rxLen] && bufRx[hdrEnd..] == was[hdrEnd..];
      var r := ParseInPlace(bufRx, rxLen, hdrEnd);
      var received := rxLen;
      ghost var now := bufRx[..];
      assert bufRx[hdrEnd..received] == now[hdrEnd..received] && bufRx[hdrEnd..] == now[hdrEnd..];
      SameTail(was, now, hdrEnd, received);
      if r.None? || (r.value.command == Post && r.value.contentLength.None?) {
        SendHeader(BAD_REQUEST);
        ClientClear();
        return true;
      }
      rxLen := 0;
      if r.value.command == Get {
        closed := GetStart(r.value.url, e);
      } else if r.value.command == Post {
        closed := PostStart(r.value.url, r.value.contentLength.value, hdrEnd, received, e);
      } else {
        closed := false;
      }
    }

    /** Stores `n` bytes that recv returns behind the filled part of the buffer. */
    method StoreReceived(n: nat)
      requires rxLen + n <= bufRx.Length && n <= |pending|
      modifies `rxLen, `pending, bufRx
      ensures rxLen <= bufRx.Length
      ensures State() == old(State()).(rx := old(State()).rx + old(pending)[..n], pending := old(pending)[n..])
    {
      ghost var rx := bufRx[..rxLen];
      forall i | 0 <= i < n {
        bufRx[rxLen + i] := pending[i];
      }
      assert bufRx[..rxLen + n] == rx + pending[..n];
      pending := pending[n..];
      rxLen := rxLen + n;
    }

    /** Appends what recv returns to the buffer, then looks for a complete head. */
    method AccumulateHead(e: Env) returns (closed: bool)
      requires Valid() && command == Unknown
      modifies this, bufRx
      ensures rxLen <= bufRx.Length
      ensures Outcome(State(), closed) == ReadHead(server, old(State()), e)
    {
      hide Dispatch, HeaderEnd;
      closed := false;
      var n := Received(e, bufRx.Length - rxLen, pending);
      if n > 0 {
        StoreReceived(n);
        var hdrEnd := FindHeaderEnd(bufRx, rxLen);
        if hdrEnd >= 0 {
          assert bufRx[..rxLen][..hdrEnd] == bufRx[..hdrEnd];
          assert bufRx[..rxLen][hdrEnd..] == bufRx[hdrEnd..rxLen];
          closed := DispatchHead(hdrEnd, e);
        } else if rxLen == bufRx.Length {
          SendHeader(BAD_REQUEST);
          ClientClear();
        }
      }
    }

    method ClientWork(e: Env) returns (closed: bool)
      requires Valid()
      modifies this, bufRx
      ensures rxLen <= bufRx.Length
      ensures Outcome(State(), closed) == Work(server, old(State()), e)
      ensures !closed ==> Valid()
    {
      hide ReadHead, HttpServer.SendFile, HttpServer.PostNext;
      WorkKeepsConsistent(server, State(), e);
      if !e.connected {
        closed := true;
      } else if command == Unknown {
        closed := AccumulateHead(e);
      } else if command == Get {
        closed := SendFile(file.value, e);
      } else {
        closed := PostNext(handler.value, e);
      }
    }
  }
}
