/** What a peer observes over whole runs of a connection: the file it asks for is sent unchanged,
    however TCP cuts the request and however the transmit space comes. */
module HttpFiles {
  import opened Common
  import opened HttpRequest
  import opened HttpServer
  import opened HttpStream

  ghost predicate AllBody(outs: seq<Output>) {
    forall i :: 0 <= i < |outs| ==> outs[i].Body?
  }

  // ------------------------------------------------------------ the send loop

  lemma TextsCons(o: Output, outs: seq<Output>)
    requires o.Body?
    ensures Texts([o] + outs) == o.text + Texts(outs)
  {
    TextsConcat([o], outs);
    TextsOfOne(o);
  }

  lemma PieceFirst(data: string, a: nat, b: nat, c: nat, pieces: seq<Output>)
    requires a <= b <= c <= |data| && AllBody(pieces) && Texts(pieces) == data[b..c]
    ensures AllBody([Body(data[a..b])] + pieces) && Texts([Body(data[a..b])] + pieces) == data[a..c]
  {
    TextsCons(Body(data[a..b]), pieces);
    BodyFirst(Body(data[a..b]), pieces);
    hide Texts, AllBody;
    SlicesJoin(data, a, b, c);
  }

  lemma BodyFirst(o: Output, pieces: seq<Output>)
    requires o.Body? && AllBody(pieces)
    ensures AllBody([o] + pieces)
  {
  }

  lemma SlicesJoin(data: string, a: nat, b: nat, c: nat)
    requires a <= b <= c <= |data|
    ensures data[a..b] + data[b..c] == data[a..c]
  {
  }

  // Each piece is as large as the space, the rest of the file and the buffer allow.
  lemma PortionIsLargest(sv: Server, data: string, offset: nat, sends: seq<(nat, bool)>)
    requires offset <= |data| && sends != []
    ensures var n, space, rest := Portion(sv, data, offset, sends), sends[0].0, |data| - offset;
      && n <= space && n <= rest && n <= sv.txSize
      && (n == space || n == rest || n == sv.txSize)
  {
  }

  // One call of the send loop sends consecutive bytes.
  lemma {:induction false} SendLoopSends(sv: Server, data: string, offset: nat, sends: seq<(nat, bool)>)
    requires offset <= |data|
    ensures var r := SendLoop(sv, data, offset, sends);
      AllBody(r.pieces) && Texts(r.pieces) == data[offset..r.offset]
    decreases |data| - offset
  {
    hide SendLoop, Portion, Texts, AllBody;
    LoopCases(sv, data, offset, sends);
    NoPiece();
    var n := Portion(sv, data, offset, sends);
    if n > 0 {
      var piece := Body(data[offset..offset + n]);
      if sends[0].1 {
        var rest := SendLoop(sv, data, offset + n, sends[1..]);
        SendLoopSends(sv, data, offset + n, sends[1..]);
        PieceFirst(data, offset, offset + n, rest.offset, rest.pieces);
      } else {
        PieceFirst(data, offset, offset + n, offset + n, []);
        assert [piece] + [] == [piece];
      }
    }
  }

  lemma LoopCases(sv: Server, data: string, offset: nat, sends: seq<(nat, bool)>)
    requires offset <= |data|
    ensures Portion(sv, data, offset, sends) == 0 ==>
      SendLoop(sv, data, offset, sends) == Sending(offset, [], true)
    ensures var n := Portion(sv, data, offset, sends);
      n > 0 ==> sends != [] && SendLoop(sv, data, offset, sends) == AfterPiece(sv, data, offset, n, sends)
  {
  }

  /** The send loop after a first piece of `n` bytes. */
  function AfterPiece(sv: Server, data: string, offset: nat, n: nat, sends: seq<(nat, bool)>): Sending
    requires n > 0 && offset + n <= |data| && sends != []
  {
    var piece := Body(data[offset..offset + n]);
    if !sends[0].1 then Sending(offset + n, [piece], false)
    else
      var rest := SendLoop(sv, data, offset + n, sends[1..]);
      rest.(pieces := [piece] + rest.pieces)
  }

  lemma NoPiece()
    ensures AllBody([]) && Texts([]) == ""
  {
  }

  lemma TextsOfOne(o: Output)
    requires o.Body?
    ensures Texts([o]) == o.text
  {
    TextsAppend([], o);
    assert [] + [o] == [o];
  }

  // It advances when there is space, and reports failure only when a send failed.
  lemma {:induction false} SendLoopOutcome(sv: Server, data: string, offset: nat, sends: seq<(nat, bool)>)
    requires offset <= |data|
    ensures var r := SendLoop(sv, data, offset, sends);
      && (!r.ok ==> SendFails(sends))
      && (Portion(sv, data, offset, sends) > 0 ==> r.offset > offset)
    decreases |data| - offset
  {
    var n := Portion(sv, data, offset, sends);
    if n > 0 && sends[0].1 {
      SendLoopOutcome(sv, data, offset + n, sends[1..]);
      if !SendLoop(sv, data, offset + n, sends[1..]).ok {
        var i :| 0 <= i < |sends[1..]| && !sends[1..][i].1;
        assert !sends[i + 1].1;
      }
    }
  }

  // The loop fails exactly if one of the sends that it makes fails.
  lemma {:induction false} SendLoopFailsIff(sv: Server, data: string, offset: nat, sends: seq<(nat, bool)>)
    requires offset <= |data|
    ensures var r := SendLoop(sv, data, offset, sends);
      |r.pieces| <= |sends| && (r.ok <==> forall j :: 0 <= j < |r.pieces| ==> sends[j].1)
    decreases |data| - offset
  {
    var n := Portion(sv, data, offset, sends);
    if n > 0 && sends[0].1 {
      SendLoopFailsIff(sv, data, offset + n, sends[1..]);
      var r := SendLoop(sv, data, offset + n, sends[1..]);
      assert forall j :: 0 < j <= |r.pieces| ==> sends[j] == sends[1..][j - 1];
    }
  }

  // And then the connection is closed: when a send of the file fails, or its header.
  lemma FailedSendCloses(sv: Server, s: Conn, f: File, e: Env)
    requires s.fileOffset <= |f.data|
    ensures SendFile(sv, s, f, e).closed <==>
      || (!s.headerSent && !e.headerOk)
      || exists j :: 0 <= j < |SendLoop(sv, f.data, s.fileOffset, e.sends).pieces| && j < |e.sends| && !e.sends[j].1
  {
    hide SendLoop;
    SendLoopFailsIff(sv, f.data, s.fileOffset, e.sends);
  }

  /** `outs` is the body sent so far, after one header that announces the whole file. */
  ghost predicate SendingWith(start: Conn, f: File, s: Conn, outs: seq<Output>) {
    && s.fileOffset < |f.data|
    && s == start.(command := Get, file := Some(f), headerSent := true, contentLength := |f.data|,
                   fileOffset := s.fileOffset, log := start.log + ([Header(OK, |f.data|)] + outs))
    && AllBody(outs) && Texts(outs) == f.data[..s.fileOffset]
  }

  ghost predicate FileSending(start: Conn, f: File, s: Conn) {
    exists outs :: SendingWith(start, f, s, outs)
  }

  ghost predicate SentWith(start: Conn, f: File, s: Conn, outs: seq<Output>) {
    && s == start.(log := start.log + ([Header(OK, |f.data|)] + outs))
    && AllBody(outs) && Texts(outs) == f.data
  }

  /** The whole file has been sent, and the connection is ready for the next request. */
  ghost predicate FileSent(start: Conn, f: File, s: Conn) {
    exists outs :: SentWith(start, f, s, outs)
  }

  /** The step's answers contain a failure. */
  ghost predicate Fails(e: Env) {
    !e.connected || !e.headerOk || SendFails(e.sends)
  }

  ghost predicate SendFails(sends: seq<(nat, bool)>) {
    exists i :: 0 <= i < |sends| && !sends[i].1
  }

  // A call of the file sender, with the bytes `outs` already out, continues the file. A piece
  // whose send fails counts as sent.
  lemma SendFileContinues(sv: Server, start: Conn, f: File, s: Conn, outs: seq<Output>, e: Env)
    requires Fresh(start) && s.headerSent && s.fileOffset <= |f.data|
    requires s == start.(command := Get, file := Some(f), headerSent := true, contentLength := |f.data|,
                         fileOffset := s.fileOffset, log := start.log + ([Header(OK, |f.data|)] + outs))
    requires AllBody(outs) && Texts(outs) == f.data[..s.fileOffset]
    ensures var r := SendFile(sv, s, f, e);
      && (r.closed ==> Fails(e))
      && (FileSending(start, f, r.conn) || FileSent(start, f, r.conn))
      && (Portion(sv, f.data, s.fileOffset, e.sends) > 0 ==>
            FileSent(start, f, r.conn) || r.conn.fileOffset > s.fileOffset)
  {
    hide SendLoop, Texts, Portion;
    var l := SendLoop(sv, f.data, s.fileOffset, e.sends);
    SendLoopSends(sv, f.data, s.fileOffset, e.sends);
    SendLoopOutcome(sv, f.data, s.fileOffset, e.sends);
    var all := outs + l.pieces;
    TextsConcat(outs, l.pieces);
    assert f.data[..s.fileOffset] + f.data[s.fileOffset..l.offset] == f.data[..l.offset];
    var log := start.log + ([Header(OK, |f.data|)] + all);
    assert s.log + l.pieces == log;
    var r := SendFile(sv, s, f, e);
    if l.offset < |f.data| {
      assert SendingWith(start, f, r.conn, all);
    } else {
      assert f.data[..l.offset] == f.data;
      assert SentWith(start, f, r.conn, all);
    }
  }

  // The first call: one header, with the file's size, and the first bytes.
  lemma SendFileStarts(sv: Server, start: Conn, f: File, e: Env)
    requires Fresh(start)
    ensures var r := SendFile(sv, start.(command := Get, file := Some(f)), f, e);
      && (r.closed ==> Fails(e))
      && (FileSending(start, f, r.conn) || FileSent(start, f, r.conn))
  {
    var s1 := start.(command := Get, file := Some(f), headerSent := true, contentLength := |f.data|,
                     log := start.log + ([Header(OK, |f.data|)] + []));
    assert [Header(OK, |f.data|)] + [] == [Header(OK, |f.data|)];
    if e.headerOk {
      SendFileContinues(sv, start, f, s1, [], e);
      assert SendFile(sv, start.(command := Get, file := Some(f)), f, e) == SendFile(sv, s1, f, e);
    } else {
      var r := SendFile(sv, start.(command := Get, file := Some(f)), f, e);
      assert r.conn.log == s1.log;
      if f.data == "" {
        assert SentWith(start, f, r.conn, []);
      } else {
        assert SendingWith(start, f, r.conn, []);
      }
    }
  }

  // ----------------------------------------------------------- the request

  /** A GET request about to be read: a complete head that fits the buffer, for a registered
      file that no handler hides, and whatever follows. */
  datatype Getting = Getting(start: Conn, head: string, more: string, file: File)
  {
    function Stream(): string { head + more }
  }

  ghost predicate ValidGetting(sv: Server, g: Getting) {
    && Fresh(g.start) && g.start.pending == g.Stream()
    && HeaderEnd(g.head) == |g.head| && |g.head| <= sv.rxSize
    && exists url, length ::
         && ParseRequest(g.head) == Some(Request(Get, url, length))
         && FindHandler(sv.handlers, Get, url) == None && FindFile(sv.files, url) == Some(g.file)
  }

  ghost function TakenBy(sv: Server, g: Getting, es: seq<Env>): (n: nat)
    requires |g.head| <= sv.rxSize
    ensures n <= |g.Stream()| && n <= sv.rxSize
  {
    Taken(sv, |g.head|, |g.Stream()|, es)
  }

  /** The connection without what the receive that completed the head has taken. */
  function Base(g: Getting, taken: nat): Conn
    requires taken <= |g.Stream()|
  {
    g.start.(pending := g.Stream()[taken..])
  }

  /** The request is being read, or one header and a prefix of the file have been sent. */
  ghost predicate UnderWay(g: Getting, s: Conn, taken: nat) {
    && taken <= |g.Stream()|
    && if taken < |g.head| then WaitingAt(g.start, g.Stream(), s, taken)
       else FileSending(Base(g, taken), g.file, s)
  }

  /** One header and the whole file have been sent, and the connection is ready for the next
      request; bytes that came in with the head are gone. */
  ghost predicate Served(g: Getting, s: Conn, taken: nat) {
    |g.head| <= taken <= |g.Stream()| && FileSent(Base(g, taken), g.file, s)
  }

  // A complete head starts the file.
  lemma FileRequested(sv: Server, g: Getting, s: Conn, k: nat, data: string, e: Env)
    requires ValidGetting(sv, g) && |g.head| <= k && WaitingAt(g.start, g.Stream(), s, k)
    ensures var r := Dispatch(sv, s, g.head, data, e);
      && (r.closed ==> Fails(e))
      && (UnderWay(g, r.conn, k) || Served(g, r.conn, k))
  {
    hide ParseRequest, FindHandler, FindFile, HeaderEnd, SendFile, FileSending, FileSent, Fails;
    SendFileStarts(sv, Base(g, k), g.file, e);
  }

  // Any step of a request under way.
  lemma ServeStep(sv: Server, g: Getting, s: Conn, n: nat, e: Env)
    requires ValidGetting(sv, g) && UnderWay(g, s, n) && n <= sv.rxSize
    ensures var r, k := Work(sv, s, e), TakenNext(sv, |g.head|, |g.Stream()|, n, e, e.connected);
      && (r.closed ==> Fails(e))
      && (UnderWay(g, r.conn, k) || Served(g, r.conn, k))
  {
    hide ParseRequest, FindHandler, FindFile, HeaderEnd, Dispatch, FileSending, FileSent, ReadHead, SendFile, PostNext;
    if e.connected {
      if n < |g.head| {
        HeadPhaseStep(sv, g, s, n, e);
      } else {
        FileStep(sv, Base(g, n), g.file, s, e);
      }
    }
  }

  lemma HeadPhaseStep(sv: Server, g: Getting, s: Conn, n: nat, e: Env)
    requires ValidGetting(sv, g) && UnderWay(g, s, n) && n < |g.head| && e.connected
    ensures var r, k := Work(sv, s, e), n + Got(sv, e, n, |g.Stream()|);
      && (r.closed ==> Fails(e))
      && (UnderWay(g, r.conn, k) || Served(g, r.conn, k))
      && (e.received > 0 ==> k > n)
  {
    hide ParseRequest, FindHandler, FindFile, HeaderEnd, Dispatch, FileSending, FileSent, Work, Fails;
    var stream, k := g.Stream(), n + Got(sv, e, n, |g.Stream()|);
    assert g.head <= stream;
    HeadStep(sv, g.start, g.head, stream, s, n, e);
    if k >= |g.head| {
      FileRequested(sv, g, g.start.(rx := stream[..k], pending := stream[k..]), k, stream[|g.head|..k], e);
    }
  }

  lemma FileStep(sv: Server, start: Conn, f: File, s: Conn, e: Env)
    requires Fresh(start) && FileSending(start, f, s) && e.connected
    ensures var r := Work(sv, s, e);
      && (r.closed ==> Fails(e))
      && (FileSending(start, f, r.conn) || FileSent(start, f, r.conn))
      && (!Fails(e) && Portion(sv, f.data, s.fileOffset, e.sends) > 0 ==>
            FileSent(start, f, r.conn) || r.conn.fileOffset > s.fileOffset)
  {
    hide SendFile, ReadHead, PostNext;
    var outs :| SendingWith(start, f, s, outs);
    SendFileContinues(sv, start, f, s, outs, e);
    assert Work(sv, s, e) == SendFile(sv, s, f, e);
  }

  // -------------------------------------------------------------- every run

  ghost predicate Failed(es: seq<Env>) {
    exists n :: 0 <= n < |es| && Fails(es[n])
  }

  // Safety, for every run: until the file is out the request is being read, or one header with
  // the file's size and a prefix of the file have been sent, also when a failure, and nothing
  // else, has ended the connection.
  lemma {:induction false} FileNeverCorrupted(sv: Server, g: Getting, es: seq<Env>)
    requires ValidGetting(sv, g)
    requires forall n :: 0 <= n < |es| ==> !Served(g, Run(sv, g.start, es[..n]).conn, TakenBy(sv, g, es[..n]))
    ensures var r, taken := Run(sv, g.start, es), TakenBy(sv, g, es);
      && (UnderWay(g, r.conn, taken) || Served(g, r.conn, taken))
      && (r.closed ==> Failed(es) && (taken >= |g.head| || !AllConnected(es)))
  {
    hide HeaderEnd, ParseRequest, FindHandler, FindFile, Work, Served, UnderWay, TakenNext, Failed;
    if es == [] {
      StartsUnderWay(sv, g);
    } else {
      var n := |es| - 1;
      assert forall m :: 0 <= m < n ==> es[..n][..m] == es[..m];
      FileNeverCorrupted(sv, g, es[..n]);
      if Run(sv, g.start, es[..n]).closed {
        StaysClosed(sv, g, es);
      } else {
        OpenIsConnected(sv, g.start, es[..n]);
        RunStep(sv, g, es);
      }
    }
  }

  lemma StartsUnderWay(sv: Server, g: Getting)
    requires ValidGetting(sv, g)
    ensures UnderWay(g, g.start, 0)
  {
    hide ParseRequest, HeaderEnd, FindHandler, FindFile;
  }

  lemma StaysClosed(sv: Server, g: Getting, es: seq<Env>)
    requires |g.head| <= sv.rxSize && es != [] && Failed(es[..|es| - 1])
    requires TakenBy(sv, g, es[..|es| - 1]) >= |g.head| || !AllConnected(es[..|es| - 1])
    ensures TakenBy(sv, g, es) == TakenBy(sv, g, es[..|es| - 1])
    ensures Failed(es) && (TakenBy(sv, g, es) >= |g.head| || !AllConnected(es))
  {
    hide Fails;
    var n := |es| - 1;
    assert forall i :: 0 <= i < n ==> es[..n][i] == es[i];
  }

  lemma RunStep(sv: Server, g: Getting, es: seq<Env>)
    requires ValidGetting(sv, g) && es != [] && AllConnected(es[..|es| - 1])
    requires var most := es[..|es| - 1];
      !Run(sv, g.start, most).closed && UnderWay(g, Run(sv, g.start, most).conn, TakenBy(sv, g, most))
    ensures var r, taken := Run(sv, g.start, es), TakenBy(sv, g, es);
      && (UnderWay(g, r.conn, taken) || Served(g, r.conn, taken))
      && (r.closed ==> Failed(es) && (taken >= |g.head| || !AllConnected(es)))
  {
    hide HeaderEnd, ParseRequest, FindHandler, FindFile, Work, Served, UnderWay, Fails;
    var n := |es| - 1;
    assert AllConnected(es) <==> es[n].connected;
    ServeStep(sv, g, Run(sv, g.start, es[..n]).conn, TakenBy(sv, g, es[..n]), es[n]);
    ClosesLate(sv, g, Run(sv, g.start, es[..n]).conn, TakenBy(sv, g, es[..n]), es[n]);
  }

  lemma ClosesLate(sv: Server, g: Getting, s: Conn, n: nat, e: Env)
    requires ValidGetting(sv, g) && UnderWay(g, s, n) && n <= sv.rxSize
    ensures Work(sv, s, e).closed ==>
      !e.connected || TakenNext(sv, |g.head|, |g.Stream()|, n, e, e.connected) >= |g.head|
  {
    hide ParseRequest, FindHandler, FindFile, HeaderEnd, Dispatch, Work;
    if e.connected && n < |g.head| {
      assert g.head <= g.Stream();
      HeadStep(sv, g.start, g.head, g.Stream(), s, n, e);
    }
  }

  // ---------------------------------------------------------------- progress

  /** The step gets data, finds some transmit space, and nothing fails. */
  ghost predicate Helps(e: Env) {
    !Fails(e) && e.received > 0 && e.sends != [] && e.sends[0].0 > 0
  }

  function BytesLeft(g: Getting, s: Conn, taken: nat): int {
    if taken < |g.head| then |g.head| - taken + |g.file.data| else |g.file.data| - s.fileOffset
  }

  lemma ServeProgress(sv: Server, g: Getting, s: Conn, n: nat, e: Env)
    requires ValidGetting(sv, g) && UnderWay(g, s, n) && n <= sv.rxSize && Helps(e) && sv.txSize > 0
    ensures var r, k := Work(sv, s, e), TakenNext(sv, |g.head|, |g.Stream()|, n, e, true);
      && !r.closed
      && (|| Served(g, r.conn, k)
          || (UnderWay(g, r.conn, k) && BytesLeft(g, r.conn, k) < BytesLeft(g, s, n)))
  {
    hide ParseRequest, FindHandler, FindFile, HeaderEnd, Dispatch, FileSent, Work;
    if n < |g.head| {
      HeadPhaseStep(sv, g, s, n, e);
    } else {
      FileStep(sv, Base(g, n), g.file, s, e);
    }
  }

  lemma SomethingIsLeft(g: Getting, s: Conn, taken: nat)
    requires UnderWay(g, s, taken)
    ensures BytesLeft(g, s, taken) > 0
  {
  }

  // Liveness: if every step gets data and finds some transmit space and nothing fails, the
  // whole file is out after at most one step per byte of head and file.
  lemma {:induction false} FileIsSent(sv: Server, g: Getting, es: seq<Env>)
    requires ValidGetting(sv, g) && sv.txSize > 0 && |es| >= |g.head| + |g.file.data|
    requires forall i :: 0 <= i < |es| ==> Helps(es[i])
    ensures exists n ::
      0 <= n <= |es| && Served(g, Run(sv, g.start, es[..n]).conn, TakenBy(sv, g, es[..n]))
  {
    hide HeaderEnd, ParseRequest, FindHandler, FindFile, Work, Served, UnderWay, TakenNext, BytesLeft, Helps;
    StartsUnderWay(sv, g);
    assert BytesLeft(g, g.start, 0) <= |g.head| + |g.file.data| by { StartsWithAll(g); }
    assert es[..0] == [];
    var n := 0;
    while n < |es|
      invariant 0 <= n <= |es|
      invariant var r, taken := Run(sv, g.start, es[..n]), TakenBy(sv, g, es[..n]);
        && !r.closed && UnderWay(g, r.conn, taken)
        && BytesLeft(g, r.conn, taken) + n <= |g.head| + |g.file.data|
    {
      assert es[..n + 1][..n] == es[..n];
      RunProgress(sv, g, es[..n + 1]);
      if Served(g, Run(sv, g.start, es[..n + 1]).conn, TakenBy(sv, g, es[..n + 1])) {
        return;
      }
      n := n + 1;
    }
    SomethingIsLeft(g, Run(sv, g.start, es[..n]).conn, TakenBy(sv, g, es[..n]));
  }

  lemma StartsWithAll(g: Getting)
    ensures BytesLeft(g, g.start, 0) <= |g.head| + |g.file.data|
  {
  }

  lemma RunProgress(sv: Server, g: Getting, es: seq<Env>)
    requires ValidGetting(sv, g) && sv.txSize > 0 && es != [] && forall i :: 0 <= i < |es| ==> Helps(es[i])
    requires var most := es[..|es| - 1];
      !Run(sv, g.start, most).closed && UnderWay(g, Run(sv, g.start, most).conn, TakenBy(sv, g, most))
    ensures var r, taken, most := Run(sv, g.start, es), TakenBy(sv, g, es), es[..|es| - 1];
      && !r.closed
      && (|| Served(g, r.conn, taken)
          || (UnderWay(g, r.conn, taken) &&
              BytesLeft(g, r.conn, taken) < BytesLeft(g, Run(sv, g.start, most).conn, TakenBy(sv, g, most))))
  {
    hide HeaderEnd, ParseRequest, FindHandler, FindFile, Work, Served, UnderWay, BytesLeft;
    var n := |es| - 1;
    assert AllConnected(es);
    ServeProgress(sv, g, Run(sv, g.start, es[..n]).conn, TakenBy(sv, g, es[..n]), es[n]);
  }

  // The common form of a GET request is a valid one.
  lemma WellFormedGetIsValid(sv: Server, g: Getting, url: string, version: string, rest: string)
    requires g.head == RequestHead("GET", url, version, rest) && IsToken(url) && IsToken(version)
    requires HeaderEnd(g.head) == |g.head| <= sv.rxSize
    requires FindHandler(sv.handlers, Get, url) == None && FindFile(sv.files, url) == Some(g.file)
    requires Fresh(g.start) && g.start.pending == g.Stream()
    ensures ValidGetting(sv, g)
  {
    WellFormedRequest(0, g.head, url, version, rest);
    hide ParseRequest, FindHandler, FindFile, HeaderEnd;
  }

  // As after a POST, the bytes that follow survive exactly if the receive that completed the
  // head returned nothing beyond it.
  lemma FollowingBytesKeptIff(sv: Server, g: Getting, es: seq<Env>)
    requires |g.head| <= sv.rxSize && Served(g, Run(sv, g.start, es).conn, TakenBy(sv, g, es))
    ensures var taken, left := TakenBy(sv, g, es), Run(sv, g.start, es).conn.pending;
      && left == g.more[taken - |g.head|..]
      && (left == g.more <==> taken == |g.head| || g.more == "")
  {
    hide Run, Taken;
    var taken := TakenBy(sv, g, es);
    assert g.Stream()[taken..] == g.more[taken - |g.head|..];
  }
}
