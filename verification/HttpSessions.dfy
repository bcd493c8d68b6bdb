/** Several requests on one connection that stays open: as long as no receive returns bytes of two
    requests, all of them are served, in order. */
module HttpSessions {
  import opened Common
  import opened HttpRequest
  import opened HttpServer
  import opened HttpStream
  import opened HttpDelivery
  import Files = HttpFiles

  /** A POST for a registered handler, or a GET for a registered file. */
  datatype Exchange =
    | Upload(head: string, body: string, handler: Handler)
    | Download(head: string, file: File)

  /** What the peer sends for it. */
  function Wire(x: Exchange): string {
    if x.Upload? then x.head + x.body else x.head
  }

  function WireAll(xs: seq<Exchange>): string {
    if xs == [] then "" else Wire(xs[0]) + WireAll(xs[1..])
  }

  ghost predicate ValidExchange(sv: Server, x: Exchange) {
    && HeaderEnd(x.head) == |x.head| && |x.head| <= sv.rxSize
    && match x
       case Upload(head, body, handler) =>
         && |body| < TWO_32
         && (exists url ::
              && ParseRequest(head) == Some(Request(Post, url, Some(|body|)))
              && FindHandler(sv.handlers, Post, url) == Some(handler))
       case Download(head, file) =>
         exists url, length ::
           && ParseRequest(head) == Some(Request(Get, url, length))
           && FindHandler(sv.handlers, Get, url) == None && FindFile(sv.files, url) == Some(file)
  }

  ghost predicate AllValid(sv: Server, xs: seq<Exchange>) {
    forall i :: 0 <= i < |xs| ==> ValidExchange(sv, xs[i])
  }

  /** The calls of a served request: the body in order and one response, or one header and the
      file. */
  ghost predicate ServedBy(x: Exchange, outs: seq<Output>) {
    match x
    case Upload(_, body, handler) => exists ds, length, tail :: Answering(body, handler.id, outs, ds, length, tail)
    case Download(_, file) => exists pieces :: SendingOut(file.data, outs, pieces)
  }

  ghost predicate Answering(
    body: string, id: nat, outs: seq<Output>, ds: seq<Output>, length: nat, tail: seq<Output>)
  {
    && AllDeliver(ds, id) && Texts(ds) == body && (tail == [] || tail == [Reply(length)])
    && outs == ds + [Respond(id), Header(OK, length)] + tail
  }

  ghost predicate SendingOut(data: string, outs: seq<Output>, pieces: seq<Output>) {
    Files.AllBody(pieces) && Texts(pieces) == data && outs == [Header(OK, |data|)] + pieces
  }

  /** The calls of a list of served requests, one after the other. */
  ghost predicate AllServedBy(xs: seq<Exchange>, outs: seq<Output>) {
    if xs == [] then outs == []
    else exists k :: 0 <= k <= |outs| && ServedBy(xs[0], outs[..k]) && AllServedBy(xs[1..], outs[k..])
  }

  /** The step gets data, finds transmit space, and neither the network nor the handler fails. */
  ghost predicate Good(e: Env) {
    Files.Helps(e) && e.answer < 0x8000_0000 && e.bodyOk
  }

  ghost predicate AllGood(es: seq<Env>) {
    forall i :: 0 <= i < |es| ==> Good(es[i])
  }

  /** As many steps as one request, or all of them, can need. */
  function Passes(x: Exchange): nat {
    if x.Upload? then |x.head| + |x.body| + 1 else |x.head| + |x.file.data|
  }

  function AllPasses(xs: seq<Exchange>): nat {
    if xs == [] then 0 else Passes(xs[0]) + AllPasses(xs[1..])
  }

  // -------------------------------------------------------- where receives end

  /** How many bytes the receives of a run have returned. */
  function Position(sv: Server, s: Conn, es: seq<Env>): int {
    |s.pending| - |Run(sv, s, es).conn.pending|
  }

  /** No receive of the run returns bytes on both sides of `at`. */
  ghost predicate NotCrossed(sv: Server, s: Conn, es: seq<Env>, at: int) {
    forall n :: 0 <= n < |es| ==> !(Position(sv, s, es[..n]) < at < Position(sv, s, es[..n + 1]))
  }

  /** One of the requests ends `at` bytes after the first begins. */
  predicate EndsAt(xs: seq<Exchange>, at: int) {
    xs != [] && (at == |Wire(xs[0])| || EndsAt(xs[1..], at - |Wire(xs[0])|))
  }

  ghost predicate NoneCrossed(sv: Server, s: Conn, xs: seq<Exchange>, es: seq<Env>) {
    forall at :: EndsAt(xs, at) ==> NotCrossed(sv, s, es, at)
  }

  // --------------------------------------------------------------- one POST

  ghost predicate AnsweredAfter(sv: Server, p: Posting, es: seq<Env>, n: nat)
    requires n <= |es| && |p.head| <= sv.rxSize
  {
    Answered(p, Run(sv, p.start, es[..n]).conn, Excess(p, TakenBy(sv, p, es[..n])))
  }

  lemma FirstAnswer(sv: Server, p: Posting, es: seq<Env>, n: nat) returns (m: nat)
    requires |p.head| <= sv.rxSize && n <= |es| && AnsweredAfter(sv, p, es, n)
    ensures m <= n && AnsweredAfter(sv, p, es, m) && forall k :: 0 <= k < m ==> !AnsweredAfter(sv, p, es, k)
    decreases n
  {
    hide AnsweredAfter;
    if k :| 0 <= k < n && AnsweredAfter(sv, p, es, k) {
      m := FirstAnswer(sv, p, es, k);
    } else {
      m := n;
    }
  }

  // Before the first answer the request is in progress and the connection open.
  lemma StillOpen(sv: Server, p: Posting, es: seq<Env>, m: nat)
    requires ValidPosting(sv, p) && AllGood(es) && m <= |es|
    requires forall k :: 0 <= k <= m ==> !AnsweredAfter(sv, p, es, k)
    ensures !Run(sv, p.start, es[..m]).closed && InProgress(p, Run(sv, p.start, es[..m]).conn, TakenBy(sv, p, es[..m]))
  {
    hide ParseRequest, HeaderEnd, FindHandler, Answered, InProgress, Taken, Run;
    forall n | 0 <= n < m
      ensures !Answered(p, Run(sv, p.start, es[..m][..n]).conn, Excess(p, TakenBy(sv, p, es[..m][..n])))
    {
      assert es[..m][..n] == es[..n];
      assert !AnsweredAfter(sv, p, es, n);
    }
    assert !AnsweredAfter(sv, p, es, m);
    PostNeverCorrupted(sv, p, es[..m]);
    assert !Broken(p, es[..m], TakenBy(sv, p, es[..m]));
  }

  // A step of a request in progress that nothing disturbs leaves the connection open.
  lemma WorkStaysOpen(sv: Server, p: Posting, s: Conn, n: nat, e: Env)
    requires ValidPosting(sv, p) && InProgress(p, s, n) && n <= |p.Stream()| && n <= sv.rxSize && Good(e)
    ensures !Work(sv, s, e).closed
  {
    hide ParseRequest, HeaderEnd, FindHandler, Dispatch, ReadHead, SendFile;
    if n < |p.head| {
      var stream, k := p.Stream(), n + Got(sv, e, n, |p.Stream()|);
      assert p.head <= stream;
      HeadStep(sv, p.start, p.head, stream, s, n, e);
      hide Work;
      if k >= |p.head| {
        PostDispatched(sv, p, p.start.(rx := stream[..k], pending := stream[k..]), stream[|p.head|..k], e);
      }
    }
  }

  lemma NothingAtFirst(p: Posting, lost: nat)
    ensures !Answered(p, p.start, lost)
  {
  }

  // The first answer, when no receive has crossed the end of the request.
  lemma PostIsServed(sv: Server, p: Posting, es: seq<Env>, m: nat)
    requires ValidPosting(sv, p) && AllGood(es) && m <= |es| && AnsweredAfter(sv, p, es, m)
    requires forall k :: 0 <= k < m ==> !AnsweredAfter(sv, p, es, k)
    requires NotCrossed(sv, p.start, es, |p.head| + |p.body|)
    ensures !Run(sv, p.start, es[..m]).closed && Answered(p, Run(sv, p.start, es[..m]).conn, 0)
  {
    hide ParseRequest, HeaderEnd, FindHandler, Answered, Receiving, AnsweredAfter, Work;
    NotAtStart(sv, p, es);
    StillOpen(sv, p, es, m - 1);
    LastStep(sv, p, es, m);
    var before := es[..m - 1];
    WorkStaysOpen(sv, p, Run(sv, p.start, before).conn, TakenBy(sv, p, before), es[m - 1]);
  }

  lemma NotAtStart(sv: Server, p: Posting, es: seq<Env>)
    requires |p.head| <= sv.rxSize
    ensures !AnsweredAfter(sv, p, es, 0)
  {
    hide Answered, Work;
    assert es[..0] == [];
    NothingAtFirst(p, Excess(p, 0));
  }

  // The step to the answer starts from the step before, and loses nothing.
  lemma LastStep(sv: Server, p: Posting, es: seq<Env>, m: nat)
    requires ValidPosting(sv, p) && AllGood(es) && 0 < m <= |es| && AnsweredAfter(sv, p, es, m)
    requires var before := es[..m - 1];
      !Run(sv, p.start, before).closed && InProgress(p, Run(sv, p.start, before).conn, TakenBy(sv, p, before))
    requires NotCrossed(sv, p.start, es, |p.head| + |p.body|)
    ensures Run(sv, p.start, es[..m]) == Work(sv, Run(sv, p.start, es[..m - 1]).conn, es[m - 1])
    ensures Answered(p, Run(sv, p.start, es[..m]).conn, 0)
  {
    hide ParseRequest, HeaderEnd, FindHandler, Receiving, Answered, Work, NotCrossed;
    assert es[..m][..m - 1] == es[..m - 1];
    var n, lost := TakenBy(sv, p, es[..m - 1]), Excess(p, TakenBy(sv, p, es[..m]));
    assert Answered(p, Run(sv, p.start, es[..m]).conn, lost);
    if n < |p.head| {
      LostIsCrossed(sv, p, es, m, n, lost);
    }
  }

  lemma LostIsCrossed(sv: Server, p: Posting, es: seq<Env>, m: nat, n: nat, lost: nat)
    requires 0 < m <= |es| && NotCrossed(sv, p.start, es, |p.head| + |p.body|) && p.start.pending == p.Stream()
    requires n < |p.head| && WaitingAt(p.start, p.Stream(), Run(sv, p.start, es[..m - 1]).conn, n)
    requires Answered(p, Run(sv, p.start, es[..m]).conn, lost)
    ensures lost == 0
  {
    hide Run;
    assert Position(sv, p.start, es[..m - 1]) == n;
    assert Position(sv, p.start, es[..m]) == |p.head| + |p.body| + lost;
    assert !(Position(sv, p.start, es[..m - 1]) < |p.head| + |p.body| < Position(sv, p.start, es[..m - 1 + 1]));
  }

  // ---------------------------------------------------------------- one GET

  ghost predicate ServedAfter(sv: Server, g: Files.Getting, es: seq<Env>, n: nat)
    requires n <= |es| && |g.head| <= sv.rxSize
  {
    Files.Served(g, Run(sv, g.start, es[..n]).conn, Files.TakenBy(sv, g, es[..n]))
  }

  lemma FirstServed(sv: Server, g: Files.Getting, es: seq<Env>, n: nat) returns (m: nat)
    requires |g.head| <= sv.rxSize && n <= |es| && ServedAfter(sv, g, es, n)
    ensures m <= n && ServedAfter(sv, g, es, m) && forall k :: 0 <= k < m ==> !ServedAfter(sv, g, es, k)
    decreases n
  {
    hide ServedAfter;
    if k :| 0 <= k < n && ServedAfter(sv, g, es, k) {
      m := FirstServed(sv, g, es, k);
    } else {
      m := n;
    }
  }

  // Until the file is out the connection is open, and the receives have returned what the
  // request accounts for.
  lemma FileStaysOpen(sv: Server, g: Files.Getting, es: seq<Env>, m: nat)
    requires Files.ValidGetting(sv, g) && AllGood(es) && m <= |es|
    requires forall k :: 0 <= k < m ==> !ServedAfter(sv, g, es, k)
    ensures !Run(sv, g.start, es[..m]).closed && Position(sv, g.start, es[..m]) == Files.TakenBy(sv, g, es[..m])
  {
    hide ParseRequest, HeaderEnd, FindHandler, FindFile, Taken, Run, Files.Served, Files.UnderWay;
    forall n | 0 <= n < m
      ensures !Files.Served(g, Run(sv, g.start, es[..m][..n]).conn, Files.TakenBy(sv, g, es[..m][..n]))
    {
      assert es[..m][..n] == es[..n];
      assert !ServedAfter(sv, g, es, n);
    }
    Files.FileNeverCorrupted(sv, g, es[..m]);
    assert !Files.Failed(es[..m]) by {
      assert forall n :: 0 <= n < m ==> Good(es[..m][n]);
    }
    PendingIsRest(g, Run(sv, g.start, es[..m]).conn, Files.TakenBy(sv, g, es[..m]));
  }

  lemma PendingIsRest(g: Files.Getting, s: Conn, taken: nat)
    requires taken <= |g.Stream()| && (Files.UnderWay(g, s, taken) || Files.Served(g, s, taken))
    ensures |s.pending| == |g.Stream()| - taken
  {
  }

  // So if no receive crosses the end of the head, no more than the head is taken.
  lemma {:induction false} HeadIsTaken(sv: Server, g: Files.Getting, es: seq<Env>, m: nat)
    requires Files.ValidGetting(sv, g) && AllGood(es) && m <= |es|
    requires forall k :: 0 <= k < m ==> !ServedAfter(sv, g, es, k)
    requires NotCrossed(sv, g.start, es, |g.head|)
    ensures Files.TakenBy(sv, g, es[..m]) <= |g.head|
    decreases m
  {
    hide ParseRequest, HeaderEnd, FindHandler, FindFile, Run, ServedAfter, Position, AllGood;
    if m > 0 {
      HeadIsTaken(sv, g, es, m - 1);
      FileStaysOpen(sv, g, es, m - 1);
      FileStaysOpen(sv, g, es, m);
      assert es[..m][..m - 1] == es[..m - 1];
      assert !(Position(sv, g.start, es[..m - 1]) < |g.head| < Position(sv, g.start, es[..m - 1 + 1]));
    }
  }

  // ----------------------------------------------------------- one request

  lemma PartOfRun(sv: Server, s: Conn, es: seq<Env>, n: nat, at: int)
    requires n <= |es|
    ensures AllGood(es) ==> AllGood(es[..n])
    ensures NotCrossed(sv, s, es, at) ==> NotCrossed(sv, s, es[..n], at)
  {
    hide Position, Good;
    assert forall k :: 0 <= k <= n ==> es[..n][..k] == es[..k];
  }

  /** The outcome of a run that has served what led to `outs`, with `more` still to come. */
  function After(s: Conn, more: string, outs: seq<Output>): Outcome {
    Outcome(s.(pending := more, log := s.log + outs), false)
  }

  lemma UploadIsServed(sv: Server, s: Conn, x: Exchange, more: string, es: seq<Env>) returns (n: nat, outs: seq<Output>)
    requires x.Upload? && ValidExchange(sv, x) && Fresh(s) && s.pending == Wire(x) + more
    requires AllGood(es) && |es| == Passes(x) && NotCrossed(sv, s, es, |Wire(x)|)
    ensures n <= |es| && ServedBy(x, outs) && Run(sv, s, es[..n]) == After(s, more, outs)
  {
    hide ParseRequest, HeaderEnd, FindHandler, FindFile, NotCrossed, Run, Taken;
    var p := Posting(s, x.head, x.body, more, x.handler);
    assert ValidPosting(sv, p);
    assert forall i :: 0 <= i < |es| ==> Good(es[i]) && es[i].connected && es[i].received > 0;
    hide ValidPosting;
    PostIsAnswered(sv, p, es);
    var k :| 0 <= k <= |es| && Answered(p, Run(sv, p.start, es[..k]).conn, Excess(p, TakenBy(sv, p, es[..k])));
    assert AnsweredAfter(sv, p, es, k);
    n := FirstAnswer(sv, p, es, k);
    PostIsServed(sv, p, es, n);
    outs := AnswerOuts(p, x, Run(sv, s, es[..n]).conn);
  }

  lemma AnswerOuts(p: Posting, x: Exchange, s: Conn) returns (outs: seq<Output>)
    requires x == Upload(p.head, p.body, p.handler) && Answered(p, s, 0)
    ensures ServedBy(x, outs) && s == p.start.(pending := p.more, log := p.start.log + outs)
  {
    var ds, length, tail :| AnsweredWith(p, s, 0, ds, length, tail);
    hide Texts, AllDeliver;
    outs := ds + [Respond(p.handler.id), Header(OK, length)] + tail;
    assert Answering(p.body, p.handler.id, outs, ds, length, tail);
    assert p.more[0..] == p.more;
  }

  lemma DownloadIsServed(sv: Server, s: Conn, x: Exchange, more: string, es: seq<Env>)
    returns (n: nat, outs: seq<Output>)
    requires x.Download? && ValidExchange(sv, x) && Fresh(s) && s.pending == Wire(x) + more && sv.txSize > 0
    requires AllGood(es) && |es| == Passes(x) && NotCrossed(sv, s, es, |Wire(x)|)
    ensures n <= |es| && ServedBy(x, outs) && Run(sv, s, es[..n]) == After(s, more, outs)
  {
    hide ParseRequest, HeaderEnd, FindHandler, FindFile, NotCrossed, Run, Taken;
    var g := Files.Getting(s, x.head, more, x.file);
    assert Files.ValidGetting(sv, g);
    assert forall i :: 0 <= i < |es| ==> Good(es[i]) && Files.Helps(es[i]);
    hide Files.ValidGetting;
    Files.FileIsSent(sv, g, es);
    var k :| 0 <= k <= |es| && Files.Served(g, Run(sv, g.start, es[..k]).conn, Files.TakenBy(sv, g, es[..k]));
    assert ServedAfter(sv, g, es, k);
    n := FirstServed(sv, g, es, k);
    FileStaysOpen(sv, g, es, n);
    HeadIsTaken(sv, g, es, n);
    outs := FileOuts(g, x, Run(sv, s, es[..n]).conn, Files.TakenBy(sv, g, es[..n]));
  }

  lemma FileOuts(g: Files.Getting, x: Exchange, s: Conn, taken: nat) returns (outs: seq<Output>)
    requires x == Download(g.head, g.file) && Files.Served(g, s, taken) && taken <= |g.head|
    ensures ServedBy(x, outs) && s == g.start.(pending := g.more, log := g.start.log + outs)
  {
    var pieces :| Files.SentWith(Files.Base(g, taken), g.file, s, pieces);
    hide Texts, Files.AllBody;
    outs := [Header(OK, |g.file.data|)] + pieces;
    assert SendingOut(g.file.data, outs, pieces);
    assert g.Stream()[|g.head|..] == g.more;
  }

  lemma OneIsServed(sv: Server, s: Conn, x: Exchange, more: string, es: seq<Env>) returns (n: nat, outs: seq<Output>)
    requires ValidExchange(sv, x) && Fresh(s) && s.pending == Wire(x) + more && sv.txSize > 0
    requires AllGood(es) && |es| >= Passes(x) && NotCrossed(sv, s, es, |Wire(x)|)
    ensures n <= Passes(x) && ServedBy(x, outs) && Run(sv, s, es[..n]) == After(s, more, outs)
  {
    hide ValidExchange, NotCrossed, AllGood, ServedBy, Run, Fresh;
    PartOfRun(sv, s, es, Passes(x), |Wire(x)|);
    if x.Upload? {
      n, outs := UploadIsServed(sv, s, x, more, es[..Passes(x)]);
    } else {
      n, outs := DownloadIsServed(sv, s, x, more, es[..Passes(x)]);
    }
    assert es[..Passes(x)][..n] == es[..n];
  }

  // ------------------------------------------------------------ all of them

  lemma {:induction false} RunSplit(sv: Server, s: Conn, es: seq<Env>, n: nat)
    requires n <= |es| && !Run(sv, s, es[..n]).closed
    ensures Run(sv, s, es) == Run(sv, Run(sv, s, es[..n]).conn, es[n..])
    decreases |es|
  {
    hide Work;
    if n == |es| {
      assert es[..n] == es && es[n..] == [];
    } else {
      var most := es[..|es| - 1];
      assert most[..n] == es[..n] && most[n..] == es[n..][..|es| - n - 1];
      RunSplit(sv, s, most, n);
    }
  }

  // What holds of the receives of a run holds, shifted, of those after its first `n` steps.
  lemma RestNotCrossed(sv: Server, s: Conn, es: seq<Env>, n: nat, at: int)
    requires n <= |es| && !Run(sv, s, es[..n]).closed
    requires NotCrossed(sv, s, es, at + Position(sv, s, es[..n]))
    ensures NotCrossed(sv, Run(sv, s, es[..n]).conn, es[n..], at)
  {
    hide Run;
    var s', d := Run(sv, s, es[..n]).conn, Position(sv, s, es[..n]);
    forall k | 0 <= k < |es| - n
      ensures !(Position(sv, s', es[n..][..k]) < at < Position(sv, s', es[n..][..k + 1]))
    {
      ShiftedPosition(sv, s, es, n, k);
      ShiftedPosition(sv, s, es, n, k + 1);
      assert !(Position(sv, s, es[..n + k]) < at + d < Position(sv, s, es[..n + k + 1]));
    }
  }

  lemma ShiftedPosition(sv: Server, s: Conn, es: seq<Env>, n: nat, k: nat)
    requires n + k <= |es| && !Run(sv, s, es[..n]).closed
    ensures Position(sv, s, es[..n + k]) ==
      Position(sv, s, es[..n]) + Position(sv, Run(sv, s, es[..n]).conn, es[n..][..k])
  {
    hide Work;
    var part := es[..n + k];
    assert part[..n] == es[..n] && part[n..] == es[n..][..k];
    RunSplit(sv, s, part, n);
  }

  lemma AfterBoth(s: Conn, more: string, a: seq<Output>, rest: string, b: seq<Output>)
    ensures After(After(s, more, a).conn, rest, b) == After(s, rest, a + b)
  {
    assert (s.log + a) + b == s.log + (a + b);
  }

  lemma ServedInTurn(x: Exchange, xs: seq<Exchange>, a: seq<Output>, b: seq<Output>)
    requires xs != [] && xs[0] == x && ServedBy(x, a) && AllServedBy(xs[1..], b)
    ensures AllServedBy(xs, a + b)
  {
    hide ServedBy;
    assert (a + b)[..|a|] == a && (a + b)[|a|..] == b;
  }

  lemma RestIsUncrossed(sv: Server, s: Conn, xs: seq<Exchange>, es: seq<Env>, n: nat)
    requires xs != [] && n <= |es| && NoneCrossed(sv, s, xs, es)
    requires !Run(sv, s, es[..n]).closed && Position(sv, s, es[..n]) == |Wire(xs[0])|
    ensures NoneCrossed(sv, Run(sv, s, es[..n]).conn, xs[1..], es[n..])
  {
    hide Run, NotCrossed, Position, Wire;
    forall at | EndsAt(xs[1..], at)
      ensures NotCrossed(sv, Run(sv, s, es[..n]).conn, es[n..], at)
    {
      assert EndsAt(xs, at + |Wire(xs[0])|);
      RestNotCrossed(sv, s, es, n, at);
    }
  }

  // All requests in turn: the number of steps and the calls.
  lemma {:induction false} ServeAll(sv: Server, s: Conn, xs: seq<Exchange>, more: string, es: seq<Env>)
    returns (n: nat, outs: seq<Output>)
    requires Fresh(s) && s.pending == WireAll(xs) + more && sv.txSize > 0
    requires AllValid(sv, xs)
    requires AllGood(es) && |es| >= AllPasses(xs) && NoneCrossed(sv, s, xs, es)
    ensures n <= AllPasses(xs) && AllServedBy(xs, outs) && Run(sv, s, es[..n]) == After(s, more, outs)
    decreases |xs|
  {
    hide *;
    n, outs := 0, [];
    if xs == [] {
      NoneToServe(sv, s, xs, more, es);
    } else {
      FirstOfAll(sv, xs);
      var k, a := FirstIsServed(sv, s, xs, more, es);
      var s' := Run(sv, s, es[..k]).conn;
      var m, b := ServeAll(sv, s', xs[1..], more, es[k..]);
      ServedTogether(sv, s, xs, WireAll(xs[1..]) + more, more, es, k, a, m, b);
      n, outs := k + m, a + b;
    }
  }

  // Served one after the other is served together.
  lemma ServedTogether(
    sv: Server, s: Conn, xs: seq<Exchange>, rest: string, more: string, es: seq<Env>,
    k: nat, a: seq<Output>, m: nat, b: seq<Output>)
    requires xs != [] && ServedBy(xs[0], a) && AllServedBy(xs[1..], b)
    requires k + m <= |es| && Run(sv, s, es[..k]) == After(s, rest, a)
    requires Run(sv, Run(sv, s, es[..k]).conn, es[k..][..m]) == After(Run(sv, s, es[..k]).conn, more, b)
    ensures AllServedBy(xs, a + b) && Run(sv, s, es[..k + m]) == After(s, more, a + b)
  {
    hide ServedBy, AllServedBy, Run;
    ServedInTurn(xs[0], xs, a, b);
    AfterBoth(s, rest, a, more, b);
    JoinedRun(sv, s, es, k, m);
  }

  lemma FirstOfAll(sv: Server, xs: seq<Exchange>)
    requires xs != []
    ensures AllPasses(xs) == Passes(xs[0]) + AllPasses(xs[1..])
    ensures AllValid(sv, xs) ==> ValidExchange(sv, xs[0]) && AllValid(sv, xs[1..])
  {
    hide ValidExchange, Passes;
  }

  lemma NoneToServe(sv: Server, s: Conn, xs: seq<Exchange>, more: string, es: seq<Env>)
    requires xs == [] && s.pending == WireAll(xs) + more
    ensures AllServedBy(xs, []) && Run(sv, s, es[..0]) == After(s, more, [])
  {
    assert es[..0] == [] && s.log + [] == s.log;
  }

  // The first request is served, and what is left is as before.
  lemma FirstIsServed(sv: Server, s: Conn, xs: seq<Exchange>, more: string, es: seq<Env>)
    returns (k: nat, a: seq<Output>)
    requires Fresh(s) && xs != [] && s.pending == WireAll(xs) + more && sv.txSize > 0 && ValidExchange(sv, xs[0])
    requires AllGood(es) && |es| >= Passes(xs[0]) && NoneCrossed(sv, s, xs, es)
    ensures k <= Passes(xs[0]) && ServedBy(xs[0], a)
    ensures Run(sv, s, es[..k]) == After(s, WireAll(xs[1..]) + more, a) && !Run(sv, s, es[..k]).closed
    ensures var s' := Run(sv, s, es[..k]).conn;
      && Fresh(s') && s'.pending == WireAll(xs[1..]) + more
      && AllGood(es[k..]) && NoneCrossed(sv, s', xs[1..], es[k..])
  {
    hide ValidExchange, NotCrossed, ServedBy, Good, Run, Wire, Passes;
    var x, rest := xs[0], xs[1..];
    assert s.pending == Wire(x) + (WireAll(rest) + more);
    assert EndsAt(xs, |Wire(x)|);
    k, a := OneIsServed(sv, s, x, WireAll(rest) + more, es);
    RestIsUncrossed(sv, s, xs, es, k);
  }

  lemma JoinedRun(sv: Server, s: Conn, es: seq<Env>, k: nat, m: nat)
    requires k + m <= |es| && !Run(sv, s, es[..k]).closed
    ensures Run(sv, s, es[..k + m]) == Run(sv, Run(sv, s, es[..k]).conn, es[k..][..m])
  {
    hide Work;
    var part := es[..k + m];
    assert part[..k] == es[..k] && part[k..] == es[k..][..m];
    RunSplit(sv, s, part, k);
  }

  /** Every list of valid requests: if data keeps coming, nothing fails and no receive returns
      bytes of two requests, then after at most the steps that the requests need one by one all
      have been served, in order, and the connection is open, with exactly what follows them
      still to be read. */
  lemma AllAreServed(sv: Server, s: Conn, xs: seq<Exchange>, more: string, es: seq<Env>)
    requires Fresh(s) && s.pending == WireAll(xs) + more && sv.txSize > 0
    requires AllValid(sv, xs)
    requires AllGood(es) && |es| >= AllPasses(xs) && NoneCrossed(sv, s, xs, es)
    ensures exists n, outs ::
      0 <= n <= AllPasses(xs) && AllServedBy(xs, outs) && Run(sv, s, es[..n]) == After(s, more, outs)
  {
    hide ValidExchange, NoneCrossed, AllGood, AllServedBy, Run, WireAll, Fresh, AllPasses, After;
    var n, outs := ServeAll(sv, s, xs, more, es);
  }
}
