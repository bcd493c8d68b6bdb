/** How requests come in, for every way in which TCP cuts the stream of a connection. */
module HttpStream {
  import opened Common
  import opened HttpRequest
  import opened HttpServer

  function Text(o: Output): string {
    if o.Body? || o.Deliver? then o.text else ""
  }

  /** The concatenated text of a list of calls. */
  function Texts(outs: seq<Output>): string {
    if outs == [] then "" else Texts(outs[..|outs| - 1]) + Text(outs[|outs| - 1])
  }

  lemma TextsAppend(outs: seq<Output>, o: Output)
    ensures Texts(outs + [o]) == Texts(outs) + Text(o)
  {
    assert (outs + [o])[..|outs|] == outs;
  }

  lemma {:induction false} TextsConcat(a: seq<Output>, b: seq<Output>)
    ensures Texts(a + b) == Texts(a) + Texts(b)
  {
    hide Text;
    if b == [] {
      assert a + b == a;
    } else {
      var most, last := b[..|b| - 1], b[|b| - 1];
      TextsConcat(a, most);
      TextsAppend(a + most, last);
      TextsAppend(most, last);
      hide Texts;
      assert a + b == a + most + [last] && b == most + [last];
      Associates(Texts(a), Texts(most), Text(last));
    }
  }

  lemma Associates(x: string, y: string, z: string)
    ensures (x + y) + z == x + (y + z)
  {
  }

  /** Between two requests. */
  ghost predicate Fresh(s: Conn) {
    s == Clear(s)
  }

  /** `n` bytes of the stream have arrived, and nothing else has happened. */
  predicate WaitingAt(start: Conn, stream: string, s: Conn, n: nat) {
    n <= |stream| && s == start.(rx := stream[..n], pending := stream[n..])
  }

  // ---------------------------------------------------- where the stream is cut

  ghost predicate AllConnected(es: seq<Env>) {
    forall i :: 0 <= i < |es| ==> es[i].connected
  }

  /** What one receive in the head phase returns, after `n` of `total` bytes. */
  function Got(sv: Server, e: Env, n: nat, total: nat): (k: nat)
    requires n <= sv.rxSize && n <= total
    ensures n + k <= total && n + k <= sv.rxSize
  {
    if e.connected && e.received > 0 then Min(e.received, Min(sv.rxSize - n, total - n)) else 0
  }

  /** How many of `total` bytes have been received when a head of `size` bytes is complete, or
      so far if it is not: a function of the receives alone. */
  ghost function Taken(sv: Server, size: nat, total: nat, es: seq<Env>): (n: nat)
    requires size <= sv.rxSize
    ensures n <= total && n <= sv.rxSize
  {
    if es == [] then 0
    else TakenNext(sv, size, total, Taken(sv, size, total, es[..|es| - 1]), es[|es| - 1], AllConnected(es))
  }

  function TakenNext(sv: Server, size: nat, total: nat, n: nat, e: Env, connected: bool): (n': nat)
    requires n <= sv.rxSize && n <= total
    ensures n' <= total && n' <= sv.rxSize
  {
    if n >= size || !connected then n else n + Got(sv, e, n, total)
  }

  // A connection that is still open was connected at every step.
  lemma {:induction false} OpenIsConnected(sv: Server, s: Conn, es: seq<Env>)
    ensures AllConnected(es) || Run(sv, s, es).closed
  {
    hide Work;
    if es != [] {
      var n := |es| - 1;
      OpenIsConnected(sv, s, es[..n]);
      WorkNeedsConnection(sv, Run(sv, s, es[..n]).conn, es[n]);
      assert AllConnected(es[..n]) && es[n].connected ==> AllConnected(es);
    }
  }

  lemma WorkNeedsConnection(sv: Server, s: Conn, e: Env)
    ensures e.connected || Work(sv, s, e).closed
  {
    hide ReadHead, SendFile, PostNext;
  }

  // ------------------------------------------------------------- the head phase

  // Bytes that arrive in the head phase are appended to the buffer.
  lemma ReadStep(sv: Server, s: Conn, stream: string, n: nat, e: Env)
    requires s.command == Unknown && n <= |stream| && n < sv.rxSize
    requires s.rx == stream[..n] && s.pending == stream[n..] && n < |stream| && e.connected && e.received > 0
    ensures var m := Received(e, sv.rxSize - n, s.pending);
      && 0 < m && n + m <= |stream|
      && Work(sv, s, e) == HandleRx(sv, s.(rx := stream[..n + m], pending := stream[n + m..]), e)
  {
    hide HandleRx, SendFile, PostNext;
    var m := Received(e, sv.rxSize - n, s.pending);
    assert stream[..n] + stream[n..][..m] == stream[..n + m];
    assert stream[n..][m..] == stream[n + m..];
  }

  lemma QuietStep(sv: Server, s: Conn, e: Env)
    requires s.command == Unknown && e.connected && e.received <= 0
    ensures Work(sv, s, e) == Outcome(s, false)
  {
    hide HandleRx, SendFile, PostNext;
  }

  // Either the head is still incomplete, or exactly the head is dispatched.
  lemma HandleStep(sv: Server, s: Conn, head: string, stream: string, n: nat, e: Env)
    requires |head| <= sv.rxSize && HeaderEnd(head) == |head| && head <= stream
    requires n <= |stream| && s.rx == stream[..n]
    ensures HandleRx(sv, s, e) ==
      if n < |head| then Outcome(s, false) else Dispatch(sv, s, head, stream[|head|..n], e)
  {
    hide Dispatch, HeaderEnd;
    HeaderEndStable(head, stream, n);
    assert n >= |head| ==> s.rx[..|head|] == head && s.rx[|head|..] == stream[|head|..n];
  }

  // A step in the head phase: the receive is kept, and completes the head or not.
  lemma HeadStep(sv: Server, start: Conn, head: string, stream: string, s: Conn, n: nat, e: Env)
    requires |head| <= sv.rxSize && HeaderEnd(head) == |head| && head <= stream
    requires Fresh(start) && n < |head| && WaitingAt(start, stream, s, n) && e.connected
    ensures
      var k := n + Got(sv, e, n, |stream|);
      var s1 := start.(rx := stream[..k], pending := stream[k..]);
      && WaitingAt(start, stream, s1, k)
      && (e.received > 0 ==> k > n)
      && Work(sv, s, e) == if k < |head| then Outcome(s1, false) else Dispatch(sv, s1, head, stream[|head|..k], e)
  {
    hide HandleRx, Dispatch, HeaderEnd, Work;
    if e.received <= 0 {
      QuietStep(sv, s, e);
    } else {
      ReadStep(sv, s, stream, n, e);
      var k := n + Got(sv, e, n, |stream|);
      assert k == n + Received(e, sv.rxSize - n, s.pending);
      hide Received, Got;
      HandleStep(sv, start.(rx := stream[..k], pending := stream[k..]), head, stream, k, e);
    }
  }
}
