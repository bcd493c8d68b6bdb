/** One UDP socket shared by all end-points that run DHCP, with a count of its users. The
    same design serves DHCPv4 and DHCPv6. */
module SharedSocket {
  import opened Common

  /** `holders[i]` is the socket end-point `i` uses. Sockets are numbered in the order in
      which they are opened; `closed` lists those that were closed, in order. */
  datatype Sockets = Sockets(
    holders: seq<Option<nat>>, socket: Option<nat>, users: int, made: nat, closed: seq<nat>)

  function Initial(n: nat): Sockets {
    Sockets(seq(n, i => None), None, 0, 0, [])
  }

  /** An end-point stops using the socket; the last one closes it. */
  function Close(s: Sockets, i: nat): (s': Sockets)
    requires i < |s.holders|
    ensures |s'.holders| == |s.holders|
  {
    if s.holders[i].None? || s.holders[i] != s.socket then s
    else if s.users > 0 then
      var s1 := s.(users := s.users - 1, holders := s.holders[i := None]);
      if s1.users == 0 then s1.(socket := None, closed := s.closed + [s.socket.value]) else s1
    else s
  }

  /** An end-point starts using the socket; the first one opens it. `socketOk` and `bindOk`
      say whether the network stack grants the socket and its port. */
  function Create(s: Sockets, i: nat, socketOk: bool, bindOk: bool): (s': Sockets)
    requires i < |s.holders|
    ensures |s'.holders| == |s.holders|
  {
    if s.socket.Some? && s.holders[i] == s.socket then s
    else if s.socket.None? then
      if !socketOk then s.(holders := s.holders[i := None])
      else
        var s1 := s.(socket := Some(s.made), made := s.made + 1, users := 1,
                     holders := s.holders[i := Some(s.made)]);
        if bindOk then s1 else Close(s1, i)
    else s.(users := s.users + 1, holders := s.holders[i := s.socket])
  }

  // -------------------------------------------------------------- the invariant

  function Held(hs: seq<Option<nat>>): nat {
    if hs == [] then 0 else Held(hs[..|hs| - 1]) + if hs[|hs| - 1].Some? then 1 else 0
  }

  /** The count is the number of holders, all of them hold the one open socket, there is one
      exactly when it has users, and every socket ever opened is either the open one or
      was closed once. */
  ghost predicate Balanced(s: Sockets) {
    && s.users == Held(s.holders)
    && (forall i :: 0 <= i < |s.holders| && s.holders[i].Some? ==> s.holders[i] == s.socket)
    && (s.socket.None? <==> s.users == 0)
    && Distinct(s.closed)
    && (forall k: nat :: k < s.made <==> k in s.closed || s.socket == Some(k))
    && (s.socket.Some? ==> s.socket.value !in s.closed)
  }

  lemma {:induction false} HeldUpdate(hs: seq<Option<nat>>, i: nat, h: Option<nat>)
    requires i < |hs|
    ensures Held(hs[i := h]) ==
      Held(hs) - (if hs[i].Some? then 1 else 0) + if h.Some? then 1 else 0
  {
    var n := |hs| - 1;
    if i < n {
      assert hs[i := h][..n] == hs[..n][i := h];
      HeldUpdate(hs[..n], i, h);
    } else {
      assert hs[i := h][..n] == hs[..n];
    }
  }

  lemma {:induction false} HeldNone(hs: seq<Option<nat>>)
    ensures Held(hs) == 0 <==> forall i :: 0 <= i < |hs| ==> hs[i].None?
  {
    if hs != [] {
      HeldNone(hs[..|hs| - 1]);
    }
  }

  lemma InitialBalanced(n: nat)
    ensures Balanced(Initial(n))
  {
    HeldNone(Initial(n).holders);
  }

  // Whoever holds the socket is counted: the branch for "a socket without users" is dead.
  lemma HolderIsCounted(s: Sockets, i: nat)
    requires Balanced(s) && i < |s.holders| && s.holders[i].Some?
    ensures s.users > 0
  {
    HeldNone(s.holders);
  }

  lemma CloseKeepsBalanced(s: Sockets, i: nat)
    requires Balanced(s) && i < |s.holders|
    ensures Balanced(Close(s, i)) && Close(s, i).holders == s.holders[i := None]
  {
    HeldUpdate(s.holders, i, None);
    HeldNone(s.holders[i := None]);
    if s.holders[i].Some? {
      HolderIsCounted(s, i);
    }
  }

  lemma CreateKeepsBalanced(s: Sockets, i: nat, socketOk: bool, bindOk: bool)
    requires Balanced(s) && i < |s.holders|
    ensures Balanced(Create(s, i, socketOk, bindOk))
    ensures socketOk && bindOk ==> Create(s, i, socketOk, bindOk).holders[i].Some?
    ensures forall j :: 0 <= j < |s.holders| && j != i ==> Create(s, i, socketOk, bindOk).holders[j] == s.holders[j]
  {
    HeldNone(s.holders);
    HeldUpdate(s.holders, i, Some(s.made));
    HeldUpdate(s.holders, i, s.socket);
    if s.socket.None? && socketOk {
      var s1 := s.(socket := Some(s.made), made := s.made + 1, users := 1,
                   holders := s.holders[i := Some(s.made)]);
      assert Balanced(s1);
      CloseKeepsBalanced(s1, i);
    } else if s.socket.None? {
      assert s.holders[i := None] == s.holders;
    }
  }

  // ------------------------------------------------------------------ every run

  datatype Use = Start(i: nat, socketOk: bool, bindOk: bool) | Finish(i: nat)

  function Step(s: Sockets, u: Use): Sockets {
    if u.i >= |s.holders| then s
    else match u
      case Start(i, socketOk, bindOk) => Create(s, i, socketOk, bindOk)
      case Finish(i) => Close(s, i)
  }

  function Run(s: Sockets, us: seq<Use>): Sockets {
    if us == [] then s else Step(Run(s, us[..|us| - 1]), us[|us| - 1])
  }

  /** Any number of end-points may start and stop using the socket in any order. */
  lemma {:induction false} EveryRunIsBalanced(n: nat, us: seq<Use>)
    ensures Balanced(Run(Initial(n), us))
  {
    if us == [] {
      InitialBalanced(n);
    } else {
      EveryRunIsBalanced(n, us[..|us| - 1]);
      var s, u := Run(Initial(n), us[..|us| - 1]), us[|us| - 1];
      if u.i < |s.holders| {
        CloseKeepsBalanced(s, u.i);
        if u.Start? {
          CreateKeepsBalanced(s, u.i, u.socketOk, u.bindOk);
        }
      }
    }
  }

  // --------------------------------------------------------------- as an object

  class Pool {
    var holders: seq<Option<nat>>
    var socket: Option<nat>
    var users: int
    var made: nat // numbers the sockets that the network stack hands out
    ghost var closed: seq<nat>

    ghost function State(): Sockets
      reads this
    {
      Sockets(holders, socket, users, made, closed)
    }

    constructor (n: nat)
      ensures State() == Initial(n) && Balanced(State())
    {
      holders, socket, users := seq(n, i => None), None, 0;
      made, closed := 0, [];
      new;
      InitialBalanced(n);
    }

    method CloseSocket(i: nat)
      requires i < |holders| && Balanced(State())
      modifies this
      ensures State() == Close(old(State()), i) && Balanced(State())
    {
      CloseKeepsBalanced(State(), i);
      if holders[i].None? || holders[i] != socket {
      } else if users > 0 {
        users := users - 1;
        if users == 0 {
          closed := closed + [socket.value];
          socket := None;
        }
        holders := holders[i := None];
      } else {
        HolderIsCounted(State(), i);
        assert false;
      }
    }

    method CreateSocket(i: nat, socketOk: bool, bindOk: bool)
      requires i < |holders| && Balanced(State())
      modifies this
      ensures State() == Create(old(State()), i, socketOk, bindOk) && Balanced(State())
    {
      CreateKeepsBalanced(State(), i, socketOk, bindOk);
      if socket.Some? && holders[i] == socket {
      } else if socket.None? {
        if socketOk {
          socket, made := Some(made), made + 1;
          users := 1;
          holders := holders[i := socket];
          if !bindOk {
            assert Balanced(State()) by { OneUser(old(State()), State(), i); }
            CloseSocket(i);
          }
        } else {
          socket := None;
          holders := holders[i := None];
        }
      } else {
        users := users + 1;
        holders := holders[i := socket];
      }
    }

    /** The DHCPv6 variant: opening the socket is not allowed to fail. */
    method CreateSocketV6(i: nat)
      requires i < |holders| && Balanced(State())
      modifies this
      ensures State() == Create(old(State()), i, true, true) && Balanced(State())
      ensures holders[i].Some?
    {
      CreateKeepsBalanced(State(), i, true, true);
      if socket.Some? && holders[i] == socket {
      } else if socket.None? {
        socket, made := Some(made), made + 1;
        users := 1;
      } else {
        users := users + 1;
      }
      holders := holders[i := socket];
    }
  }

  lemma OneUser(s: Sockets, s1: Sockets, i: nat)
    requires Balanced(s) && i < |s.holders| && s.socket.None?
    requires s1 == s.(socket := Some(s.made), made := s.made + 1, users := 1,
                      holders := s.holders[i := Some(s.made)])
    ensures Balanced(s1)
  {
    HeldNone(s.holders);
    HeldUpdate(s.holders, i, Some(s.made));
  }
}
