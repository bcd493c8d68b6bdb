/** The loop over the sub-options of an identity association: when it ends, and when it does not. */
module Dhcpv6SubLoop {
  import opened Common
  import opened BitCursor
  import opened Dhcpv6Parser

  // ------------------------------------------------------------ one position

  function CodeAt(data: Bytes, i: nat): UInt16
    requires i + 4 <= |data|
  {
    Value16(data[i..i + 2])
  }

  function LengthAt(data: Bytes, i: nat): UInt16
    requires i + 4 <= |data|
  {
    Value16(data[i + 2..i + 4])
  }

  predicate IsKnown(option: UInt16) { option == IA_ADDRESS || option == IA_PREFIX || option == STATUS_CODE }

  /** The position after the sub-option at position `i`, from the bytes alone; none if the loop
      ends there. `start` and `length` are those of the whole option. */
  function NextPosition(data: Bytes, start: nat, length: nat, i: nat): (r: Option<nat>)
    requires start <= i <= |data|
    ensures r.Some? ==> start <= r.value <= |data|
  {
    if length < i - start + 4 || i + 4 > |data| then None
    else
      var n := LengthAt(data, i);
      var option := CodeAt(data, i);
      if !LengthValid(option, n, |data| - i - 4) then None
      else if option == IA_ADDRESS then Some(i + 28)
      else if option == IA_PREFIX then Some(i + 29)
      else if option == STATUS_CODE then
        if Value16(data[i + 4..i + 6]) == 0 then Some(i + 4 + n) else None
      else Some(start + n)
  }

  /** A known sub-option leads forward; an unknown one leads to its own length, counted from the
      start of the option, wherever it stands. */
  lemma KnownLeadsForward(data: Bytes, start: nat, length: nat, i: nat)
    requires start <= i <= |data| && NextPosition(data, start, length, i).Some?
    ensures i + 4 <= |data|
    ensures var next := NextPosition(data, start, length, i).value;
      if IsKnown(CodeAt(data, i)) then next > i else next == start + LengthAt(data, i)
  {
    hide Value16;
  }

  /** The position after `k` sub-options, if the loop gets that far. */
  function Walk(data: Bytes, start: nat, length: nat, i: nat, k: nat): (r: Option<nat>)
    requires start <= i <= |data|
    ensures r.Some? ==> start <= r.value <= |data|
  {
    if k == 0 then Some(i)
    else
      match Walk(data, start, length, i, k - 1)
      case None => None
      case Some(j) => NextPosition(data, start, length, j)
  }

  // -------------------------------------------------------- a round is a step

  ghost predicate Fits(c: Cursor, start: nat) {
    !c.err && start <= c.index <= |c.data| < 0xFFFF
  }

  lemma HeaderReads(c: Cursor)
    requires !c.err && c.index <= |c.data|
    ensures var (c1, option) := Read16(c);
      var (c2, length) := Read16(c1);
      && c2.data == c.data
      && (c2.err <==> c.index + 4 > |c.data|)
      && (!c2.err ==> c2 == c.(index := c.index + 4) && option == CodeAt(c.data, c.index) &&
                      length == LengthAt(c.data, c.index))
      && (c2.err ==> length == 0xFFFF)
  {
    hide Value16;
  }

  lemma AddressAdvances(p: Parse)
    requires !p.c.err && p.c.index + 24 <= |p.c.data|
    ensures ReadIaAddress(p).c == p.c.(index := p.c.index + 24)
  {
    hide Value32;
  }

  lemma PrefixAdvances(p: Parse)
    requires !p.c.err && p.c.index + 25 <= |p.c.data|
    ensures ReadIaPrefix(p).c == p.c.(index := p.c.index + 25)
  {
    hide Value32;
  }

  lemma StatusAdvances(c: Cursor, n: nat)
    requires !c.err && n >= 2 && c.index + n <= |c.data|
    ensures StatusCode(c, n) == (c.(index := c.index + n), Value16(c.data[c.index..c.index + 2]) == 0)
  {
    hide Value16;
  }

  lemma BodyIsStep(p: Parse, start: nat, length: nat, i: nat)
    requires Fits(p.c, start) && start <= i && i + 4 == p.c.index && i - start + 4 <= length
    requires LengthValid(CodeAt(p.c.data, i), LengthAt(p.c.data, i), |p.c.data| - i - 4)
    ensures var (p', ok) := SubBody(p, start, CodeAt(p.c.data, i), LengthAt(p.c.data, i));
      match NextPosition(p.c.data, start, length, i)
      case None => !ok
      case Some(j) => ok && p'.c == p.c.(index := j)
  {
    hide Value16, ReadIaAddress, ReadIaPrefix, StatusCode;
    var option, n := CodeAt(p.c.data, i), LengthAt(p.c.data, i);
    hide CodeAt, LengthAt;
    if option == IA_ADDRESS {
      AddressAdvances(p);
    } else if option == IA_PREFIX {
      PrefixAdvances(p);
    } else if option == STATUS_CODE {
      StatusAdvances(p.c, n);
    }
  }

  lemma RoundIsStep(p: Parse, start: nat, length: nat)
    requires Fits(p.c, start) && p.c.index - start + 4 <= length
    ensures var (p', ok) := SubRound(p, start);
      match NextPosition(p.c.data, start, length, p.c.index)
      case None => !ok
      case Some(j) => ok && p'.c == p.c.(index := j)
  {
    var i := p.c.index;
    var (c1, option) := Read16(p.c);
    var (c2, n) := Read16(c1);
    HeaderReads(p.c);
    hide Read16, CodeAt, LengthAt, SubBody;
    if i + 4 <= |p.c.data| && LengthValid(option, n, |p.c.data| - i - 4) {
      BodyIsStep(p.(c := c2), start, length, i);
    }
  }

  // ---------------------------------------------------- the loop is the walk

  lemma {:induction false} WalkFirst(data: Bytes, start: nat, length: nat, i: nat, k: nat)
    requires start <= i <= |data|
    ensures Walk(data, start, length, i, k + 1) ==
      match NextPosition(data, start, length, i)
      case None => None
      case Some(j) => Walk(data, start, length, j, k)
  {
    hide NextPosition;
    if k > 0 {
      WalkFirst(data, start, length, i, k - 1);
    } else {
      assert Walk(data, start, length, i, 0) == Some(i);
    }
  }

  /** After `rounds` rounds the loop goes on if the walk gets one further, and only if it gets
      that far. */
  lemma {:induction false} LoopIsWalk(rounds: nat, p: Parse, start: nat, length: nat)
    requires Fits(p.c, start)
    ensures Walk(p.c.data, start, length, p.c.index, rounds + 1).Some? ==>
      SubLoop(rounds, p, start, length) == Loops
    ensures SubLoop(rounds, p, start, length) == Loops ==>
      Walk(p.c.data, start, length, p.c.index, rounds).Some?
    decreases rounds
  {
    hide SubRound, NextPosition, Walk, SubLoop;
    var data, i := p.c.data, p.c.index;
    WalkFirst(data, start, length, i, rounds);
    WalkStarts(data, start, length, i);
    if i - start + 4 <= length {
      RoundIsStep(p, start, length);
      LoopStep(rounds, p, start, length);
      if rounds > 0 {
        WalkFirst(data, start, length, i, rounds - 1);
        var (p', ok) := SubRound(p, start);
        if ok {
          LoopIsWalk(rounds - 1, p', start, length);
        }
      }
    } else {
      LoopEnds(rounds, p, start, length);
    }
  }

  lemma WalkStarts(data: Bytes, start: nat, length: nat, i: nat)
    requires start <= i <= |data|
    ensures Walk(data, start, length, i, 0) == Some(i)
  {
  }

  lemma LoopEnds(rounds: nat, p: Parse, start: nat, length: nat)
    requires start <= p.c.index <= |p.c.data| && length < p.c.index - start + 4
    ensures NextPosition(p.c.data, start, length, p.c.index) == None
    ensures rounds > 0 ==> SubLoop(rounds, p, start, length).Done?
  {
  }

  lemma LoopStep(rounds: nat, p: Parse, start: nat, length: nat)
    requires p.c.index - start + 4 <= length
    ensures rounds == 0 ==> SubLoop(rounds, p, start, length) == Loops
    ensures rounds > 0 ==>
      SubLoop(rounds, p, start, length) ==
        var (p', ok) := SubRound(p, start);
        if ok then SubLoop(rounds - 1, p', start, length) else Done(p', false)
  {
    hide SubRound;
  }

  // ------------------------------------------------------------- pigeonhole

  /** More numbers below `n` than `n`: two are the same. */
  lemma {:induction false} Pigeonhole(xs: seq<nat>, n: nat)
    requires |xs| > n && forall i :: 0 <= i < |xs| ==> xs[i] < n
    ensures !Distinct(xs)
    decreases n
  {
    assert xs[0] < n;
    if k :| 0 <= k < |xs| && xs[k] == n - 1 {
      var ys := xs[..k] + xs[k + 1..];
      if Distinct(xs) {
        assert forall i :: 0 <= i < |ys| ==> ys[i] == xs[if i < k then i else i + 1];
        Pigeonhole(ys, n - 1);
      }
    } else {
      Pigeonhole(xs, n - 1);
    }
  }

  // ------------------------------------------------------ walks that come back

  lemma {:induction false} WalkGetsThere(data: Bytes, start: nat, length: nat, i: nat, j: nat, k: nat)
    requires start <= i <= |data| && j <= k && Walk(data, start, length, i, k).Some?
    ensures Walk(data, start, length, i, j).Some?
  {
    hide NextPosition;
    if j < k {
      WalkGetsThere(data, start, length, i, j, k - 1);
    }
  }

  /** What comes after two equal positions is equal. */
  lemma {:induction false} WalkRepeats(data: Bytes, start: nat, length: nat, i: nat, j: nat, k: nat, d: nat)
    requires start <= i <= |data| && Walk(data, start, length, i, j) == Walk(data, start, length, i, k)
    ensures Walk(data, start, length, i, j + d) == Walk(data, start, length, i, k + d)
  {
    hide NextPosition;
    if d > 0 {
      WalkRepeats(data, start, length, i, j, k, d - 1);
    }
  }

  /** The walk reaches some position twice, within a number of steps that the bytes bound. */
  ghost predicate ComesBack(data: Bytes, start: nat, length: nat, i: nat)
    requires start <= i <= |data|
  {
    exists j, k :: 0 <= j < k <= |data| + 1 && Meets(data, start, length, i, j, k)
  }

  predicate Meets(data: Bytes, start: nat, length: nat, i: nat, j: nat, k: nat)
    requires start <= i <= |data|
  {
    Walk(data, start, length, i, j).Some? && Walk(data, start, length, i, j) == Walk(data, start, length, i, k)
  }

  lemma {:induction false} GoesOn(data: Bytes, start: nat, length: nat, i: nat, j: nat, k: nat, n: nat)
    requires start <= i <= |data| && j < k && Meets(data, start, length, i, j, k)
    ensures Walk(data, start, length, i, n).Some?
    decreases n
  {
    hide Walk;
    if n <= k {
      WalkGetsThere(data, start, length, i, n, k);
    } else {
      GoesOn(data, start, length, i, j, k, n - (k - j));
      WalkRepeats(data, start, length, i, j, k, n - k);
    }
  }

  /** The positions of the first `n` steps of a walk. */
  function Positions(data: Bytes, start: nat, length: nat, i: nat, n: nat): (xs: seq<nat>)
    requires start <= i <= |data| && Walk(data, start, length, i, n).Some?
    ensures |xs| == n + 1
    ensures forall k :: 0 <= k <= n ==>
      Walk(data, start, length, i, k) == Some(xs[k]) && xs[k] < |data| + 1
  {
    (if n == 0 then [] else Positions(data, start, length, i, n - 1)) + [Walk(data, start, length, i, n).value]
  }

  lemma LongWalkComesBack(data: Bytes, start: nat, length: nat, i: nat)
    requires start <= i <= |data| && Walk(data, start, length, i, |data| + 1).Some?
    ensures ComesBack(data, start, length, i)
  {
    hide Walk;
    var xs := Positions(data, start, length, i, |data| + 1);
    Pigeonhole(xs, |data| + 1);
    var j, k :| 0 <= j < k < |xs| && xs[j] == xs[k];
    assert Meets(data, start, length, i, j, k);
  }

  // -------------------------------------------------------------- main results

  lemma ComingBackLoops(rounds: nat, p: Parse, start: nat, length: nat)
    requires Fits(p.c, start) && ComesBack(p.c.data, start, length, p.c.index)
    ensures SubLoop(rounds, p, start, length) == Loops
  {
    hide Walk, SubLoop, Meets;
    var data, i := p.c.data, p.c.index;
    var j, k :| 0 <= j < k <= |data| + 1 && Meets(data, start, length, i, j, k);
    GoesOn(data, start, length, i, j, k, rounds + 1);
    LoopIsWalk(rounds, p, start, length);
  }

  /** After as many rounds as there are bytes, and one more, the loop has ended unless its walk over
      the bytes comes back to a position. */
  lemma EndsInTime(rounds: nat, p: Parse, start: nat, length: nat)
    requires Fits(p.c, start) && rounds > |p.c.data|
    ensures SubLoop(rounds, p, start, length) == Loops <==> ComesBack(p.c.data, start, length, p.c.index)
  {
    hide Walk, SubLoop, ComesBack;
    var data, i := p.c.data, p.c.index;
    if ComesBack(data, start, length, i) {
      ComingBackLoops(rounds, p, start, length);
    }
    if SubLoop(rounds, p, start, length) == Loops {
      LoopIsWalk(rounds, p, start, length);
      WalkGetsThere(data, start, length, i, |data| + 1, rounds);
      LongWalkComesBack(data, start, length, i);
    }
  }

  /** The loop goes on for ever. */
  ghost predicate NeverEnds(p: Parse, start: nat, length: nat) {
    forall rounds: nat :: SubLoop(rounds, p, start, length) == Loops
  }

  /** The sub-option loop never ends exactly if its walk over the bytes comes back to a position. */
  lemma LoopsForEverIff(p: Parse, start: nat, length: nat)
    requires Fits(p.c, start)
    ensures NeverEnds(p, start, length) <==> ComesBack(p.c.data, start, length, p.c.index)
  {
    hide ComesBack;
    EndsInTime(|p.c.data| + 1, p, start, length);
    if ComesBack(p.c.data, start, length, p.c.index) {
      forall rounds: nat
        ensures SubLoop(rounds, p, start, length) == Loops
      {
        ComingBackLoops(rounds, p, start, length);
      }
    }
  }

  // ---------------------------------------------------------------- instances

  /** An unknown sub-option whose length is its own distance from the start of the option. */
  predicate PointsAtItself(data: Bytes, start: nat, length: nat, i: nat)
    requires start <= i <= |data|
  {
    NextPosition(data, start, length, i) == Some(i)
  }

  lemma LoopsForEver(rounds: nat, p: Parse, start: nat, length: nat)
    requires Fits(p.c, start) && PointsAtItself(p.c.data, start, length, p.c.index)
    ensures SubLoop(rounds, p, start, length) == Loops
  {
    var data, i := p.c.data, p.c.index;
    hide NextPosition, SubLoop;
    assert Walk(data, start, length, i, 0) == Some(i);
    assert Meets(data, start, length, i, 0, 1);
    ComingBackLoops(rounds, p, start, length);
  }

  const ZEROS: Bytes := [0, 0, 0, 0, 0, 0, 0, 0, 0, 0, 0, 0]

  /** Identifier and times, then sub-option 99 with length 12, which is where it stands. */
  const LOOPING: Bytes := ZEROS + [0, 99, 0, 12] + ZEROS

  /** The same behind an address, to which sub-option 99 leads back. */
  const CYCLING: Bytes := ZEROS + [0, 5, 0, 24] + ZEROS + ZEROS + [0, 99, 0, 12] + ZEROS

  lemma LoopingExample(rounds: nat, m: Message)
    ensures SubOptions(rounds, Parse(Cursor(LOOPING, 0, false), m), 28) == Loops
  {
    hide SubLoop, Value32;
    assert LOOPING[12..14] == [0, 99] && LOOPING[14..16] == [0, 12];
    LoopsForEver(rounds, Parse(Cursor(LOOPING, 12, false), m), 0, 28);
  }

  lemma CyclingExample(rounds: nat, m: Message)
    ensures SubLoop(rounds, Parse(Cursor(CYCLING, 12, false), m), 0, 56) == Loops
    ensures !PointsAtItself(CYCLING, 0, 56, 12) && !PointsAtItself(CYCLING, 0, 56, 40)
  {
    CyclingSteps();
    hide NextPosition, SubLoop;
    assert Walk(CYCLING, 0, 56, 12, 0) == Some(12);
    assert Walk(CYCLING, 0, 56, 12, 1) == Some(40);
    assert Walk(CYCLING, 0, 56, 12, 2) == Some(12);
    assert Meets(CYCLING, 0, 56, 12, 0, 2);
    ComingBackLoops(rounds, Parse(Cursor(CYCLING, 12, false), m), 0, 56);
  }

  lemma CyclingSteps()
    ensures |CYCLING| == 56
    ensures NextPosition(CYCLING, 0, 56, 12) == Some(40) && NextPosition(CYCLING, 0, 56, 40) == Some(12)
  {
    assert CYCLING[12..14] == [0, 5] && CYCLING[14..16] == [0, 24];
    assert CYCLING[40..42] == [0, 99] && CYCLING[42..44] == [0, 12];
  }

  // ------------------------------------------------------ where it must end

  /** Every unknown sub-option that the walk reaches leads forward. */
  ghost predicate LeadsForward(data: Bytes, start: nat, length: nat, i: nat)
    requires start <= i <= |data|
  {
    forall k: nat :: ForwardAt(data, start, length, Walk(data, start, length, i, k))
  }

  predicate ForwardAt(data: Bytes, start: nat, length: nat, at: Option<nat>) {
    at.Some? && start <= at.value && at.value + 4 <= |data| && !IsKnown(CodeAt(data, at.value)) ==>
      start + LengthAt(data, at.value) > at.value
  }

  lemma {:induction false} ForwardWalk(data: Bytes, start: nat, length: nat, i: nat, k: nat)
    requires start <= i <= |data| && LeadsForward(data, start, length, i)
    requires Walk(data, start, length, i, k).Some?
    ensures Walk(data, start, length, i, k).value >= i + k
  {
    if k > 0 {
      ForwardWalk(data, start, length, i, k - 1);
      var at := Walk(data, start, length, i, k - 1);
      assert ForwardAt(data, start, length, at);
      KnownLeadsForward(data, start, length, at.value);
    }
  }

  /** If the unknown sub-options reached lead forward, the loop ends within one round per byte left,
      and one more. */
  lemma SubLoopEnds(rounds: nat, p: Parse, start: nat, length: nat)
    requires Fits(p.c, start) && LeadsForward(p.c.data, start, length, p.c.index)
    requires rounds > |p.c.data| - p.c.index
    ensures SubLoop(rounds, p, start, length).Done?
  {
    hide Walk, SubLoop, LeadsForward;
    if SubLoop(rounds, p, start, length) == Loops {
      LoopIsWalk(rounds, p, start, length);
      ForwardWalk(p.c.data, start, length, p.c.index, rounds);
    }
  }

  // --------------------------------------------- the bound does not matter

  // More rounds change nothing once the loop has ended.
  lemma {:induction false} MoreRounds(r1: nat, r2: nat, p: Parse, start: nat, length: nat)
    requires r1 <= r2 && SubLoop(r1, p, start, length).Done?
    ensures SubLoop(r2, p, start, length) == SubLoop(r1, p, start, length)
    decreases r1
  {
    hide SubRound;
    if p.c.index - start + 4 <= length {
      LoopStep(r1, p, start, length);
      LoopStep(r2, p, start, length);
      var (p', ok) := SubRound(p, start);
      if ok {
        MoreRounds(r1 - 1, r2 - 1, p', start, length);
      }
    }
  }

  // After a read error the next round finds an unusable length.
  lemma ErrorEnds(rounds: nat, p: Parse, start: nat, length: nat)
    requires p.c.err && |p.c.data| < 0xFFFF && rounds > 0
    ensures SubLoop(rounds, p, start, length).Done?
  {
  }

  lemma LoopRoundsDoNotMatter(r1: nat, r2: nat, p: Parse, start: nat, length: nat)
    requires start <= p.c.index && |p.c.data| < 0xFFFF && |p.c.data| < r1 <= r2
    requires p.c.err || p.c.index <= |p.c.data|
    ensures SubLoop(r1, p, start, length) == SubLoop(r2, p, start, length)
  {
    hide SubLoop, ComesBack;
    if p.c.err {
      ErrorEnds(r1, p, start, length);
    } else {
      EndsInTime(r1, p, start, length);
      EndsInTime(r2, p, start, length);
    }
    if SubLoop(r1, p, start, length).Done? {
      MoreRounds(r1, r2, p, start, length);
    }
  }

  lemma ReadKeepsBounds(c: Cursor)
    requires c.err || c.index <= |c.data|
    ensures var c' := Read32(c).0; c'.data == c.data && c.index <= c'.index && (c'.err || c'.index <= |c'.data|)
  {
    hide Value32;
  }

  lemma OptionsRoundsDoNotMatter(r1: nat, r2: nat, p: Parse, length: nat)
    requires |p.c.data| < 0xFFFF && |p.c.data| < r1 <= r2 && (p.c.err || p.c.index <= |p.c.data|)
    ensures SubOptions(r1, p, length) == SubOptions(r2, p, length)
  {
    hide SubLoop, Read32;
    var (c1, _) := Read32(p.c);
    var (c2, _) := Read32(c1);
    var (c3, _) := Read32(c2);
    ReadKeepsBounds(p.c);
    ReadKeepsBounds(c1);
    ReadKeepsBounds(c2);
    if length >= c3.index - p.c.index {
      LoopRoundsDoNotMatter(r1, r2, p.(c := c3), p.c.index, length);
    }
  }

  lemma HandlingRoundsDoNotMatter(r1: nat, r2: nat, capacity: nat, own: Own, p: Parse, option: UInt16, length: UInt16)
    requires |p.c.data| < 0xFFFF && |p.c.data| < r1 <= r2 && (p.c.err || p.c.index <= |p.c.data|)
    ensures HandleOption(r1, capacity, own, p, option, length) == HandleOption(r2, capacity, own, p, option, length)
  {
    hide SubOptions, ReadDns, ReadDuid, StatusCode, Read8, Skip;
    OptionsRoundsDoNotMatter(r1, r2, p, length);
  }

  lemma {:induction false} OptionLoopRoundsDoNotMatter(
    r1: nat, r2: nat, capacity: nat, own: Own, p: Parse, seen: set<UInt16>)
    requires |p.c.data| < 0xFFFF && |p.c.data| < r1 <= r2
    ensures OptionLoop(r1, capacity, own, p, seen) == OptionLoop(r2, capacity, own, p, seen)
    decreases if p.c.err then 0 else 1, |p.c.data| - p.c.index
  {
    hide HandleOption;
    var (c1, option) := Read16(p.c);
    var (c2, length) := Read16(c1);
    if !c2.err {
      HandlingRoundsDoNotMatter(r1, r2, capacity, own, p.(c := c2), option, length);
      OptionOnward(r1, capacity, own, p.(c := c2), option, length);
      match HandleOption(r1, capacity, own, p.(c := c2), option, length)
      case Stuck =>
      case Handled(p', ready) =>
        if !p'.c.err && !ready && p'.c.index != |p'.c.data| {
          OptionLoopRoundsDoNotMatter(r1, r2, capacity, own, p', seen + {option});
        }
    }
  }

  /** The verdict on a datagram does not depend on the bound, once there is a round for every byte
      and one more: `NoReturn` then means that no bound is enough. */
  lemma AnalysisRoundsDoNotMatter(r1: nat, r2: nat, capacity: nat, own: Own, bytes: Bytes)
    requires |bytes| < 0xFFFF && |bytes| < r1 <= r2
    ensures Analyse(r1, capacity, own, bytes) == Analyse(r2, capacity, own, bytes)
  {
    hide OptionLoop;
    var (c1, messageType) := Read8(Cursor(bytes, 0, false));
    var (c2, transaction) := Copy(c1, 3, [0, 0, 0]);
    var p := Parse(c2, ZERO_MESSAGE.(messageType := messageType, transaction := transaction));
    OptionLoopRoundsDoNotMatter(r1, r2, capacity, own, p, {});
  }
}
