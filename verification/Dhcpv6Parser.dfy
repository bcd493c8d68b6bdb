/** The analysis of a DHCPv6 reply as functions on cursors and messages. */
module Dhcpv6Parser {
  import opened Common
  import opened BitCursor

  const CLIENT_ID := 1
  const SERVER_ID := 2
  const IA_NA := 3
  const IA_TA := 4
  const IA_ADDRESS := 5
  const PREFERENCE := 7
  const STATUS_CODE := 13
  const DNS_SERVERS := 23
  const DOMAIN_LIST := 24
  const IA_PD := 25
  const IA_PREFIX := 26

  const ADVERTISE := 2
  const CONFIRM := 4
  const REPLY := 7
  const DECLINE := 9

  const ADDRESS_SIZE := 16
  const MAX_ID_LENGTH := 128
  const CLIENT_DUID_LENGTH := 14

  /** The identifier of a client or a server; `id` holds `length` bytes unless it was too long. */
  datatype Duid = Duid(duidType: UInt16, hardwareType: UInt16, length: nat, id: Bytes)

  const NO_DUID := Duid(0, 0, 0, [])
  const NO_ADDRESS: Bytes := [0, 0, 0, 0, 0, 0, 0, 0, 0, 0, 0, 0, 0, 0, 0, 0]

  datatype Message = Message(
    messageType: Byte, transaction: Bytes, dns: seq<Bytes>, preferred: UInt32, validLife: UInt32,
    prefixLength: Byte, prefix: Bytes, address: Bytes, clientId: Duid, serverId: Duid)

  const ZERO_MESSAGE := Message(0, [0, 0, 0], [], 0, 0, 0, NO_ADDRESS, NO_ADDRESS, NO_DUID, NO_DUID)

  /** What the client compares a reply with: its transaction and its own identifier. */
  datatype Own = Own(transaction: Bytes, duid: Bytes)

  /** The cursor and the message filled so far. */
  datatype Parse = Parse(c: Cursor, m: Message)

  // --------------------------------------------------------------- option lengths

  function MinLength(option: UInt16): nat {
    if option == IA_NA || option == IA_PD then 12
    else if option == IA_TA then 4
    else if option == IA_ADDRESS then 24
    else if option == PREFERENCE then 1
    else if option == STATUS_CODE then 2
    else if option == IA_PREFIX then 25
    else 0
  }

  predicate LengthValid(option: UInt16, length: nat, remaining: int) {
    MinLength(option) <= length <= remaining
  }

  // ------------------------------------------------------------------ status code

  /** Reads a status code option body; true means success. */
  function StatusCode(c: Cursor, length: nat): (Cursor, bool)
    requires length >= 2
  {
    var (c1, status) := Read16(c);
    (Skip(c1, length - 2), status == 0)
  }

  // --------------------------------------------------------------- IA sub-options

  /** The end of the sub-option loop; `Loops` when it has not ended after the given rounds. */
  datatype SubResult = Done(p: Parse, ok: bool) | Loops

  function Copy(c: Cursor, n: nat, was: Bytes): (Cursor, Bytes) {
    var r := ReadBytes(c, n);
    (r.cursor, if r.bytes.Some? then r.bytes.value else was)
  }

  function ReadIaAddress(p: Parse): Parse {
    var (c1, address) := Copy(p.c, ADDRESS_SIZE, p.m.address);
    var (c2, preferred) := Read32(c1);
    var (c3, validLife) := Read32(c2);
    Parse(c3, p.m.(address := address, preferred := preferred, validLife := validLife))
  }

  function ReadIaPrefix(p: Parse): Parse {
    var (c1, preferred) := Read32(p.c);
    var (c2, validLife) := Read32(c1);
    var (c3, prefixLength) := Read8(c2);
    var (c4, prefix) := Copy(c3, ADDRESS_SIZE, p.m.prefix);
    Parse(c4, p.m.(preferred := preferred, validLife := validLife, prefixLength := prefixLength, prefix := prefix))
  }

  /** One sub-option body. An unknown one moves the index to its own length counted from
      the start of the whole option. */
  function SubBody(p: Parse, start: nat, option: UInt16, length: UInt16): (Parse, bool)
    requires LengthValid(option, length, |p.c.data| - p.c.index)
  {
    if option == IA_ADDRESS then (ReadIaAddress(p), true)
    else if option == IA_PREFIX then (ReadIaPrefix(p), true)
    else if option == STATUS_CODE then
      var (c, ok) := StatusCode(p.c, length);
      (p.(c := c), ok)
    else if p.c.err then (p, true)
    else if start + length <= |p.c.data| then (p.(c := p.c.(index := start + length)), true)
    else (p.(c := p.c.(err := true)), true)
  }

  /** One sub-option: its header, then its body if the length is usable. */
  function SubRound(p: Parse, start: nat): (Parse, bool) {
    var (c1, option) := Read16(p.c);
    var (c2, length) := Read16(c1);
    if !LengthValid(option, length, |c2.data| - c2.index) then (p.(c := c2), false)
    else SubBody(p.(c := c2), start, option, length)
  }

  function SubLoop(rounds: nat, p: Parse, start: nat, length: nat): SubResult {
    var used := p.c.index - start;
    if length <= used then Done(p, true)
    else if rounds == 0 then Loops
    else if length - used < 4 then Done(p, false)
    else
      var (p', ok) := SubRound(p, start);
      if !ok then Done(p', false) else SubLoop(rounds - 1, p', start, length)
  }

  /** An IA option body: identifier, two times, then sub-options. */
  function SubOptions(rounds: nat, p: Parse, length: nat): SubResult {
    var (c1, _) := Read32(p.c);
    var (c2, _) := Read32(c1);
    var (c3, _) := Read32(c2);
    var p1 := p.(c := c3);
    if length < c3.index - p.c.index then Done(p1, false)
    else SubLoop(rounds, p1, p.c.index, length)
  }

  // ---------------------------------------------------------------- other options

  /** An identifier body; false when its length is unusable. */
  function ReadDuid(c: Cursor, length: nat, was: Duid): (Cursor, Duid, bool) {
    if length < 4 then (c, was, false)
    else
      var (c1, duidType) := Read16(c);
      var (c2, hardwareType) := Read16(c1);
      var d := Duid(duidType, hardwareType, length - 4, was.id);
      if length - 4 <= MAX_ID_LENGTH then
        var (c3, id) := Copy(c2, length - 4, was.id);
        (c3, d.(id := id), true)
      else (c2, d, false)
  }

  /** Addresses beyond the capacity are stepped over. */
  function ReadDns(capacity: nat, p: Parse, count: nat): Parse
    decreases count
  {
    if count == 0 then p
    else if |p.m.dns| < capacity then
      var (c, a) := Copy(p.c, ADDRESS_SIZE, NO_ADDRESS);
      ReadDns(capacity, Parse(c, p.m.(dns := p.m.dns + [a])), count - 1)
    else ReadDns(capacity, p.(c := Skip(p.c, ADDRESS_SIZE)), count - 1)
  }

  /** The result of one option: `ready` means that parsing must stop with an error. */
  datatype Handled = Handled(p: Parse, ready: bool) | Stuck

  function HandleOption(rounds: nat, capacity: nat, own: Own, p: Parse, option: UInt16, length: UInt16): Handled {
    if !LengthValid(option, length, |p.c.data| - p.c.index) then Handled(p, true)
    else if option == STATUS_CODE then
      var (c, ok) := StatusCode(p.c, length);
      Handled(p.(c := if ok then c else c.(err := true)), false)
    else if option == CLIENT_ID then
      var (c, d, ok) := ReadDuid(p.c, length, p.m.clientId);
      var m := p.m.(clientId := d);
      if !ok then Handled(Parse(c, m), true)
      else
        var peek := PeekLast(c, length);
        var matches := length == CLIENT_DUID_LENGTH && peek.bytes == Some(own.duid);
        Handled(Parse(if matches then c else c.(err := true), m), false)
    else if option == SERVER_ID then
      var (c, d, ok) := ReadDuid(p.c, length, p.m.serverId);
      Handled(Parse(c, p.m.(serverId := d)), !ok)
    else if option == PREFERENCE then Handled(p.(c := Read8(p.c).0), false)
    else if option == DNS_SERVERS then
      if length == 0 || length % ADDRESS_SIZE != 0 then Handled(p, true)
      else Handled(ReadDns(capacity, p, length / ADDRESS_SIZE), false)
    else if option == IA_NA || option == IA_PD then
      match SubOptions(rounds, p, length)
      case Done(p', ok) => Handled(p', !ok)
      case Loops => Stuck
    else Handled(p.(c := Skip(p.c, length)), false)
  }

  // --------------------------------------------------------------- whole messages

  /** The verdict on a reply; `NoReturn` when the sub-option loop does not end. */
  datatype Verdict = Verdict(pass: bool, p: Parse, seen: set<UInt16>) | NoReturn

  /** `c'` is `c` moved on: same bytes, no lower index, and an error is not forgotten. */
  predicate Onward(c: Cursor, c': Cursor) {
    c'.data == c.data && c.index <= c'.index && (c.err ==> c'.err)
  }

  lemma ReadsOnward(c: Cursor, n: nat)
    ensures Onward(c, Skip(c, n)) && Onward(c, Read8(c).0) && Onward(c, Read16(c).0) && Onward(c, Read32(c).0)
  {
  }

  lemma {:induction false} DnsOnward(capacity: nat, p: Parse, count: nat)
    ensures Onward(p.c, ReadDns(capacity, p, count).c)
    decreases count
  {
    if count > 0 {
      if |p.m.dns| < capacity {
        var (c, a) := Copy(p.c, ADDRESS_SIZE, NO_ADDRESS);
        DnsOnward(capacity, Parse(c, p.m.(dns := p.m.dns + [a])), count - 1);
      } else {
        DnsOnward(capacity, p.(c := Skip(p.c, ADDRESS_SIZE)), count - 1);
      }
    }
  }

  lemma IaBodiesOnward(p: Parse)
    ensures Onward(p.c, ReadIaAddress(p).c) && Onward(p.c, ReadIaPrefix(p).c)
  {
  }

  lemma SubBodyOnward(p: Parse, start: nat, option: UInt16, length: UInt16)
    requires LengthValid(option, length, |p.c.data| - p.c.index) && start <= p.c.index
    ensures var c' := SubBody(p, start, option, length).0.c;
      Onward(p.c.(index := start), c')
  {
    hide ReadIaAddress, ReadIaPrefix;
    IaBodiesOnward(p);
  }

  lemma SubRoundOnward(p: Parse, start: nat)
    requires start <= p.c.index
    ensures Onward(p.c.(index := start), SubRound(p, start).0.c)
  {
    hide SubBody;
    var (c1, option) := Read16(p.c);
    var (c2, length) := Read16(c1);
    ReadsOnward(p.c, 0);
    ReadsOnward(c1, 0);
    if LengthValid(option, length, |c2.data| - c2.index) {
      SubBodyOnward(p.(c := c2), start, option, length);
    }
  }

  lemma {:induction false} SubLoopOnward(rounds: nat, p: Parse, start: nat, length: nat)
    requires start <= p.c.index
    ensures var r := SubLoop(rounds, p, start, length);
      r.Done? ==> Onward(p.c.(index := start), r.p.c)
    decreases rounds
  {
    hide SubRound;
    if p.c.index - start < length && rounds > 0 {
      SubRoundOnward(p, start);
      SubLoopOnward(rounds - 1, SubRound(p, start).0, start, length);
    }
  }

  lemma SubOptionsOnward(rounds: nat, p: Parse, length: nat)
    ensures var r := SubOptions(rounds, p, length);
      r.Done? ==> Onward(p.c, r.p.c)
  {
    hide SubLoop;
    var (c1, _) := Read32(p.c);
    var (c2, _) := Read32(c1);
    var (c3, _) := Read32(c2);
    ReadsOnward(p.c, 0);
    ReadsOnward(c1, 0);
    ReadsOnward(c2, 0);
    SubLoopOnward(rounds, p.(c := c3), p.c.index, length);
  }

  lemma DuidOnward(c: Cursor, length: nat, was: Duid)
    ensures Onward(c, ReadDuid(c, length, was).0)
  {
  }

  lemma StatusOnward(c: Cursor, length: nat)
    requires length >= 2
    ensures Onward(c, StatusCode(c, length).0)
  {
  }

  // Handling an option never moves the index before the option's body.
  lemma OptionOnward(rounds: nat, capacity: nat, own: Own, p: Parse, option: UInt16, length: UInt16)
    ensures var h := HandleOption(rounds, capacity, own, p, option, length);
      h.Handled? ==> Onward(p.c, h.p.c)
  {
    hide ReadDns, SubOptions, ReadDuid, StatusCode, Read8, Skip;
    ReadsOnward(p.c, length);
    DnsOnward(capacity, p, length / ADDRESS_SIZE);
    SubOptionsOnward(rounds, p, length);
    DuidOnward(p.c, length, p.m.clientId);
    DuidOnward(p.c, length, p.m.serverId);
    if length >= 2 {
      StatusOnward(p.c, length);
    }
  }

  /** The option loop: it ends at the end of the message or at the first error. */
  function OptionLoop(rounds: nat, capacity: nat, own: Own, p: Parse, seen: set<UInt16>): Verdict
    decreases if p.c.err then 0 else 1, |p.c.data| - p.c.index
  {
    var (c1, option) := Read16(p.c);
    var (c2, length) := Read16(c1);
    if c2.err then Verdict(false, p.(c := c2), seen)
    else
      var seen' := seen + {option};
      OptionOnward(rounds, capacity, own, p.(c := c2), option, length);
      match HandleOption(rounds, capacity, own, p.(c := c2), option, length)
      case Stuck => NoReturn
      case Handled(p', ready) =>
        if p'.c.err || ready then Verdict(false, p', seen')
        else if p'.c.index == |p'.c.data| then Verdict(true, p', seen')
        else OptionLoop(rounds, capacity, own, p', seen')
  }

  /** The analysis of a received datagram. */
  function Analyse(rounds: nat, capacity: nat, own: Own, bytes: Bytes): Verdict {
    var (c1, messageType) := Read8(Cursor(bytes, 0, false));
    var (c2, transaction) := Copy(c1, 3, [0, 0, 0]);
    var p := Parse(c2, ZERO_MESSAGE.(messageType := messageType, transaction := transaction));
    if transaction != own.transaction || messageType !in {ADVERTISE, CONFIRM, REPLY, DECLINE} || c2.err then
      Verdict(false, p, {})
    else
      var v := OptionLoop(rounds, capacity, own, p, {});
      if v.NoReturn? then v else v.(pass := v.pass && CLIENT_ID in v.seen && SERVER_ID in v.seen)
  }
}
