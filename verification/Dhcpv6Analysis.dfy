/** The analysis of a reply as the client runs it: loops over a cursor object that fill a
    message in place. */
module Dhcpv6Analysis {
  import opened Common
  import opened BitCursor
  import opened Dhcpv6Parser

  class Analyser {
    const cursor: BitConfig
    const capacity: nat
    const own: Own
    var message: Message

    ghost function State(): Parse
      reads this, cursor, cursor.contents
    {
      Parse(cursor.State(), message)
    }

    ghost predicate Valid()
      reads this, cursor
    {
      cursor.index <= cursor.contents.Length
    }

    /** The cursor starts over a copy of the datagram, the message all zero. */
    constructor (bytes: Bytes, capacity: nat, own: Own)
      ensures Valid() && State() == Parse(Cursor(bytes, 0, false), ZERO_MESSAGE)
      ensures this.capacity == capacity && this.own == own
      ensures fresh(cursor) && fresh(cursor.contents)
    {
      cursor := new BitConfig(bytes);
      this.capacity, this.own := capacity, own;
      message := ZERO_MESSAGE;
    }

    method HandleStatusCode(length: nat) returns (ok: bool)
      requires Valid() && 2 <= length <= cursor.contents.Length - cursor.index
      modifies cursor
      ensures Valid()
      ensures (State().c, ok) == StatusCode(old(State().c), length) && message == old(message)
    {
      var status := cursor.ReadU16();
      var readLength := length - 2;
      if readLength > 49 {
        readLength := 49;
      }
      var _ := cursor.ReadUc(readLength);
      if length > readLength + 2 {
        readLength := length - (readLength + 2);
        var _ := cursor.ReadUc(readLength);
      }
      ok := status == 0;
    }

    method ReadAddress() returns (r: Option<Bytes>)
      requires Valid()
      modifies cursor
      ensures Valid() && Read(State().c, r) == ReadBytes(old(State().c), ADDRESS_SIZE) && message == old(message)
    {
      r := cursor.ReadUc(ADDRESS_SIZE);
    }

    method HandleIaAddress()
      requires Valid()
      modifies this, cursor
      ensures Valid() && State() == ReadIaAddress(old(State()))
    {
      var a := ReadAddress();
      if a.Some? {
        message := message.(address := a.value);
      }
      var preferred := cursor.ReadU32();
      var validLife := cursor.ReadU32();
      message := message.(preferred := preferred, validLife := validLife);
    }

    method HandleIaPrefix()
      requires Valid()
      modifies this, cursor
      ensures Valid() && State() == ReadIaPrefix(old(State()))
    {
      var preferred := cursor.ReadU32();
      var validLife := cursor.ReadU32();
      var prefixLength := cursor.ReadU8();
      message := message.(preferred := preferred, validLife := validLife, prefixLength := prefixLength);
      var a := ReadAddress();
      if a.Some? {
        message := message.(prefix := a.value);
      }
    }

    /** The read that steps over an unknown sub-option; its length argument is computed
        modulo the machine word. */
    method SkipUnknown(start: nat, length: UInt16)
      requires Valid() && start <= cursor.index
      modifies cursor
      ensures Valid() && message == old(message)
      ensures State().c == (if old(cursor.hasError) then old(State().c)
                            else if start + length <= |State().c.data| then old(State().c).(index := start + length)
                            else old(State().c).(err := true))
    {
      if !cursor.hasError {
        if start + length <= cursor.contents.Length {
          cursor.index := start + length;
        } else {
          cursor.hasError := true;
        }
      }
    }

    method HandleSubOption(start: nat) returns (ok: bool)
      requires Valid() && start <= cursor.index
      modifies this, cursor
      ensures Valid() && start <= cursor.index
      ensures (State(), ok) == SubRound(old(State()), start)
    {
      hide ReadIaAddress, ReadIaPrefix, StatusCode;
      SubRoundOnward(State(), start);
      ok := true;
      var option := cursor.ReadU16();
      var length := cursor.ReadU16();
      if !LengthValid(option, length, cursor.contents.Length - cursor.index) {
        ok := false;
      } else if option == IA_ADDRESS {
        HandleIaAddress();
      } else if option == IA_PREFIX {
        HandleIaPrefix();
      } else if option == STATUS_CODE {
        ok := HandleStatusCode(length);
      } else {
        SkipUnknown(start, length);
      }
    }

    /** `rounds` bounds the sub-option loop; without `ends` they were not enough. */
    method SubOption(rounds: nat, length: nat) returns (ends: bool, ok: bool)
      requires Valid()
      modifies this, cursor
      ensures Valid()
      ensures SubOptions(rounds, old(State()), length) == if ends then Done(State(), ok) else Loops
    {
      hide SubRound;
      ends, ok := true, true;
      var start := cursor.index;
      var _ := cursor.ReadU32();
      var _ := cursor.ReadU32();
      var _ := cursor.ReadU32();
      if length < cursor.index - start {
        return true, false;
      }
      ghost var p := State();
      var left := rounds;
      while length > cursor.index - start
        invariant Valid() && start <= cursor.index
        invariant SubLoop(rounds, p, start, length) == SubLoop(left, State(), start, length)
        decreases left
      {
        if left == 0 {
          return false, false;
        }
        if length - (cursor.index - start) < 4 {
          return true, false;
        }
        ok := HandleSubOption(start);
        if !ok {
          return true, false;
        }
        left := left - 1;
      }
    }

    /** Reads the two type fields and the identifier; false when the length is unusable. */
    method HandleDuid(length: nat, was: Duid) returns (d: Duid, ok: bool)
      requires Valid()
      modifies cursor
      ensures Valid() && message == old(message)
      ensures (State().c, d, ok) == ReadDuid(old(State().c), length, was)
    {
      d, ok := was, false;
      if length >= 4 {
        var duidType := cursor.ReadU16();
        var hardwareType := cursor.ReadU16();
        d := Duid(duidType, hardwareType, length - 4, was.id);
        if length - 4 <= MAX_ID_LENGTH {
          var id := cursor.ReadUc(length - 4);
          if id.Some? {
            d := d.(id := id.value);
          }
          ok := true;
        }
      }
    }

    method HandleClientId(length: nat) returns (ready: bool)
      requires Valid()
      modifies this, cursor
      ensures Valid()
      ensures var (c, d, ok) := ReadDuid(old(State().c), length, old(message.clientId));
        var matches := length == CLIENT_DUID_LENGTH && PeekLast(c, length).bytes == Some(own.duid);
        && ready == !ok
        && State() == Parse(if ok && !matches then c.(err := true) else c, old(message).(clientId := d))
    {
      hide ReadDuid;
      var d, ok := HandleDuid(length, message.clientId);
      message := message.(clientId := d);
      ready := !ok;
      if ok {
        if length != CLIENT_DUID_LENGTH {
          cursor.hasError := true;
        } else {
          var peek := cursor.PeekLastIndexUc(length);
          if peek != Some(own.duid) {
            cursor.hasError := true;
          }
        }
      }
    }

    method HandleDns(count: nat)
      requires Valid()
      modifies this, cursor
      ensures Valid() && State() == ReadDns(capacity, old(State()), count)
    {
      var left := count;
      while left > 0
        invariant Valid() && 0 <= left
        invariant ReadDns(capacity, old(State()), count) == ReadDns(capacity, State(), left)
      {
        var a := ReadAddress();
        if |message.dns| < capacity {
          message := message.(dns := message.dns + [if a.Some? then a.value else NO_ADDRESS]);
        }
        left := left - 1;
      }
    }

    method HandleOption(rounds: nat, option: UInt16, length: UInt16) returns (ends: bool, ready: bool)
      requires Valid()
      modifies this, cursor
      ensures Valid()
      ensures Dhcpv6Parser.HandleOption(rounds, capacity, own, old(State()), option, length)
           == if ends then Handled(State(), ready) else Stuck
    {
      hide ReadDuid, ReadDns, SubOptions, StatusCode, PeekLast;
      ends, ready := true, false;
      if !LengthValid(option, length, cursor.contents.Length - cursor.index) {
        ready := true;
      } else if option == STATUS_CODE {
        var ok := HandleStatusCode(length);
        if !ok {
          cursor.hasError := true;
        }
      } else if option == CLIENT_ID {
        ready := HandleClientId(length);
      } else if option == SERVER_ID {
        var d, ok := HandleDuid(length, message.serverId);
        message := message.(serverId := d);
        ready := !ok;
      } else if option == PREFERENCE {
        var _ := cursor.ReadU8();
      } else if option == DNS_SERVERS {
        if length == 0 || length % ADDRESS_SIZE != 0 {
          ready := true;
        } else {
          HandleDns(length / ADDRESS_SIZE);
        }
      } else if option == IA_NA || option == IA_PD {
        var ok;
        ends, ok := SubOption(rounds, length);
        ready := !ok;
      } else {
        var _ := cursor.ReadUc(length);
      }
    }

    method HandleOptions(rounds: nat) returns (ends: bool, pass: bool, seen: set<UInt16>)
      requires Valid() && !cursor.hasError
      modifies this, cursor
      ensures Valid()
      ensures OptionLoop(rounds, capacity, own, old(State()), {})
           == if ends then Verdict(pass, State(), seen) else NoReturn
    {
      hide Dhcpv6Parser.HandleOption;
      ghost var p := State();
      ends, pass, seen := true, true, {};
      var ready := false;
      while !ready
        invariant Valid() && ends
        invariant !ready ==> pass && !cursor.hasError
        invariant !ready ==>
          OptionLoop(rounds, capacity, own, p, {}) == OptionLoop(rounds, capacity, own, State(), seen)
        invariant ready ==> OptionLoop(rounds, capacity, own, p, {}) == Verdict(pass, State(), seen)
        decreases !ready, cursor.contents.Length - cursor.index
      {
        var option := cursor.ReadU16();
        var length := cursor.ReadU16();
        if cursor.hasError {
          ready, pass := true, false;
        } else {
          seen := seen + {option};
          OptionOnward(rounds, capacity, own, State(), option, length);
          ends, ready := HandleOption(rounds, option, length);
          if !ends {
            return false, false, {};
          }
          if cursor.hasError {
            ready, pass := true, false;
          } else if ready {
            pass := false;
          } else if cursor.index == cursor.contents.Length {
            ready := true;
          }
        }
      }
    }

    method Run(rounds: nat) returns (ends: bool, pass: bool, seen: set<UInt16>)
      requires Valid() && cursor.index == 0 && !cursor.hasError && message == ZERO_MESSAGE
      modifies this, cursor
      ensures Valid()
      ensures Analyse(rounds, capacity, own, old(State().c.data))
           == if ends then Verdict(pass, State(), seen) else NoReturn
    {
      hide OptionLoop;
      ends, pass, seen := true, true, {};
      var messageType := cursor.ReadU8();
      var transaction := cursor.ReadUc(3);
      message := message.(messageType := messageType);
      if transaction.Some? {
        message := message.(transaction := transaction.value);
      }
      if message.transaction != own.transaction {
        pass := false;
      }
      if messageType !in {ADVERTISE, CONFIRM, REPLY, DECLINE} {
        pass := false;
      }
      if !pass || cursor.hasError {
        return true, false, {};
      }
      ends, pass, seen := HandleOptions(rounds);
      if ends && pass {
        pass := CLIENT_ID in seen && SERVER_ID in seen;
      }
    }
  }
}
