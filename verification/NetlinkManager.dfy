/**
 Requests and replies over netlink (net/netlink_manager.cpp): sequence numbers, the table of handlers
 waiting for replies, the receive loop and the synchronous collect loop. The kernel is an adversary:
 datagram contents, poll outcomes and elapsed times are arbitrary inputs.
 */
module NetlinkManager {
  import opened Bytes
  import opened Nl80211Packet

  const BROADCAST_SEQUENCE_NUMBER: nat := 0
  const MAXIMUM_WAIT_MILLISECONDS: int := 300

  // ---- sequence numbers ----

  function NextSequenceNumber(n: nat): nat {
    var once := (n + 1) % U32_SIZE;
    if once == BROADCAST_SEQUENCE_NUMBER then (once + 1) % U32_SIZE else once
  }

  /** The number returned by the k-th call after the counter stood at `start`. */
  function SequenceNumberAfter(start: nat, k: nat): nat {
    if k == 0 then start else NextSequenceNumber(SequenceNumberAfter(start, k - 1))
  }

  const PERIOD: nat := 0xFFFF_FFFF

  lemma {:induction false} ModOfDifference(a: nat, b: nat)
    requires a <= b
    ensures a % PERIOD == b % PERIOD <==> (b - a) % PERIOD == 0
  {
    var qa, ra, qb, rb := a / PERIOD, a % PERIOD, b / PERIOD, b % PERIOD;
    assert a == PERIOD * qa + ra && b == PERIOD * qb + rb;
    assert b - a == PERIOD * (qb - qa) + (rb - ra);
    if rb < ra {
      assert b - a == PERIOD * (qb - qa - 1) + (PERIOD + rb - ra);
    }
  }

  lemma {:induction false} FirstNumber(start: nat)
    requires start < U32_SIZE
    ensures NextSequenceNumber(start) == 1 + start % PERIOD
  {
  }

  lemma {:induction false} SequenceClosedForm(start: nat, k: nat)
    requires start < U32_SIZE
    ensures SequenceNumberAfter(start, k + 1) == 1 + (start + k) % PERIOD
  {
    if k == 0 {
      FirstNumber(start);
      assert SequenceNumberAfter(start, 0) == start;
    } else {
      SequenceClosedForm(start, k - 1);
      var r := (start + k - 1) % PERIOD;
      assert SequenceNumberAfter(start, k) == 1 + r;
      assert (start + k) % PERIOD == if r == PERIOD - 1 then 0 else r + 1;
    }
  }

  /**
     No call returns the broadcast number, and two calls return the same number exactly when the number of
     calls between them is a multiple of 2^32 - 1, across the wrap of the 32-bit counter.
   */
  lemma {:induction false} SequenceNumbersCollide(start: nat, i: nat, j: nat)
    requires start < U32_SIZE && i <= j
    ensures SequenceNumberAfter(start, i + 1) != BROADCAST_SEQUENCE_NUMBER
    ensures SequenceNumberAfter(start, i + 1) < U32_SIZE
    ensures SequenceNumberAfter(start, i + 1) == SequenceNumberAfter(start, j + 1) <==> (j - i) % PERIOD == 0
  {
    SequenceClosedForm(start, i);
    SequenceClosedForm(start, j);
    ModOfDifference(start + i, start + j);
  }

  /** So two requests share no number if fewer than 2^32 - 1 calls lie between them. */
  lemma {:induction false} SequenceNumbersAreDistinct(start: nat, i: nat, j: nat)
    requires start < U32_SIZE && i < j < i + PERIOD
    ensures SequenceNumberAfter(start, i + 1) != SequenceNumberAfter(start, j + 1)
  {
    SequenceNumbersCollide(start, i, j);
  }

  // ---- receiving ----

  /** Handlers are callbacks of the caller, or the one that appends to the response of a synchronous request. */
  datatype Handler = Callback(id: nat) | AppendPacket

  /** One run of a handler on a packet. */
  datatype Delivery = Delivery(handler: Handler, packet: Buffer)

  /**
   The handler table, the record of handler runs and of broadcasts, and the response vector of the synchronous
   request in progress, to which only AppendPacket adds.
   */
  datatype State = State(handlers: map<nat, Handler>, deliveries: seq<Delivery>, broadcasts: seq<Buffer>,
                         response: seq<Buffer>)

  /** A handler is run on a packet. */
  function Ran(s: State, handler: Handler, packet: Buffer): State {
    s.(deliveries := s.deliveries + [Delivery(handler, packet)],
       response := if handler == AppendPacket then s.response + [packet] else s.response)
  }

  predicate IsTerminator(packet: Buffer)
    requires IsValidPacket(packet)
  {
    MessageType(packet) == NLMSG_DONE || MessageType(packet) == NLMSG_NOOP || MessageType(packet) == NLMSG_OVERRUN
  }

  function Without(handlers: map<nat, Handler>, s: nat): map<nat, Handler> {
    map k | k in handlers && k != s :: handlers[k]
  }

  /** One valid message: the next state, and whether the rest of the datagram is still looked at. */
  function Processed(s: State, packet: Buffer): (State, bool)
    requires IsValidPacket(packet)
  {
    var number := Sequence(packet);
    if number == BROADCAST_SEQUENCE_NUMBER then (s.(broadcasts := s.broadcasts + [packet]), true)
    else if number !in s.handlers then (s, false)
    else if IsTerminator(packet) then (s.(handlers := Without(s.handlers, number)), false)
    else
      var ran := Ran(s, s.handlers[number], packet);
      (if IsMulti(packet) then ran else ran.(handlers := Without(ran.handlers, number)), true)
  }

  /** No message claims more bytes than its datagram has left. */
  predicate MessagesFit(datagram: Buffer) {
    |datagram| < NLMSG_HDRLEN
    || (var len := MessageLen(datagram);
        len <= |datagram| && (IsValidPacket(datagram[..len]) ==> MessagesFit(datagram[len..])))
  }

  /** The leading message of a datagram, when it is complete and valid. */
  predicate HasMessage(datagram: Buffer) {
    && |datagram| >= NLMSG_HDRLEN
    && MessageLen(datagram) <= |datagram|
    && IsValidPacket(datagram[..MessageLen(datagram)])
  }

  lemma {:induction false} MessageIsNonempty(datagram: Buffer)
    requires HasMessage(datagram)
    ensures MessageLen(datagram) >= NLMSG_HDRLEN
  {
  }

  /** A whole datagram. */
  function Received(s: State, datagram: Buffer): State
    decreases |datagram|
  {
    if !HasMessage(datagram) then s
    else
      var len := MessageLen(datagram);
      MessageIsNonempty(datagram);
      var (next, more) := Processed(s, datagram[..len]);
      if more then Received(next, datagram[len..]) else next
  }

  // ---- waiting for replies ----

  /** One poll of the socket: a read (None if it fails) with the time it took, or no data, or an error. */
  datatype Poll = Ready(datagram: Option<Buffer>, elapsedMs: nat) | TimedOut | Failed

  predicate PollsFit(polls: seq<Poll>) {
    forall i :: 0 <= i < |polls| ==> polls[i].Ready? && polls[i].datagram.Some? ==> MessagesFit(polls[i].datagram.value)
  }

  function AfterRead(s: State, datagram: Option<Buffer>): State {
    if datagram == None then s else Received(s, datagram.value)
  }

  /**
     The collect loop for the handler of one sequence number: whether it succeeds, the state it leaves and
     the number of polls that brought data. When the given polls are used up, the next one times out.
   */
  function Collected(s: State, number: nat, polls: seq<Poll>, budget: int): (bool, State, nat)
    decreases |polls|
  {
    var erased := s.(handlers := Without(s.handlers, number));
    if budget <= 0 then (false, erased, 0)
    else if number !in s.handlers then (true, s, 0)
    else if |polls| == 0 || !polls[0].Ready? then (false, erased, 0)
    else
      var (ok, final, n) := Collected(AfterRead(s, polls[0].datagram), number, polls[1..], budget - polls[0].elapsedMs);
      (ok, final, n + 1)
  }

  function Installed(s: State, number: nat): State {
    s.(handlers := s.handlers[number := AppendPacket])
  }

  /** A synchronous request that was sent, with its response vector: its success and the state it leaves. */
  function Requested(s: State, number: nat, polls: seq<Poll>, before: seq<Buffer>): (bool, State) {
    var (ok, final, _) := Collected(Installed(s.(response := before), number), number, polls, MAXIMUM_WAIT_MILLISECONDS);
    (ok, final)
  }

  /** Such a request with an empty response vector: its success and the packets appended to it. */
  function Responses(s: State, number: nat, polls: seq<Poll>): (bool, seq<Buffer>) {
    var (ok, final) := Requested(s, number, polls, []);
    (ok, final.response)
  }

  class NetlinkManager {
    var sequenceNumber: nat
    var messageHandlers: map<nat, Handler>
    /** The record of handler runs and broadcasts, which stands for the effects of callbacks. */
    var deliveries: seq<Delivery>
    var broadcasts: seq<Buffer>
    /** The vector that AppendPacket is bound to. */
    var response: seq<Buffer>

    constructor ()
      ensures sequenceNumber == 0 && Current() == State(map[], [], [], [])
    {
      sequenceNumber, messageHandlers, deliveries, broadcasts, response := 0, map[], [], [], [];
    }

    function Current(): State
      reads this
    {
      State(messageHandlers, deliveries, broadcasts, response)
    }

    method RunHandler(handler: Handler, packet: Buffer)
      modifies this`deliveries, this`response
      ensures Current() == Ran(old(Current()), handler, packet)
    {
      deliveries := deliveries + [Delivery(handler, packet)];
      match handler
      case Callback(_) =>
      case AppendPacket => response := response + [packet];
    }

    method GetSequenceNumber() returns (n: nat)
      requires sequenceNumber < U32_SIZE
      modifies this`sequenceNumber
      ensures n == sequenceNumber == NextSequenceNumber(old(sequenceNumber)) < U32_SIZE
    {
      sequenceNumber := (sequenceNumber + 1) % U32_SIZE;
      if sequenceNumber == BROADCAST_SEQUENCE_NUMBER {
        sequenceNumber := (sequenceNumber + 1) % U32_SIZE;
      }
      return sequenceNumber;
    }

    /** Handles one datagram that `read` returned, or None if it failed. */
    method ReceivePacketAndRunHandler(datagram: Option<Buffer>)
      requires datagram.Some? ==> MessagesFit(datagram.value)
      modifies this`messageHandlers, this`deliveries, this`broadcasts, this`response
      ensures Current() == if datagram == None then old(Current()) else Received(old(Current()), datagram.value)
    {
      if datagram == None {
        return;
      }
      var buffer := datagram.value;
      ghost var before := Current();
      var ptr := 0;
      while ptr < |buffer|
        invariant ptr <= |buffer| && MessagesFit(buffer[ptr..])
        invariant Received(before, buffer) == Received(Current(), buffer[ptr..])
      {
        if ptr + NLMSG_HDRLEN > |buffer| {
          return;
        }
        var len := MessageLen(buffer[ptr..]);
        assert buffer[ptr..][..len] == buffer[ptr..ptr + len];
        var packet := buffer[ptr..ptr + len];
        if !IsValidPacket(packet) {
          return;
        }
        MessageIsNonempty(buffer[ptr..]);
        assert buffer[ptr..][len..] == buffer[ptr + len..];
        ptr := ptr + len;
        var number := Sequence(packet);
        if number == BROADCAST_SEQUENCE_NUMBER {
          broadcasts := broadcasts + [packet];
          continue;
        }
        if number !in messageHandlers {
          return;
        }
        var messageType := MessageType(packet);
        if messageType == NLMSG_DONE || messageType == NLMSG_NOOP {
          messageHandlers := Without(messageHandlers, number);
          return;
        }
        if messageType == NLMSG_OVERRUN {
          messageHandlers := Without(messageHandlers, number);
          return;
        }
        RunHandler(messageHandlers[number], packet);
        if !IsMulti(packet) {
          messageHandlers := Without(messageHandlers, number);
        }
      }
    }

    /** The handler is a callback of the caller: AppendPacket cannot be named outside the source file. */
    method RegisterHandlerAndSendMessage(packet: Buffer, handler: Handler, sent: bool) returns (ok: bool)
      requires |packet| >= NLMSG_HDRLEN && handler.Callback?
      modifies this`messageHandlers
      ensures ok == (!IsDump(packet) && sent)
      ensures messageHandlers ==
              if ok then old(messageHandlers)[Sequence(packet) := handler] else old(messageHandlers)
    {
      if IsDump(packet) {
        return false;
      }
      if !sent {
        return false;
      }
      messageHandlers := messageHandlers[Sequence(packet) := handler];
      return true;
    }

    /**
     Sends a request (`sent` tells whether that worked) and waits while AppendPacket adds the replies to the
     response vector.
     */
    method SendMessageAndGetResponses(packet: Buffer, sent: bool, polls: seq<Poll>, before: seq<Buffer>)
      returns (ok: bool, responses: seq<Buffer>)
      requires |packet| >= NLMSG_HDRLEN && PollsFit(polls)
      modifies this`messageHandlers, this`deliveries, this`broadcasts, this`response
      ensures !sent ==> !ok && responses == before && Current() == old(Current())
      ensures sent ==> (ok, Current()) == Requested(old(Current()), Sequence(packet), polls, before)
      ensures sent ==> responses == Current().response
    {
      if !sent {
        return false, before;
      }
      var number := Sequence(packet);
      response := before;
      var timeRemaining := MAXIMUM_WAIT_MILLISECONDS;
      messageHandlers := messageHandlers[number := AppendPacket];
      ghost var installed := Current();
      var i := 0;
      while timeRemaining > 0 && number in messageHandlers
        invariant i <= |polls|
        invariant Collected(installed, number, polls, MAXIMUM_WAIT_MILLISECONDS).0 ==
                  Collected(Current(), number, polls[i..], timeRemaining).0
        invariant Collected(installed, number, polls, MAXIMUM_WAIT_MILLISECONDS).1 ==
                  Collected(Current(), number, polls[i..], timeRemaining).1
        decreases |polls| - i
      {
        if i == |polls| || !polls[i].Ready? {
          messageHandlers := Without(messageHandlers, number);
          return false, response;
        }
        assert polls[i..][0] == polls[i] && polls[i..][1..] == polls[i + 1..];
        ReceivePacketAndRunHandler(polls[i].datagram);
        timeRemaining := timeRemaining - polls[i].elapsedMs;
        i := i + 1;
      }
      if timeRemaining <= 0 {
        messageHandlers := Without(messageHandlers, number);
        return false, response;
      }
      return true, response;
    }

    /** Succeeds only if exactly one packet answers the request. */
    method SendMessageAndGetSingleResponseOrError(packet: Buffer, sent: bool, polls: seq<Poll>)
      returns (ok: bool, single: Option<Buffer>)
      requires |packet| >= NLMSG_HDRLEN && PollsFit(polls)
      modifies this`messageHandlers, this`deliveries, this`broadcasts, this`response
      ensures var r := Responses(old(Current()), Sequence(packet), polls);
              && ok == (sent && r.0 && |r.1| == 1)
              && single == (if ok then Some(r.1[0]) else None)
      ensures Current() == if sent then Requested(old(Current()), Sequence(packet), polls, []).1 else old(Current())
    {
      var responses;
      ok, responses := SendMessageAndGetResponses(packet, sent, polls, []);
      if !ok {
        return false, None;
      }
      if |responses| != 1 {
        return false, None;
      }
      return true, Some(responses[0]);
    }

    method SendMessageAndGetAckOrError(packet: Buffer, sent: bool, polls: seq<Poll>, initial: int)
      returns (ok: bool, errorCode: int)
      requires |packet| >= NLMSG_HDRLEN && PollsFit(polls)
      modifies this`messageHandlers, this`deliveries, this`broadcasts, this`response
      ensures var r := Responses(old(Current()), Sequence(packet), polls);
              && ok == (sent && r.0 && IsErrorReply(r.1))
              && (ok ==> ReportsError(r.1[0], errorCode)) && (!ok ==> errorCode == initial)
      ensures Current() == if sent then Requested(old(Current()), Sequence(packet), polls, []).1 else old(Current())
    {
      var single;
      ok, single := SendMessageAndGetSingleResponseOrError(packet, sent, polls);
      if !ok {
        return false, initial;
      }
      RepliesAreValid(old(Current()), Sequence(packet), polls);
      if MessageType(single.value) != NLMSG_ERROR {
        return false, initial;
      }
      ErrorIsReported(single.value);
      return true, ErrorCode(single.value);
    }

    /** Succeeds exactly for one reply, an NLMSG_ERROR message whose code is zero. */
    method SendMessageAndGetAck(packet: Buffer, sent: bool, polls: seq<Poll>) returns (ok: bool)
      requires |packet| >= NLMSG_HDRLEN && PollsFit(polls)
      modifies this`messageHandlers, this`deliveries, this`broadcasts, this`response
      ensures var r := Responses(old(Current()), Sequence(packet), polls);
              ok <==> sent && r.0 && IsErrorReply(r.1) && r.1[0][16..20] == [0, 0, 0, 0]
      ensures Current() == if sent then Requested(old(Current()), Sequence(packet), polls, []).1 else old(Current())
    {
      var errorCode;
      ok, errorCode := SendMessageAndGetAckOrError(packet, sent, polls, 0);
      if !ok {
        return false;
      }
      ReportedZero(Responses(old(Current()), Sequence(packet), polls).1[0], errorCode);
      if errorCode != 0 {
        return false;
      }
      return true;
    }
  }

  /** Exactly one packet, of type 2: an error message, with room for the code behind the netlink header. */
  predicate IsErrorReply(replies: seq<Buffer>) {
    |replies| == 1 && |replies[0]| >= 20 && U16At(replies[0], 4) == 2
  }

  /** The four bytes behind the netlink header hold the negated code, in two's complement. */
  predicate ReportsError(packet: Buffer, code: int) {
    && |packet| >= 20 && -0x8000_0000 < code <= 0x8000_0000
    && packet[16..20] == LittleEndian((-code) % U32_SIZE, 4)
  }

  lemma {:induction false} ErrorIsReported(packet: Buffer)
    requires |packet| >= HDRLEN
    ensures ReportsError(packet, ErrorCode(packet))
  {
    var v := U32At(packet, NLMSG_HDRLEN);
    assert v < U32_SIZE && packet[16..20] == LittleEndian(v, 4) by {
      Pow256Of4();
      LittleEndianOfValue(packet[16..20]);
    }
    NegatedCode(v);
  }

  lemma {:induction false} NegatedCode(v: int)
    requires 0 <= v < U32_SIZE
    ensures var code: int := if v < 0x8000_0000 then -v else U32_SIZE - v;
            -0x8000_0000 < code <= 0x8000_0000 && (-code) % U32_SIZE == v
  {
    if v >= 0x8000_0000 {
      assert (v - U32_SIZE) % U32_SIZE == v;
    }
  }

  lemma {:induction false} SameNegation(code: int, other: int)
    requires -0x8000_0000 < code <= 0x8000_0000 && -0x8000_0000 < other <= 0x8000_0000
    requires (-code) % U32_SIZE == (-other) % U32_SIZE
    ensures code == other
  {
  }

  /** There is one such code. */
  lemma {:induction false} ReportedOnce(packet: Buffer, code: int, other: int)
    requires ReportsError(packet, code) && ReportsError(packet, other)
    ensures code == other
  {
    assert (-code) % U32_SIZE == (-other) % U32_SIZE by {
      Pow256Of4();
      ValueOfLittleEndian((-code) % U32_SIZE, 4);
      ValueOfLittleEndian((-other) % U32_SIZE, 4);
    }
    SameNegation(code, other);
  }

  /** It is zero exactly if the four bytes are. */
  lemma {:induction false} ReportedZero(packet: Buffer, code: int)
    requires ReportsError(packet, code)
    ensures code == 0 <==> packet[16..20] == [0, 0, 0, 0]
  {
    assert LittleEndian(0, 4) == [0, 0, 0, 0] by {
      assert LittleEndian(0, 1) == [0] && LittleEndian(0, 2) == [0, 0] && LittleEndian(0, 3) == [0, 0, 0];
    }
    if packet[16..20] == [0, 0, 0, 0] {
      assert ReportsError(packet, 0);
      ReportedOnce(packet, code, 0);
    }
  }

  /** Of an error packet that carries the negation of a code, that code is read. */
  lemma {:induction false} ErrorCodeReads(h: Header, e: int)
    requires FitsHeader(h) && -0x8000_0000 < e <= 0x8000_0000
    ensures var packet := Put32(20) + Put16(h.messageType) + Put16(h.flags) + Put32(h.sequence) + Put32(h.pid)
                          + LittleEndian((-e) % U32_SIZE, 4);
            ErrorCode(packet) == e
  {
    var packet := Put32(20) + Put16(h.messageType) + Put16(h.flags) + Put32(h.sequence) + Put32(h.pid)
                  + LittleEndian((-e) % U32_SIZE, 4);
    assert packet[16..20] == LittleEndian((-e) % U32_SIZE, 4);
    ErrorIsReported(packet);
    ReportedOnce(packet, ErrorCode(packet), e);
  }

  // ---- only valid packets are delivered ----

  ghost predicate AllValid(packets: seq<Buffer>) {
    forall i :: 0 <= i < |packets| ==> IsValidPacket(packets[i])
  }

  lemma {:induction false} ReceivedIsValid(s: State, datagram: Buffer)
    requires AllValid(s.response)
    ensures AllValid(Received(s, datagram).response)
    decreases |datagram|
  {
    if HasMessage(datagram) {
      var len := MessageLen(datagram);
      MessageIsNonempty(datagram);
      var (next, more) := Processed(s, datagram[..len]);
      if more {
        ReceivedIsValid(next, datagram[len..]);
      }
    }
  }

  lemma {:induction false} CollectedIsValid(s: State, number: nat, polls: seq<Poll>, budget: int)
    requires AllValid(s.response)
    ensures AllValid(Collected(s, number, polls, budget).1.response)
    decreases |polls|
  {
    if budget > 0 && number in s.handlers && |polls| > 0 && polls[0].Ready? {
      if polls[0].datagram.Some? {
        ReceivedIsValid(s, polls[0].datagram.value);
      }
      CollectedIsValid(AfterRead(s, polls[0].datagram), number, polls[1..], budget - polls[0].elapsedMs);
    }
  }

  lemma {:induction false} RepliesAreValid(s: State, number: nat, polls: seq<Poll>)
    ensures AllValid(Responses(s, number, polls).1)
  {
    CollectedIsValid(Installed(s.(response := []), number), number, polls, MAXIMUM_WAIT_MILLISECONDS);
  }
}
