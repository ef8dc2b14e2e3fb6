/** What the receive and collect loops of net/netlink_manager.cpp do over whole runs of datagrams. */
module NetlinkRuns {
  import opened Bytes
  import opened Nl80211Packet
  import opened NetlinkManager

  // ---- the messages a run looks at ----

  /** The non-broadcast messages of a datagram for which the table is consulted. */
  function Messages(s: State, datagram: Buffer): seq<Buffer>
    decreases |datagram|
  {
    if !HasMessage(datagram) then []
    else
      var len := MessageLen(datagram);
      MessageIsNonempty(datagram);
      var packet := datagram[..len];
      var (next, more) := Processed(s, packet);
      (if Sequence(packet) == BROADCAST_SEQUENCE_NUMBER then [] else [packet])
      + if more then Messages(next, datagram[len..]) else []
  }

  function AfterRun(s: State, datagrams: seq<Buffer>): State
    decreases |datagrams|
  {
    if datagrams == [] then s else AfterRun(Received(s, datagrams[0]), datagrams[1..])
  }

  function RunMessages(s: State, datagrams: seq<Buffer>): seq<Buffer>
    decreases |datagrams|
  {
    if datagrams == [] then [] else Messages(s, datagrams[0]) + RunMessages(Received(s, datagrams[0]), datagrams[1..])
  }

  predicate Answers(packet: Buffer, number: nat) {
    |packet| >= NLMSG_HDRLEN && Sequence(packet) == number
  }

  function For(packets: seq<Buffer>, number: nat): seq<Buffer> {
    if packets == [] then []
    else (if Answers(packets[0], number) then [packets[0]] else []) + For(packets[1..], number)
  }

  // ---- what one handler should get ----

  /** A message that ends its reply without being handed over. */
  predicate Stops(packet: Buffer) {
    |packet| >= NLMSG_HDRLEN
    && (MessageType(packet) == NLMSG_DONE || MessageType(packet) == NLMSG_NOOP || MessageType(packet) == NLMSG_OVERRUN)
  }

  /** A message after which the handler is gone. */
  predicate Ends(packet: Buffer) {
    Stops(packet) || (|packet| >= NLMSG_HDRLEN && !IsMulti(packet))
  }

  /** A reply: the messages up to the first non-multipart one, or up to but without the first terminator. */
  function Reply(messages: seq<Buffer>): seq<Buffer> {
    if messages == [] then []
    else if Stops(messages[0]) then []
    else if Ends(messages[0]) then [messages[0]]
    else [messages[0]] + Reply(messages[1..])
  }

  predicate Finished(messages: seq<Buffer>) {
    messages != [] && (Ends(messages[0]) || Finished(messages[1..]))
  }

  lemma {:induction false} ReplyAppend(xs: seq<Buffer>, ys: seq<Buffer>)
    ensures Reply(xs + ys) == if Finished(xs) then Reply(xs) else xs + Reply(ys)
    ensures Finished(xs + ys) == (Finished(xs) || Finished(ys))
    ensures !Finished(xs) ==> Reply(xs) == xs
  {
    if xs == [] {
      assert xs + ys == ys;
    } else {
      assert (xs + ys)[1..] == xs[1..] + ys;
      ReplyAppend(xs[1..], ys);
    }
  }

  lemma {:induction false} ForAppend(xs: seq<Buffer>, ys: seq<Buffer>, number: nat)
    ensures For(xs + ys, number) == For(xs, number) + For(ys, number)
  {
    if xs == [] {
      assert xs + ys == ys;
    } else {
      var own := if Answers(xs[0], number) then [xs[0]] else [];
      assert (xs + ys)[0] == xs[0] && (xs + ys)[1..] == xs[1..] + ys;
      ForAppend(xs[1..], ys, number);
      Regroup(own, For(xs[1..], number), For(ys, number));
    }
  }

  // ---- what a record of handler runs says about one number ----

  /** The runs on packets that answer a number, whichever handler was run. */
  function RunsOn(deliveries: seq<Delivery>, number: nat): seq<Delivery> {
    if deliveries == [] then []
    else
      var last := deliveries[|deliveries| - 1];
      RunsOn(deliveries[..|deliveries| - 1], number) + if Answers(last.packet, number) then [last] else []
  }

  /** One handler is run on packets, in order. */
  function RunsOf(handler: Handler, packets: seq<Buffer>): (runs: seq<Delivery>)
    ensures |runs| == |packets|
    ensures forall i :: 0 <= i < |packets| ==> runs[i] == Delivery(handler, packets[i])
  {
    seq(|packets|, i requires 0 <= i < |packets| => Delivery(handler, packets[i]))
  }

  lemma {:induction false} RunsOfAppend(handler: Handler, xs: seq<Buffer>, ys: seq<Buffer>)
    ensures RunsOf(handler, xs + ys) == RunsOf(handler, xs) + RunsOf(handler, ys)
  {
  }

  lemma {:induction false} RunsOnSnoc(deliveries: seq<Delivery>, d: Delivery, number: nat)
    ensures RunsOn(deliveries + [d], number) ==
            if Answers(d.packet, number) then RunsOn(deliveries, number) + [d] else RunsOn(deliveries, number)
  {
    assert (deliveries + [d])[..|deliveries|] == deliveries;
  }

  /** No handler appends to the response, except perhaps that of `number`. */
  ghost predicate OnlyCollector(s: State, number: nat) {
    forall k :: k in s.handlers && s.handlers[k] == AppendPacket ==> k == number
  }

  /** What the response gains when `number` gets this reply. */
  function Gained(s: State, number: nat, reply: seq<Buffer>): seq<Buffer> {
    if number in s.handlers && s.handlers[number] == AppendPacket then reply else []
  }

  /** From `s` to `after`, the response got what AppendPacket was run on, and nothing else. */
  ghost predicate Collects(s: State, after: State, mine: seq<Buffer>, number: nat) {
    OnlyCollector(s, number) ==>
      OnlyCollector(after, number) && after.response == s.response + Gained(s, number, Reply(mine))
  }

  /** From `s` to `after`, the handler of `number` was run on its reply out of these messages, and nothing else was. */
  ghost predicate Delivers(s: State, after: State, messages: seq<Buffer>, number: nat) {
    var mine := For(messages, number);
    && RunsOn(after.deliveries, number) ==
       RunsOn(s.deliveries, number) + (if number in s.handlers then RunsOf(s.handlers[number], Reply(mine)) else [])
    && (number in after.handlers <==> number in s.handlers && !Finished(mine))
    && (number in after.handlers ==> after.handlers[number] == s.handlers[number])
  }

  /** Both: the handler of `number` got its reply out of these messages, and the response what AppendPacket got. */
  ghost predicate Serves(s: State, after: State, messages: seq<Buffer>, number: nat) {
    Delivers(s, after, messages, number) && Collects(s, after, For(messages, number), number)
  }

  lemma {:induction false} CollectsTrans(s: State, mid: State, after: State, mine: seq<Buffer>, more: seq<Buffer>, number: nat)
    requires Collects(s, mid, mine, number) && Collects(mid, after, more, number)
    requires number in mid.handlers <==> number in s.handlers && !Finished(mine)
    requires number in mid.handlers ==> mid.handlers[number] == s.handlers[number]
    ensures Collects(s, after, mine + more, number)
  {
    ReplyAppend(mine, more);
    if OnlyCollector(s, number) {
      Regroup(s.response, Gained(s, number, Reply(mine)), Gained(mid, number, Reply(more)));
    }
  }

  lemma {:induction false} DeliversTrans(s: State, mid: State, after: State, xs: seq<Buffer>, ys: seq<Buffer>, number: nat)
    requires Delivers(s, mid, xs, number) && Delivers(mid, after, ys, number)
    ensures Delivers(s, after, xs + ys, number)
  {
    ForAppend(xs, ys, number);
    var mine, more := For(xs, number), For(ys, number);
    ReplyAppend(mine, more);
    if number in s.handlers && !Finished(mine) {
      RunsOfAppend(s.handlers[number], mine, Reply(more));
      Regroup(RunsOn(s.deliveries, number), RunsOf(s.handlers[number], mine), RunsOf(s.handlers[number], Reply(more)));
    }
  }

  lemma {:induction false} ServesTrans(s: State, mid: State, after: State, xs: seq<Buffer>, ys: seq<Buffer>, number: nat)
    requires Serves(s, mid, xs, number) && Serves(mid, after, ys, number)
    ensures Serves(s, after, xs + ys, number)
  {
    DeliversTrans(s, mid, after, xs, ys, number);
    ForAppend(xs, ys, number);
    CollectsTrans(s, mid, after, For(xs, number), For(ys, number), number);
  }

  lemma {:induction false} ForOne(packet: Buffer, number: nat)
    ensures For([packet], number) == if Answers(packet, number) then [packet] else []
  {
    assert [packet][1..] == [];
  }

  lemma {:induction false} ReplyOfOne(packet: Buffer)
    ensures Reply([packet]) == if Stops(packet) then [] else [packet]
    ensures Finished([packet]) == Ends(packet)
  {
    assert [packet][1..] == [];
    assert [packet] + [] == [packet];
  }

  /** What one message of its own does for a handler. */
  lemma {:induction false} OwnMessage(s: State, packet: Buffer, number: nat)
    requires IsValidPacket(packet) && Sequence(packet) == number != BROADCAST_SEQUENCE_NUMBER
    ensures Delivers(s, Processed(s, packet).0, [packet], number)
  {
    ForOne(packet, number);
    ReplyOfOne(packet);
    if number in s.handlers {
      var handler := s.handlers[number];
      RunsOnSnoc(s.deliveries, Delivery(handler, packet), number);
      assert RunsOf(handler, [packet]) == [Delivery(handler, packet)];
      assert RunsOn(s.deliveries, number) + [] == RunsOn(s.deliveries, number);
    }
  }

  /** What it does for the response. */
  lemma {:induction false} OwnMessageCollects(s: State, packet: Buffer, number: nat)
    requires IsValidPacket(packet) && Sequence(packet) == number != BROADCAST_SEQUENCE_NUMBER
    ensures Collects(s, Processed(s, packet).0, [packet], number)
  {
    ReplyOfOne(packet);
    assert s.response + [] == s.response;
  }

  /** A message of another number does nothing for it. */
  lemma {:induction false} OthersMessage(s: State, packet: Buffer, number: nat)
    requires IsValidPacket(packet) && Sequence(packet) != number
    ensures Delivers(s, Processed(s, packet).0, [], number)
    ensures Delivers(s, Processed(s, packet).0, [packet], number)
  {
    ForOne(packet, number);
    if Sequence(packet) in s.handlers {
      RunsOnSnoc(s.deliveries, Delivery(s.handlers[Sequence(packet)], packet), number);
    }
  }

  lemma {:induction false} OthersMessageCollects(s: State, packet: Buffer, number: nat)
    requires IsValidPacket(packet) && Sequence(packet) != number
    ensures Collects(s, Processed(s, packet).0, [], number)
  {
    assert s.response + [] == s.response;
  }

  lemma {:induction false} ProcessedDelivers(s: State, packet: Buffer, number: nat)
    requires IsValidPacket(packet) && number != BROADCAST_SEQUENCE_NUMBER
    ensures Serves(s, Processed(s, packet).0,
                     if Sequence(packet) == BROADCAST_SEQUENCE_NUMBER then [] else [packet], number)
  {
    ForOne(packet, number);
    if Sequence(packet) == number {
      OwnMessage(s, packet, number);
      OwnMessageCollects(s, packet, number);
    } else {
      OthersMessage(s, packet, number);
      OthersMessageCollects(s, packet, number);
    }
  }

  lemma {:induction false} ReceivedDelivers(s: State, datagram: Buffer, number: nat)
    requires number != BROADCAST_SEQUENCE_NUMBER
    ensures Serves(s, Received(s, datagram), Messages(s, datagram), number)
    decreases |datagram|
  {
    if HasMessage(datagram) {
      var len := MessageLen(datagram);
      MessageIsNonempty(datagram);
      var packet := datagram[..len];
      var (next, more) := Processed(s, packet);
      var own := if Sequence(packet) == BROADCAST_SEQUENCE_NUMBER then [] else [packet];
      ProcessedDelivers(s, packet, number);
      if more {
        ReceivedDelivers(next, datagram[len..], number);
        ServesTrans(s, next, Received(next, datagram[len..]), own, Messages(next, datagram[len..]), number);
      } else {
        assert own + [] == own;
      }
    }
  }

  /**
   Over any run of datagrams, a pending handler gets exactly its reply: its own messages in order, through
   the first non-multipart one or up to the first terminator; after that, and without registration, nothing.
   */
  lemma {:induction false} RunDelivers(s: State, datagrams: seq<Buffer>, number: nat)
    requires number != BROADCAST_SEQUENCE_NUMBER
    ensures Serves(s, AfterRun(s, datagrams), RunMessages(s, datagrams), number)
    decreases |datagrams|
  {
    if datagrams != [] {
      ReceivedDelivers(s, datagrams[0], number);
      var mid := Received(s, datagrams[0]);
      RunDelivers(mid, datagrams[1..], number);
      ServesTrans(s, mid, AfterRun(mid, datagrams[1..]), Messages(s, datagrams[0]), RunMessages(mid, datagrams[1..]), number);
    }
  }

  // ---- nothing is lost ----

  /** All messages of a datagram, whoever waits for them. */
  function AllMessages(datagram: Buffer): seq<Buffer>
    decreases |datagram|
  {
    if !HasMessage(datagram) then []
    else
      var len := MessageLen(datagram);
      MessageIsNonempty(datagram);
      [datagram[..len]] + AllMessages(datagram[len..])
  }

  function AllRunMessages(datagrams: seq<Buffer>): seq<Buffer> {
    if datagrams == [] then [] else AllMessages(datagrams[0]) + AllRunMessages(datagrams[1..])
  }

  /** The kernel only answers this request, or broadcasts. */
  ghost predicate OnlyFor(packets: seq<Buffer>, number: nat) {
    forall i :: 0 <= i < |packets| ==> Answers(packets[i], number) || Answers(packets[i], BROADCAST_SEQUENCE_NUMBER)
  }

  // ---- what a datagram loses ----

  /** The messages behind the one that ends a datagram, which nobody looks at. */
  function Unread(s: State, datagram: Buffer): seq<Buffer>
    decreases |datagram|
  {
    if !HasMessage(datagram) then []
    else
      var len := MessageLen(datagram);
      MessageIsNonempty(datagram);
      var (next, more) := Processed(s, datagram[..len]);
      if more then Unread(next, datagram[len..]) else AllMessages(datagram[len..])
  }

  /** The message of a number that nobody waits for, or a terminator: it ends its datagram. */
  predicate EndsDatagram(s: State, packet: Buffer) {
    && IsValidPacket(packet) && Sequence(packet) != BROADCAST_SEQUENCE_NUMBER
    && (Sequence(packet) !in s.handlers || IsTerminator(packet))
  }

  /** The state after these messages, each taken by itself. */
  function AfterMessages(s: State, packets: seq<Buffer>): State
    decreases |packets|
  {
    if packets == [] || !IsValidPacket(packets[0]) then s else AfterMessages(Processed(s, packets[0]).0, packets[1..])
  }

  /** What is not read of a datagram stands behind a message that ends it in the state the ones before it leave. */
  lemma {:induction false} UnreadStandsBehindEnd(s: State, datagram: Buffer) returns (k: nat)
    requires Unread(s, datagram) != []
    ensures var all := AllMessages(datagram);
            && 0 < k < |all| && Unread(s, datagram) == all[k..]
            && EndsDatagram(AfterMessages(s, all[..k - 1]), all[k - 1])
    decreases |datagram|
  {
    var len := MessageLen(datagram);
    MessageIsNonempty(datagram);
    var packet, rest := datagram[..len], datagram[len..];
    var (next, more) := Processed(s, packet);
    var all := AllMessages(datagram);
    assert all == [packet] + AllMessages(rest);
    if more {
      var j := UnreadStandsBehindEnd(next, rest);
      k := j + 1;
      assert all[..k - 1] == [packet] + AllMessages(rest)[..j - 1];
      assert all[..k - 1][1..] == AllMessages(rest)[..j - 1];
    } else {
      k := 1;
      assert all[..0] == [];
    }
  }

  /** The messages of a number in a datagram are those looked at, and then those not read. */
  lemma {:induction false} ReadAndUnread(s: State, datagram: Buffer, number: nat)
    requires number != BROADCAST_SEQUENCE_NUMBER
    ensures For(AllMessages(datagram), number) == For(Messages(s, datagram), number) + For(Unread(s, datagram), number)
    decreases |datagram|
  {
    if HasMessage(datagram) {
      var len := MessageLen(datagram);
      MessageIsNonempty(datagram);
      var packet, rest := datagram[..len], datagram[len..];
      var (next, more) := Processed(s, packet);
      var own := if Sequence(packet) == BROADCAST_SEQUENCE_NUMBER then [] else [packet];
      ForOne(packet, number);
      ForAppend([packet], AllMessages(rest), number);
      if more {
        ReadAndUnread(next, rest, number);
        ForAppend(own, Messages(next, rest), number);
        Regroup(For(own, number), For(Messages(next, rest), number), For(Unread(next, rest), number));
      } else {
        assert own + [] == own;
      }
    }
  }

  /** No datagram of a run holds a message of this number behind the one that ends it. */
  predicate NothingUnread(s: State, datagrams: seq<Buffer>, number: nat)
    decreases |datagrams|
  {
    datagrams == []
    || (For(Unread(s, datagrams[0]), number) == [] && NothingUnread(Received(s, datagrams[0]), datagrams[1..], number))
  }

  /** Over a run, all messages of a number are looked at exactly if none stands behind the end of its datagram. */
  lemma {:induction false} RunReadsAll(s: State, datagrams: seq<Buffer>, number: nat)
    requires number != BROADCAST_SEQUENCE_NUMBER
    ensures |For(RunMessages(s, datagrams), number)| <= |For(AllRunMessages(datagrams), number)|
    ensures For(RunMessages(s, datagrams), number) == For(AllRunMessages(datagrams), number) <==> NothingUnread(s, datagrams, number)
    decreases |datagrams|
  {
    if datagrams != [] {
      var mid := Received(s, datagrams[0]);
      var read, unread := For(Messages(s, datagrams[0]), number), For(Unread(s, datagrams[0]), number);
      var readLater, allLater := For(RunMessages(mid, datagrams[1..]), number), For(AllRunMessages(datagrams[1..]), number);
      RunReadsAll(mid, datagrams[1..], number);
      ReadAndUnread(s, datagrams[0], number);
      ForAppend(Messages(s, datagrams[0]), RunMessages(mid, datagrams[1..]), number);
      ForAppend(AllMessages(datagrams[0]), AllRunMessages(datagrams[1..]), number);
      SameWithGap(read, unread, readLater, allLater);
    }
  }

  lemma {:induction false} SameWithGap<T>(x: seq<T>, gap: seq<T>, a: seq<T>, b: seq<T>)
    requires |a| <= |b|
    ensures x + a == x + gap + b <==> gap == [] && a == b
  {
    if x + a == x + gap + b {
      assert |x + a| == |x + gap + b|;
      assert a == (x + a)[|x|..] && b == (x + gap + b)[|x|..];
    }
  }

  /** Then the handler gets its reply out of everything that was sent, whoever else is answered. */
  lemma {:induction false} RunMissesNothing(s: State, datagrams: seq<Buffer>, number: nat)
    requires number != BROADCAST_SEQUENCE_NUMBER && NothingUnread(s, datagrams, number)
    ensures Serves(s, AfterRun(s, datagrams), AllRunMessages(datagrams), number)
  {
    RunDelivers(s, datagrams, number);
    RunReadsAll(s, datagrams, number);
  }

  lemma {:induction false} ReceivedLosesNothing(s: State, datagram: Buffer, number: nat)
    requires number != BROADCAST_SEQUENCE_NUMBER && OnlyFor(AllMessages(datagram), number)
    ensures Serves(s, Received(s, datagram), AllMessages(datagram), number)
    decreases |datagram|
  {
    if HasMessage(datagram) {
      var len := MessageLen(datagram);
      MessageIsNonempty(datagram);
      var packet, rest := datagram[..len], datagram[len..];
      var (next, more) := Processed(s, packet);
      assert AllMessages(datagram)[0] == packet && AllMessages(datagram)[1..] == AllMessages(rest);
      ProcessedDelivers(s, packet, number);
      ForOne(packet, number);
      if more {
        ReceivedLosesNothing(next, rest, number);
        ServesTrans(s, next, Received(next, rest), [packet], AllMessages(rest), number);
      } else {
        ServesTrans(s, next, next, [packet], AllMessages(rest), number);
      }
    }
  }

  /**
   If the kernel answers only this request, the handler gets the reply out of everything that was sent:
   how the messages were cut into datagrams does not matter.
   */
  lemma {:induction false} RunLosesNothing(s: State, datagrams: seq<Buffer>, number: nat)
    requires number != BROADCAST_SEQUENCE_NUMBER && OnlyFor(AllRunMessages(datagrams), number)
    ensures Serves(s, AfterRun(s, datagrams), AllRunMessages(datagrams), number)
    decreases |datagrams|
  {
    if datagrams != [] {
      var first, rest := AllMessages(datagrams[0]), AllRunMessages(datagrams[1..]);
      OnlyForParts(first, rest, number);
      ReceivedLosesNothing(s, datagrams[0], number);
      var mid := Received(s, datagrams[0]);
      RunLosesNothing(mid, datagrams[1..], number);
      ServesTrans(s, mid, AfterRun(mid, datagrams[1..]), first, rest, number);
    }
  }

  lemma {:induction false} OnlyForParts(xs: seq<Buffer>, ys: seq<Buffer>, number: nat)
    requires OnlyFor(xs + ys, number)
    ensures OnlyFor(xs, number) && OnlyFor(ys, number)
  {
    assert forall i :: 0 <= i < |xs| ==> (xs + ys)[i] == xs[i];
    assert forall i :: 0 <= i < |ys| ==> (xs + ys)[|xs| + i] == ys[i];
  }

  /** A datagram made of whole valid packets holds exactly those packets. */
  lemma {:induction false} MessagesOfPackets(packet: Buffer, rest: Buffer)
    requires IsValidPacket(packet) && MessageLen(packet) == |packet|
    ensures AllMessages(packet + rest) == [packet] + AllMessages(rest)
    ensures MessagesFit(packet + rest) == MessagesFit(rest)
  {
    var d := packet + rest;
    assert d[0..4] == packet[0..4];
    assert d[..|packet|] == packet && d[|packet|..] == rest;
  }

  // ---- the synchronous collect loop ----

  /** The datagrams that these polls brought. */
  function Datagrams(polls: seq<Poll>): seq<Buffer>
    requires forall i :: 0 <= i < |polls| ==> polls[i].Ready?
  {
    if |polls| == 0 then []
    else (if polls[0].datagram.Some? then [polls[0].datagram.value] else []) + Datagrams(polls[1..])
  }

  function Elapsed(polls: seq<Poll>): nat
    requires forall i :: 0 <= i < |polls| ==> polls[i].Ready?
  {
    if |polls| == 0 then 0 else polls[0].elapsedMs + Elapsed(polls[1..])
  }

  ghost predicate Submap(xs: map<nat, Handler>, ys: map<nat, Handler>) {
    forall k :: k in xs ==> k in ys && xs[k] == ys[k]
  }

  lemma {:induction false} ReceivedSubmap(s: State, datagram: Buffer)
    ensures Submap(Received(s, datagram).handlers, s.handlers)
    decreases |datagram|
  {
    if HasMessage(datagram) {
      var len := MessageLen(datagram);
      MessageIsNonempty(datagram);
      var (next, more) := Processed(s, datagram[..len]);
      if more {
        ReceivedSubmap(next, datagram[len..]);
      }
    }
  }

  /** The datagrams a collect loop takes in, and how long it waited for them. */
  function Taken(s: State, number: nat, polls: seq<Poll>, budget: int): seq<Poll> {
    CollectedTakesReady(s, number, polls, budget);
    polls[..Collected(s, number, polls, budget).2]
  }

  lemma {:induction false} CollectedTakesReady(s: State, number: nat, polls: seq<Poll>, budget: int)
    ensures Collected(s, number, polls, budget).2 <= |polls|
    ensures forall i :: 0 <= i < Collected(s, number, polls, budget).2 ==> polls[i].Ready?
    decreases |polls|
  {
    if budget > 0 && number in s.handlers && |polls| > 0 && polls[0].Ready? {
      CollectedTakesReady(AfterRead(s, polls[0].datagram), number, polls[1..], budget - polls[0].elapsedMs);
    }
  }

  lemma {:induction false} TakenStep(s: State, number: nat, polls: seq<Poll>, budget: int)
    requires budget > 0 && number in s.handlers && |polls| > 0 && polls[0].Ready?
    ensures var next := AfterRead(s, polls[0].datagram);
            var rest := Taken(next, number, polls[1..], budget - polls[0].elapsedMs);
            var taken := Taken(s, number, polls, budget);
            && (forall i :: 0 <= i < |taken| ==> taken[i].Ready?)
            && (forall i :: 0 <= i < |rest| ==> rest[i].Ready?)
            && Elapsed(taken) == polls[0].elapsedMs + Elapsed(rest)
            && AfterRun(s, Datagrams(taken)) == AfterRun(next, Datagrams(rest))
  {
    var next := AfterRead(s, polls[0].datagram);
    var rest := Taken(next, number, polls[1..], budget - polls[0].elapsedMs);
    CollectedTakesReady(s, number, polls, budget);
    CollectedTakesReady(next, number, polls[1..], budget - polls[0].elapsedMs);
    assert Taken(s, number, polls, budget) == [polls[0]] + rest;
    assert ([polls[0]] + rest)[1..] == rest;
    if polls[0].datagram.Some? {
      assert ([polls[0].datagram.value] + Datagrams(rest))[1..] == Datagrams(rest);
    } else {
      assert [] + Datagrams(rest) == Datagrams(rest);
    }
  }

  /** The collect loop is the receive loop over the datagrams it takes, cut off by the time budget. */
  lemma {:induction false} CollectedIsRun(s: State, number: nat, polls: seq<Poll>, budget: int)
    ensures var (ok, final, _) := Collected(s, number, polls, budget);
            var taken := Taken(s, number, polls, budget);
            && (forall i :: 0 <= i < |taken| ==> taken[i].Ready?)
            && final.deliveries == AfterRun(s, Datagrams(taken)).deliveries
            && final.broadcasts == AfterRun(s, Datagrams(taken)).broadcasts
            && final.response == AfterRun(s, Datagrams(taken)).response
            && final.handlers == Without(AfterRun(s, Datagrams(taken)).handlers, number)
            && number !in final.handlers && Submap(final.handlers, s.handlers)
            && (ok <==> number !in AfterRun(s, Datagrams(taken)).handlers && Elapsed(taken) < budget)
    decreases |polls|
  {
    CollectedTakesReady(s, number, polls, budget);
    if budget > 0 && number in s.handlers && |polls| > 0 && polls[0].Ready? {
      var next := AfterRead(s, polls[0].datagram);
      TakenStep(s, number, polls, budget);
      if polls[0].datagram.Some? {
        ReceivedSubmap(s, polls[0].datagram.value);
      }
      CollectedIsRun(next, number, polls[1..], budget - polls[0].elapsedMs);
    }
  }

  /** The datagrams a synchronous request takes in, and the time it waits for them. */
  function Waited(s: State, number: nat, polls: seq<Poll>, before: seq<Buffer>): (taken: seq<Poll>)
    ensures forall i :: 0 <= i < |taken| ==> taken[i].Ready?
  {
    var installed := Installed(s.(response := before), number);
    CollectedTakesReady(installed, number, polls, MAXIMUM_WAIT_MILLISECONDS);
    Taken(installed, number, polls, MAXIMUM_WAIT_MILLISECONDS)
  }

  /** No handler of the table appends to the response: no synchronous request is in progress. */
  ghost predicate NoCollector(s: State) {
    forall k :: k in s.handlers ==> s.handlers[k] != AppendPacket
  }

  /**
   A synchronous request leaves no handler of its own and adds none; AppendPacket is run on exactly its reply out
   of the messages looked at, and appends exactly that to the response; and the request succeeds exactly when the
   reply was finished within the time budget.
   */
  lemma {:induction false} RequestMeaning(s: State, number: nat, polls: seq<Poll>, before: seq<Buffer>)
    requires number != BROADCAST_SEQUENCE_NUMBER && NoCollector(s)
    ensures var (ok, final) := Requested(s, number, polls, before);
            var taken := Waited(s, number, polls, before);
            var mine := For(RunMessages(Installed(s.(response := before), number), Datagrams(taken)), number);
            && number !in final.handlers && Submap(final.handlers, s.handlers) && NoCollector(final)
            && RunsOn(final.deliveries, number) == RunsOn(s.deliveries, number) + RunsOf(AppendPacket, Reply(mine))
            && final.response == before + Reply(mine)
            && (ok <==> Finished(mine) && Elapsed(taken) < MAXIMUM_WAIT_MILLISECONDS)
  {
    var installed, taken := Installed(s.(response := before), number), Waited(s, number, polls, before);
    CollectedIsRun(installed, number, polls, MAXIMUM_WAIT_MILLISECONDS);
    RunDelivers(installed, Datagrams(taken), number);
    assert OnlyCollector(installed, number);
  }

  // ---- registrations and requests in between ----

  /** What happens to the table: a datagram arrives, a caller registers a handler, or makes a synchronous request. */
  datatype Event =
    | Arrives(datagram: Buffer)
    | Registers(number: nat, callback: nat)
    | Requests(number: nat, polls: seq<Poll>)

  function AfterEvent(s: State, e: Event): State {
    match e
    case Arrives(datagram) => Received(s, datagram)
    case Registers(number, callback) => s.(handlers := s.handlers[number := Callback(callback)])
    case Requests(number, polls) => Requested(s, number, polls, []).1
  }

  function AfterEvents(s: State, events: seq<Event>): State
    decreases |events|
  {
    if events == [] then s else AfterEvents(AfterEvent(s, events[0]), events[1..])
  }

  /** The messages looked at during an event, by whichever loop. */
  function EventMessages(s: State, e: Event): seq<Buffer> {
    match e
    case Arrives(datagram) => Messages(s, datagram)
    case Registers(_, _) => []
    case Requests(number, polls) => RunMessages(Installed(s.(response := []), number), Datagrams(Waited(s, number, polls, [])))
  }

  function EventsMessages(s: State, events: seq<Event>): seq<Buffer>
    decreases |events|
  {
    if events == [] then [] else EventMessages(s, events[0]) + EventsMessages(AfterEvent(s, events[0]), events[1..])
  }

  /** The event installs no handler for this number. */
  predicate Leaves(e: Event, number: nat) {
    match e
    case Arrives(_) => true
    case Registers(other, _) => other != number
    case Requests(other, _) => other != number
  }

  /** A request of another number serves a pending handler as the receive loop does. */
  lemma {:induction false} RequestDeliversOthers(s: State, other: nat, polls: seq<Poll>, number: nat)
    requires number != BROADCAST_SEQUENCE_NUMBER && other != number
    ensures Delivers(s, AfterEvent(s, Requests(other, polls)), EventMessages(s, Requests(other, polls)), number)
  {
    var installed := Installed(s.(response := []), other);
    CollectedIsRun(installed, other, polls, MAXIMUM_WAIT_MILLISECONDS);
    RunDelivers(installed, Datagrams(Waited(s, other, polls, [])), number);
  }

  lemma {:induction false} EventDelivers(s: State, e: Event, number: nat)
    requires number != BROADCAST_SEQUENCE_NUMBER && Leaves(e, number)
    ensures Delivers(s, AfterEvent(s, e), EventMessages(s, e), number)
  {
    match e
    case Arrives(datagram) => ReceivedDelivers(s, datagram, number);
    case Registers(_, _) =>
    case Requests(other, polls) => RequestDeliversOthers(s, other, polls, number);
  }

  /**
   Over any run of datagrams, registrations and synchronous requests, the handler of a number is run on exactly its
   reply out of all messages looked at meanwhile, and never after, until something is installed for that number again.
   */
  lemma {:induction false} EventsDeliver(s: State, events: seq<Event>, number: nat)
    requires number != BROADCAST_SEQUENCE_NUMBER && forall i :: 0 <= i < |events| ==> Leaves(events[i], number)
    ensures Delivers(s, AfterEvents(s, events), EventsMessages(s, events), number)
    decreases |events|
  {
    if events != [] {
      var mid := AfterEvent(s, events[0]);
      EventDelivers(s, events[0], number);
      EventsDeliver(mid, events[1..], number);
      DeliversTrans(s, mid, AfterEvents(mid, events[1..]), EventMessages(s, events[0]), EventsMessages(mid, events[1..]), number);
    }
  }
}
