/**
 How far the loops of net/netlink_manager.cpp get: which messages of a datagram are looked at, which of them go to
 the broadcast handler, and which polls a synchronous request takes. Broadcasts have the number 0; the types that
 end a reply are 1 (NOOP), 3 (DONE) and 4 (OVERRUN), and bit 1 of the flags announces more messages.
 */
module NetlinkReach {
  import opened Bytes
  import opened Filters
  import opened Nl80211Packet
  import opened NetlinkManager
  import opened NetlinkRuns

  // ---- how far a datagram is read ----

  predicate IsNumbered(packet: Buffer, number: nat) {
    |packet| >= 16 && U32At(packet, 8) == number
  }

  predicate HasTerminatorType(packet: Buffer) {
    |packet| >= 16 && U16At(packet, 4) in {1, 3, 4}
  }

  /** A message that ends the reply to its number: a terminator, or one without the multipart flag. */
  predicate EndsReply(packet: Buffer) {
    |packet| >= 16 && (HasTerminatorType(packet) || !Bit(U16At(packet, 6), 1))
  }

  /** Nobody waits for the number after these messages: nobody did, or one of them ended its reply. */
  predicate Gone(s: State, packets: seq<Buffer>, number: nat) {
    number !in s.handlers || exists j :: 0 <= j < |packets| && IsNumbered(packets[j], number) && EndsReply(packets[j])
  }

  /** This message, no broadcast, is a terminator or one that nobody waits for any more. */
  predicate EndsAt(s: State, all: seq<Buffer>, k: nat)
    requires k < |all|
  {
    && |all[k]| >= 16 && U32At(all[k], 8) != 0
    && (HasTerminatorType(all[k]) || Gone(s, all[..k], U32At(all[k], 8)))
  }

  lemma {:induction false} MultiIsBit(packet: Buffer)
    requires |packet| >= NLMSG_HDRLEN
    ensures IsMulti(packet) <==> Bit(U16At(packet, 6), 1)
  {
    assert Pow2(1) == 2;
    AndTestsBit(Flags(packet), 1);
  }

  lemma {:induction false} FinishedWhen(packets: seq<Buffer>, number: nat)
    ensures Finished(For(packets, number)) <==>
            exists j :: 0 <= j < |packets| && IsNumbered(packets[j], number) && EndsReply(packets[j])
  {
    if packets != [] {
      var packet, rest := packets[0], packets[1..];
      FinishedWhen(rest, number);
      if |packet| >= NLMSG_HDRLEN {
        MultiIsBit(packet);
      }
      FinishedOfMore(packet, rest, number);
      if Answers(packet, number) && Ends(packet) {
        assert IsNumbered(packets[0], number) && EndsReply(packets[0]);
      }
      if j :| 0 <= j < |rest| && IsNumbered(rest[j], number) && EndsReply(rest[j]) {
        assert packets[j + 1] == rest[j];
      }
      if j :| 0 < j < |packets| && IsNumbered(packets[j], number) && EndsReply(packets[j]) {
        assert packets[j] == rest[j - 1];
      }
    }
  }

  lemma {:induction false} FinishedOfMore(packet: Buffer, rest: seq<Buffer>, number: nat)
    ensures Finished(For([packet] + rest, number)) <==> (Answers(packet, number) && Ends(packet)) || Finished(For(rest, number))
  {
    ForAppend([packet], rest, number);
    ForOne(packet, number);
    ReplyAppend(For([packet], number), For(rest, number));
    ReplyOfOne(packet);
  }

  /** A handler is gone after a message and more exactly if it is gone after those more from the state it leaves. */
  lemma {:induction false} GoneStep(s: State, packet: Buffer, rest: seq<Buffer>, number: nat)
    requires IsValidPacket(packet) && number != 0
    ensures Gone(s, [packet] + rest, number) <==> Gone(Processed(s, packet).0, rest, number)
  {
    FinishedWhen([packet] + rest, number);
    FinishedWhen(rest, number);
    FinishedOfMore(packet, rest, number);
    ProcessedDelivers(s, packet, number);
    ForOne(packet, number);
    ReplyOfOne(packet);
  }

  lemma {:induction false} EndsAtStep(s: State, packet: Buffer, rest: seq<Buffer>, k: nat)
    requires IsValidPacket(packet) && k < |rest|
    ensures EndsAt(s, [packet] + rest, k + 1) <==> EndsAt(Processed(s, packet).0, rest, k)
  {
    assert ([packet] + rest)[..k + 1] == [packet] + rest[..k];
    if |rest[k]| >= 16 && U32At(rest[k], 8) != 0 {
      GoneStep(s, packet, rest[..k], U32At(rest[k], 8));
    }
  }

  lemma {:induction false} EndsAtFirst(s: State, packet: Buffer, rest: seq<Buffer>)
    requires IsValidPacket(packet)
    ensures EndsAt(s, [packet] + rest, 0) <==> !Processed(s, packet).1
  {
    assert ([packet] + rest)[..0] == [];
  }

  /** The first `n` messages are read: none but the last of them ends the datagram, and it does if there are more. */
  predicate ReadsUpTo(s: State, all: seq<Buffer>, n: nat) {
    && n <= |all|
    && (forall k :: 0 <= k < n - 1 ==> !EndsAt(s, all, k))
    && (n < |all| ==> n > 0 && EndsAt(s, all, n - 1))
  }

  lemma {:induction false} ReadsUpToStep(s: State, packet: Buffer, rest: seq<Buffer>, n: nat)
    requires IsValidPacket(packet) && !EndsAt(s, [packet] + rest, 0) && ReadsUpTo(Processed(s, packet).0, rest, n)
    ensures ReadsUpTo(s, [packet] + rest, n + 1)
  {
    forall k | 0 <= k < n
      ensures !EndsAt(s, [packet] + rest, k)
    {
      if k > 0 {
        EndsAtStep(s, packet, rest, k - 1);
      }
    }
    if 0 < n < |rest| {
      EndsAtStep(s, packet, rest, n - 1);
    }
  }

  lemma {:induction false} ReadsUpToOnce(s: State, all: seq<Buffer>, n: nat, m: nat)
    requires ReadsUpTo(s, all, n) && ReadsUpTo(s, all, m)
    ensures n == m
  {
  }

  /** How many messages of a datagram are read; the rest is unread, and the broadcasts among them go to their handler. */
  lemma {:induction false} ReadSplits(s: State, datagram: Buffer) returns (n: nat)
    ensures var all := AllMessages(datagram);
            && ReadsUpTo(s, all, n) && Unread(s, datagram) == all[n..]
            && Received(s, datagram).broadcasts == s.broadcasts + For(all[..n], 0)
    decreases |datagram|
  {
    n := 0;
    if HasMessage(datagram) {
      var len := MessageLen(datagram);
      MessageIsNonempty(datagram);
      var packet, rest := datagram[..len], datagram[len..];
      var (next, more) := Processed(s, packet);
      EndsAtFirst(s, packet, AllMessages(rest));
      if more {
        var m := ReadSplits(next, rest);
        n := m + 1;
        ReadsUpToStep(s, packet, AllMessages(rest), m);
        BroadcastsOfMore(s, packet, AllMessages(rest)[..m]);
        assert ([packet] + AllMessages(rest))[..n] == [packet] + AllMessages(rest)[..m];
      } else {
        n := 1;
        BroadcastsOfMore(s, packet, []);
        assert ([packet] + AllMessages(rest))[..1] == [packet] + [];
      }
    }
  }

  lemma {:induction false} BroadcastsOfMore(s: State, packet: Buffer, rest: seq<Buffer>)
    requires IsValidPacket(packet)
    ensures s.broadcasts + For([packet] + rest, 0) == Processed(s, packet).0.broadcasts + For(rest, 0)
  {
    ForAppend([packet], rest, 0);
    ForOne(packet, 0);
    Regroup(s.broadcasts, For([packet], 0), For(rest, 0));
  }

  /** The messages of a datagram that do not stand unread. */
  function Reached(s: State, datagram: Buffer): seq<Buffer> {
    UnreadIsShort(s, datagram);
    AllMessages(datagram)[..|AllMessages(datagram)| - |Unread(s, datagram)|]
  }

  lemma {:induction false} UnreadIsShort(s: State, datagram: Buffer)
    ensures |Unread(s, datagram)| <= |AllMessages(datagram)|
  {
    var n := ReadSplits(s, datagram);
  }

  /**
   A datagram is read up to and with the first message that is a terminator or that nobody waits for any more,
   broadcasts aside, and completely if there is none; what stands behind it is unread.
   */
  lemma {:induction false} DatagramIsReadUpToEnd(s: State, datagram: Buffer)
    ensures AllMessages(datagram) == Reached(s, datagram) + Unread(s, datagram)
    ensures forall n: nat :: ReadsUpTo(s, AllMessages(datagram), n) <==> n == |Reached(s, datagram)|
  {
    var m := ReadSplits(s, datagram);
    assert |Reached(s, datagram)| == m;
    forall n: nat | ReadsUpTo(s, AllMessages(datagram), n)
      ensures n == m
    {
      ReadsUpToOnce(s, AllMessages(datagram), n, m);
    }
  }

  /** The broadcast handler gets the messages with number 0 among those reached: in order, each once, and no others. */
  lemma {:induction false} ReceivedBroadcasts(s: State, datagram: Buffer)
    ensures Received(s, datagram).broadcasts == s.broadcasts + For(Reached(s, datagram), 0)
  {
    var n := ReadSplits(s, datagram);
  }

  /** The other handlers are served out of the messages reached. */
  lemma {:induction false} MessagesAreReached(s: State, datagram: Buffer, number: nat)
    requires number != 0
    ensures For(Messages(s, datagram), number) == For(Reached(s, datagram), number)
  {
    DatagramIsReadUpToEnd(s, datagram);
    ReadAndUnread(s, datagram, number);
    ForAppend(Reached(s, datagram), Unread(s, datagram), number);
    SameFront(For(Messages(s, datagram), number), For(Reached(s, datagram), number), For(Unread(s, datagram), number));
  }

  lemma {:induction false} SameFront<T>(x: seq<T>, y: seq<T>, gap: seq<T>)
    requires x + gap == y + gap
    ensures x == y
  {
    assert |x + gap| == |y + gap|;
    assert x == (x + gap)[..|x|] && y == (y + gap)[..|x|];
  }

  /** The messages of a number, picked out of a list, are each there once and in order. */
  lemma {:induction false} ForSelects(packets: seq<Buffer>, number: nat)
    ensures IsSelection(For(packets, number), packets, (p: Buffer) => IsNumbered(p, number), (p: Buffer) => p)
  {
    ForIsFiltered(packets, number, p => IsNumbered(p, number), p => p);
    FilteredIsSelection(packets, (p: Buffer) => IsNumbered(p, number), (p: Buffer) => p);
  }

  lemma {:induction false} ForIsFiltered(packets: seq<Buffer>, number: nat, wanted: Buffer -> bool, value: Buffer -> Buffer)
    requires forall p :: wanted(p) == IsNumbered(p, number)
    requires forall p :: value(p) == p
    ensures For(packets, number) == Filtered(packets, wanted, value)
  {
    if packets != [] {
      var front, last := packets[..|packets| - 1], packets[|packets| - 1];
      ForIsFiltered(front, number, wanted, value);
      assert packets == front + [last];
      ForAppend(front, [last], number);
      ForOne(last, number);
    }
  }

  // ---- runs ----

  function RunReached(s: State, datagrams: seq<Buffer>): seq<Buffer>
    decreases |datagrams|
  {
    if datagrams == [] then [] else Reached(s, datagrams[0]) + RunReached(Received(s, datagrams[0]), datagrams[1..])
  }

  /** From `s` to `after`, the broadcast handler got the messages with number 0 out of these. */
  ghost predicate Broadcasts(s: State, after: State, reached: seq<Buffer>) {
    after.broadcasts == s.broadcasts + For(reached, 0)
  }

  lemma {:induction false} BroadcastsTrans(s: State, mid: State, after: State, xs: seq<Buffer>, ys: seq<Buffer>)
    requires Broadcasts(s, mid, xs) && Broadcasts(mid, after, ys)
    ensures Broadcasts(s, after, xs + ys)
  {
    ForAppend(xs, ys, 0);
    Regroup(s.broadcasts, For(xs, 0), For(ys, 0));
  }

  lemma {:induction false} RunBroadcasts(s: State, datagrams: seq<Buffer>)
    ensures Broadcasts(s, AfterRun(s, datagrams), RunReached(s, datagrams))
    decreases |datagrams|
  {
    if datagrams != [] {
      var mid := Received(s, datagrams[0]);
      ReceivedBroadcasts(s, datagrams[0]);
      RunBroadcasts(mid, datagrams[1..]);
      BroadcastsTrans(s, mid, AfterRun(mid, datagrams[1..]), Reached(s, datagrams[0]), RunReached(mid, datagrams[1..]));
    }
  }

  lemma {:induction false} RunMessagesAreReached(s: State, datagrams: seq<Buffer>, number: nat)
    requires number != 0
    ensures For(RunMessages(s, datagrams), number) == For(RunReached(s, datagrams), number)
    decreases |datagrams|
  {
    if datagrams != [] {
      var mid := Received(s, datagrams[0]);
      MessagesAreReached(s, datagrams[0], number);
      RunMessagesAreReached(mid, datagrams[1..], number);
      ForAppend(Messages(s, datagrams[0]), RunMessages(mid, datagrams[1..]), number);
      ForAppend(Reached(s, datagrams[0]), RunReached(mid, datagrams[1..]), number);
    }
  }

  /** The messages reached during an event, by whichever loop. */
  function EventReached(s: State, e: Event): seq<Buffer> {
    match e
    case Arrives(datagram) => Reached(s, datagram)
    case Registers(_, _) => []
    case Requests(number, polls) => RunReached(Installed(s.(response := []), number), Datagrams(Waited(s, number, polls, [])))
  }

  function EventsReached(s: State, events: seq<Event>): seq<Buffer>
    decreases |events|
  {
    if events == [] then [] else EventReached(s, events[0]) + EventsReached(AfterEvent(s, events[0]), events[1..])
  }

  lemma {:induction false} EventBroadcasts(s: State, e: Event)
    ensures Broadcasts(s, AfterEvent(s, e), EventReached(s, e))
  {
    match e
    case Arrives(datagram) => ReceivedBroadcasts(s, datagram);
    case Registers(_, _) =>
    case Requests(number, polls) =>
      var installed := Installed(s.(response := []), number);
      CollectedIsRun(installed, number, polls, MAXIMUM_WAIT_MILLISECONDS);
      RunBroadcasts(installed, Datagrams(Waited(s, number, polls, [])));
  }

  /**
   Over any run of datagrams, registrations and synchronous requests, the broadcast handler gets exactly the messages
   with number 0 among those reached, in order and each once: no request takes a broadcast away.
   */
  lemma {:induction false} EventsBroadcast(s: State, events: seq<Event>)
    ensures AfterEvents(s, events).broadcasts == s.broadcasts + For(EventsReached(s, events), 0)
    decreases |events|
  {
    if events != [] {
      var mid := AfterEvent(s, events[0]);
      EventBroadcasts(s, events[0]);
      EventsBroadcast(mid, events[1..]);
      BroadcastsTrans(s, mid, AfterEvents(mid, events[1..]), EventReached(s, events[0]), EventsReached(mid, events[1..]));
    }
  }

  /** And every other handler is served out of the same messages. */
  lemma {:induction false} EventsMessagesAreReached(s: State, events: seq<Event>, number: nat)
    requires number != 0
    ensures For(EventsMessages(s, events), number) == For(EventsReached(s, events), number)
    decreases |events|
  {
    if events != [] {
      var mid := AfterEvent(s, events[0]);
      match events[0] {
        case Arrives(datagram) => MessagesAreReached(s, datagram, number);
        case Registers(_, _) =>
        case Requests(other, polls) =>
          RunMessagesAreReached(Installed(s.(response := []), other), Datagrams(Waited(s, other, polls, [])), number);
      }
      EventsMessagesAreReached(mid, events[1..], number);
      ForAppend(EventMessages(s, events[0]), EventsMessages(mid, events[1..]), number);
      ForAppend(EventReached(s, events[0]), EventsReached(mid, events[1..]), number);
    }
  }

  // ---- which polls a synchronous request takes ----

  ghost predicate AllReady(polls: seq<Poll>) {
    forall i :: 0 <= i < |polls| ==> polls[i].Ready?
  }

  /** After these polls somebody still waits for the number, and time is left. */
  ghost predicate StillWaits(s: State, number: nat, polls: seq<Poll>, budget: int)
    requires AllReady(polls)
  {
    number in AfterRun(s, Datagrams(polls)).handlers && Elapsed(polls) < budget
  }

  lemma {:induction false} StillWaitsStep(s: State, number: nat, poll: Poll, rest: seq<Poll>, budget: int)
    requires poll.Ready? && AllReady(rest)
    ensures AllReady([poll] + rest)
    ensures StillWaits(s, number, [poll] + rest, budget) <==>
            StillWaits(AfterRead(s, poll.datagram), number, rest, budget - poll.elapsedMs)
  {
    assert ([poll] + rest)[1..] == rest;
    if poll.datagram.Some? {
      assert ([poll.datagram.value] + Datagrams(rest))[1..] == Datagrams(rest);
    } else {
      assert [] + Datagrams(rest) == Datagrams(rest);
    }
  }

  /** The first `n` polls are taken: somebody waits and time is left before each of them, and not after the last. */
  ghost predicate TakesUpTo(s: State, number: nat, polls: seq<Poll>, budget: int, n: nat) {
    && n <= |polls| && AllReady(polls[..n])
    && (forall i: nat :: i < n ==> AllReady(polls[..i]) && StillWaits(s, number, polls[..i], budget))
    && (n < |polls| && polls[n].Ready? ==> !StillWaits(s, number, polls[..n], budget))
  }

  lemma {:induction false} TakesUpToStep(s: State, number: nat, poll: Poll, rest: seq<Poll>, budget: int, n: nat)
    requires poll.Ready? && StillWaits(s, number, [], budget)
    requires TakesUpTo(AfterRead(s, poll.datagram), number, rest, budget - poll.elapsedMs, n)
    ensures TakesUpTo(s, number, [poll] + rest, budget, n + 1)
  {
    var polls := [poll] + rest;
    forall i: nat | i < n + 1
      ensures AllReady(polls[..i]) && StillWaits(s, number, polls[..i], budget)
    {
      if i > 0 {
        assert polls[..i] == [poll] + rest[..i - 1];
        StillWaitsStep(s, number, poll, rest[..i - 1], budget);
      } else {
        assert polls[..0] == [];
      }
    }
    assert polls[..n + 1] == [poll] + rest[..n];
    StillWaitsStep(s, number, poll, rest[..n], budget);
  }

  /** The collect loop takes polls exactly as long as they bring data, somebody waits, and time is left. */
  lemma {:induction false} CollectedTakesUpTo(s: State, number: nat, polls: seq<Poll>, budget: int)
    ensures TakesUpTo(s, number, polls, budget, Collected(s, number, polls, budget).2)
    decreases |polls|
  {
    assert polls[..0] == [] && Datagrams([]) == [];
    if budget > 0 && number in s.handlers && |polls| > 0 && polls[0].Ready? {
      CollectedTakesUpTo(AfterRead(s, polls[0].datagram), number, polls[1..], budget - polls[0].elapsedMs);
      assert polls == [polls[0]] + polls[1..];
      TakesUpToStep(s, number, polls[0], polls[1..], budget,
                    Collected(AfterRead(s, polls[0].datagram), number, polls[1..], budget - polls[0].elapsedMs).2);
    }
  }

  /** A request, which has 300 ms, reads exactly the polls up to its end. */
  lemma {:induction false} RequestTakesUpTo(s: State, number: nat, polls: seq<Poll>)
    ensures Waited(s, number, polls, []) <= polls
    ensures TakesUpTo(s.(handlers := s.handlers[number := AppendPacket], response := []), number, polls, 300,
                      |Waited(s, number, polls, [])|)
  {
    var installed := Installed(s.(response := []), number);
    CollectedTakesReady(installed, number, polls, MAXIMUM_WAIT_MILLISECONDS);
    CollectedTakesUpTo(installed, number, polls, MAXIMUM_WAIT_MILLISECONDS);
  }
}
