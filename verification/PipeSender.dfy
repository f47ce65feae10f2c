/**
 The sender thread of src/lib/frl_util_socket_pipe.cpp over all its connections: where
 a message is between frl_socket_pipe::send and send_after.  The network is arbitrary
 here: any number of bytes may be accepted, any bytes may arrive as an answer, and any
 connection may fail at any time.
 */
module PipeSender {
  import opened Basics
  import opened Wire
  import opened SocketPipe

  /** `queue` is pipe->send_queue, front first; a connection that has been freed is
      None.  `submitted` and `completed` are the calls of send by the user and of
      send_after. */
  datatype Sender = Sender(
    conns: seq<Option<Conn>>,
    queue: seq<Bytes>,
    submitted: multiset<Bytes>,
    completed: multiset<Bytes>)

  datatype Event =
    | Submit(m: Bytes)                                // frl_socket_pipe::send by the user
    | Connect(state: Conn)                           // lines 235-257
    | Writable(i: nat, sent: nat)                     // lines 267-363; 0 bytes: EOF
    | Readable(i: nat, bytes: Bytes, interrupt: bool) // lines 364-421; 0 bytes: EOF
    | Broken(i: nat, reconnected: bool)               // lines 422-451

  /** Lines 246-249, 404-407 and 438-441. */
  function Idle(c: Conn): Conn { c.Start(DISABLED, 0) }

  /** Lines 273-291: an idle connection takes the front of the queue, if any. */
  function Taken(s: Sender, i: nat, h: Bytes -> U32): (r: (Sender, bool))
    requires i < |s.conns| && s.conns[i].Some?
    ensures |r.0.conns| == |s.conns| && r.0.conns[i].Some?
  {
    var c := s.conns[i].value;
    if c.state != DISABLED then (s, true)
    else if s.queue == [] then (s, false)
    else (s.(queue := s.queue[1..], conns := s.conns[i := Some(Load(c, s.queue[0], h))]), true)
  }

  /** Lines 308-312 and alike: the message goes back to the queue, the connection is freed. */
  function Resend(s: Sender, i: nat): Sender
    requires i < |s.conns| && s.conns[i].Some?
  {
    s.(queue := s.queue + [s.conns[i].value.buf], conns := s.conns[i := None])
  }

  /** Which events can happen: the poll reports an open connection, for writing unless
      it waits for an answer, for reading if it does. */
  predicate Possible(s: Sender, e: Event)
  {
    match e
    case Submit(m) => |m| < 0x1_0000_0000
    case Connect(c) => c.Valid()
    case Writable(i, sent) =>
      && i < |s.conns| && s.conns[i].Some?
      && var c := s.conns[i].value;
         c.state != READ_HEADER_START && sent <= if c.state == DISABLED then HEADER else c.size - c.offset
    case Readable(i, bytes, _) =>
      && i < |s.conns| && s.conns[i].Some? && s.conns[i].value.state == READ_HEADER_START
      && s.conns[i].value.offset + |bytes| <= HEADER
    case Broken(i, _) => i < |s.conns| && s.conns[i].Some?
  }

  /** A connection between two events. */
  ghost predicate ConnOK(c: Conn, h: Bytes -> U32)
  {
    c.Valid() && (c.state == DISABLED || SenderOK(c, c.buf, h))
  }

  ghost predicate AllOK(conns: seq<Option<Conn>>, h: Bytes -> U32)
  {
    forall i | 0 <= i < |conns| && conns[i].Some? :: ConnOK(conns[i].value, h)
  }

  function Wrote(s: Sender, i: nat, sent: nat, h: Bytes -> U32): Sender
    requires i < |s.conns| && s.conns[i].Some?
    requires s.conns[i].value.Valid() && s.conns[i].value.word <= s.conns[i].value.dsize == |s.conns[i].value.buf|
  {
    if sent == 0 then Resend(s, i)
    else s.(conns := s.conns[i := Some(Sent(s.conns[i].value, sent, h))])
  }

  function Read(s: Sender, i: nat, bytes: Bytes, interrupt: bool): Sender
    requires i < |s.conns| && s.conns[i].Some?
    requires s.conns[i].value.Valid() && s.conns[i].value.offset + |bytes| <= HEADER
  {
    if bytes == [] then Resend(s, i)
    else
      match AckRead(s.conns[i].value, bytes)
      case Pending(c) => s.(conns := s.conns[i := Some(c)])
      case Matched(c) =>
        s.(completed := s.completed + multiset{c.buf}, conns := s.conns[i := if interrupt then None else Some(Idle(c))])
      case Mismatched(c) => Resend(s, i)
  }

  ghost function After(s: Sender, e: Event, h: Bytes -> U32): Sender
    requires AllOK(s.conns, h) && Possible(s, e)
  {
    match e
    case Submit(m) => s.(queue := s.queue + [m], submitted := s.submitted + multiset{m})
    case Connect(c) => s.(conns := s.conns + [Some(Idle(c))])
    case Writable(i, sent) =>
      assert ConnOK(s.conns[i].value, h);
      var t := Taken(s, i, h);
      if t.1 then Wrote(t.0, i, sent, h) else s
    case Readable(i, bytes, interrupt) =>
      assert ConnOK(s.conns[i].value, h);
      Read(s, i, bytes, interrupt)
    case Broken(i, reconnected) =>
      var c := s.conns[i].value;
      var s1 := if c.state != DISABLED then Resend(s, i) else s;
      s1.(conns := s.conns[i := if reconnected then Some(Idle(c)) else None])
  }

  // ------------------------------------------------------------- conservation

  /** The message a connection is responsible for. */
  function Carried(c: Option<Conn>): multiset<Bytes>
  {
    if c.Some? && c.value.state != DISABLED then multiset{c.value.buf} else multiset{}
  }

  function InFlight(conns: seq<Option<Conn>>): multiset<Bytes>
  {
    if conns == [] then multiset{} else InFlight(conns[..|conns| - 1]) + Carried(conns[|conns| - 1])
  }

  /** Every message the user has submitted is queued, or in flight on one connection,
      or completed; and no message is in two of these places, or twice in one. */
  ghost predicate Conserved(s: Sender)
  {
    s.submitted == multiset(s.queue) + InFlight(s.conns) + s.completed
  }

  ghost predicate SenderInv(s: Sender, h: Bytes -> U32)
  {
    AllOK(s.conns, h) && Conserved(s) && forall m | m in s.queue :: |m| < 0x1_0000_0000
  }

  lemma {:induction false} InFlightUpdate(conns: seq<Option<Conn>>, i: nat, c: Option<Conn>, m: Bytes)
    requires i < |conns|
    ensures InFlight(conns[i := c])[m] + Carried(conns[i])[m] == InFlight(conns)[m] + Carried(c)[m]
  {
    var n := |conns| - 1;
    var rest := conns[..n];
    assert InFlight(conns)[m] == InFlight(rest)[m] + Carried(conns[n])[m];
    if i == n {
      assert conns[i := c][..n] == rest;
    } else {
      assert conns[i := c][..n] == rest[i := c];
      InFlightUpdate(rest, i, c, m);
    }
  }

  lemma QueueFront(queue: seq<Bytes>)
    requires queue != []
    ensures multiset(queue) == multiset{queue[0]} + multiset(queue[1..])
  {
    assert queue == [queue[0]] + queue[1..];
  }

  /** One connection changes and takes `m` along, gives it up, or keeps what it has. */
  lemma ConnChanges(s: Sender, s': Sender, i: nat, c: Option<Conn>)
    requires Conserved(s) && i < |s.conns| && s'.conns == s.conns[i := c] && s'.submitted == s.submitted
    requires multiset(s'.queue) + Carried(c) + s'.completed == multiset(s.queue) + Carried(s.conns[i]) + s.completed
    ensures Conserved(s')
  {
    forall m ensures s'.submitted[m] == (multiset(s'.queue) + InFlight(s'.conns) + s'.completed)[m] {
      InFlightUpdate(s.conns, i, c, m);
      assert (multiset(s'.queue) + Carried(c) + s'.completed)[m]
          == (multiset(s.queue) + Carried(s.conns[i]) + s.completed)[m];
    }
  }

  lemma AllOKUpdate(conns: seq<Option<Conn>>, i: nat, c: Option<Conn>, h: Bytes -> U32)
    requires AllOK(conns, h) && i < |conns| && (c.Some? ==> ConnOK(c.value, h))
    ensures AllOK(conns[i := c], h)
  {
  }

  lemma ResendKeeps(s: Sender, i: nat, h: Bytes -> U32)
    requires SenderInv(s, h) && i < |s.conns| && s.conns[i].Some? && s.conns[i].value.state != DISABLED
    ensures SenderInv(Resend(s, i), h)
  {
    AllOKUpdate(s.conns, i, None, h);
    ConnChanges(s, Resend(s, i), i, None);
  }

  lemma TakenKeeps(s: Sender, i: nat, h: Bytes -> U32)
    requires SenderInv(s, h) && i < |s.conns| && s.conns[i].Some?
    ensures SenderInv(Taken(s, i, h).0, h)
    ensures Taken(s, i, h).1 ==> Taken(s, i, h).0.conns[i].value.state != DISABLED
  {
    var c := s.conns[i].value;
    if c.state == DISABLED && s.queue != [] {
      assert ConnOK(c, h);
      LoadOK(c, s.queue[0], h);
      QueueFront(s.queue);
      var c1 := Load(c, s.queue[0], h);
      AllOKUpdate(s.conns, i, Some(c1), h);
      ConnChanges(s, Taken(s, i, h).0, i, Some(c1));
    }
  }

  lemma WroteKeeps(s: Sender, i: nat, sent: nat, h: Bytes -> U32)
    requires SenderInv(s, h) && i < |s.conns| && s.conns[i].Some? && SenderOK(s.conns[i].value, s.conns[i].value.buf, h)
    requires Sending(s.conns[i].value) && sent <= s.conns[i].value.size - s.conns[i].value.offset
    ensures SenderInv(Wrote(s, i, sent, h), h)
  {
    var c := s.conns[i].value;
    if sent == 0 {
      ResendKeeps(s, i, h);
    } else {
      SentKeeps(c, c.buf, sent, h);
      var c1 := Sent(c, sent, h);
      AllOKUpdate(s.conns, i, Some(c1), h);
      ConnChanges(s, Wrote(s, i, sent, h), i, Some(c1));
    }
  }

  lemma ReadKeeps(s: Sender, i: nat, bytes: Bytes, interrupt: bool, h: Bytes -> U32)
    requires SenderInv(s, h) && i < |s.conns| && s.conns[i].Some? && SenderOK(s.conns[i].value, s.conns[i].value.buf, h)
    requires s.conns[i].value.state == READ_HEADER_START && s.conns[i].value.offset + |bytes| <= HEADER
    ensures SenderInv(Read(s, i, bytes, interrupt), h)
  {
    var c := s.conns[i].value;
    var r := AckRead(c, bytes);
    if bytes == [] || r.Mismatched? {
      ResendKeeps(s, i, h);
    } else {
      var c1 := if r.Pending? then Some(r.c) else if interrupt then None else Some(Idle(r.c));
      AllOKUpdate(s.conns, i, c1, h);
      ConnChanges(s, Read(s, i, bytes, interrupt), i, c1);
    }
  }

  lemma BrokenKeeps(s: Sender, i: nat, reconnected: bool, h: Bytes -> U32)
    requires SenderInv(s, h) && Possible(s, Broken(i, reconnected))
    ensures SenderInv(After(s, Broken(i, reconnected), h), h)
  {
    var c := s.conns[i].value;
    assert ConnOK(c, h);
    var c1 := if reconnected then Some(Idle(c)) else None;
    AllOKUpdate(s.conns, i, c1, h);
    ConnChanges(s, After(s, Broken(i, reconnected), h), i, c1);
  }

  lemma ConnectKeeps(s: Sender, c: Conn, h: Bytes -> U32)
    requires SenderInv(s, h) && c.Valid()
    ensures SenderInv(After(s, Connect(c), h), h)
  {
    var conns := s.conns + [Some(Idle(c))];
    assert conns[..|s.conns|] == s.conns;
  }

  lemma EventKeeps(s: Sender, e: Event, h: Bytes -> U32)
    requires SenderInv(s, h) && Possible(s, e)
    ensures SenderInv(After(s, e, h), h)
  {
    match e
    case Submit(m) =>
    case Connect(c) => ConnectKeeps(s, c, h);
    case Writable(i, sent) =>
      assert ConnOK(s.conns[i].value, h);
      TakenKeeps(s, i, h);
      var t := Taken(s, i, h);
      if t.1 {
        assert ConnOK(t.0.conns[i].value, h);
        WroteKeeps(t.0, i, sent, h);
      }
    case Readable(i, bytes, interrupt) =>
      assert ConnOK(s.conns[i].value, h);
      ReadKeeps(s, i, bytes, interrupt, h);
    case Broken(i, reconnected) => BrokenKeeps(s, i, reconnected, h);
  }

  // ------------------------------------------------------------------ all runs

  ghost predicate SenderRun(run: seq<Sender>, events: seq<Event>, h: Bytes -> U32)
  {
    && |run| == |events| + 1
    && run[0] == Sender([], [], multiset{}, multiset{})
    && forall i | 0 <= i < |events| :: StepBy(run[i], events[i], run[i + 1], h)
  }

  ghost predicate StepBy(s: Sender, e: Event, s': Sender, h: Bytes -> U32)
  {
    AllOK(s.conns, h) && Possible(s, e) && s' == After(s, e, h)
  }

  /** No message is ever lost or duplicated by the sender, whatever the network does. */
  lemma {:induction false} MessagesAreConserved(run: seq<Sender>, events: seq<Event>, i: nat, h: Bytes -> U32)
    requires SenderRun(run, events, h) && i < |run|
    ensures SenderInv(run[i], h)
    ensures run[i].submitted == multiset(run[i].queue) + InFlight(run[i].conns) + run[i].completed
  {
    if i > 0 {
      MessagesAreConserved(run, events, i - 1, h);
      assert StepBy(run[i - 1], events[i - 1], run[i - 1 + 1], h);
      EventKeeps(run[i - 1], events[i - 1], h);
    }
  }

  /** The sender never gets into a state whose next event the code could not handle:
      after any run, every event that can happen has a successor state. */
  lemma EveryEventIsHandled(run: seq<Sender>, events: seq<Event>, e: Event, h: Bytes -> U32)
    requires SenderRun(run, events, h) && Possible(run[|events|], e)
    ensures AllOK(run[|events|].conns, h)
    ensures SenderRun(run + [After(run[|events|], e, h)], events + [e], h)
  {
    MessagesAreConserved(run, events, |events|, h);
    var s := run[|events|];
    var run', events' := run + [After(s, e, h)], events + [e];
    forall i | 0 <= i < |events'| ensures StepBy(run'[i], events'[i], run'[i + 1], h) {
      if i < |events| {
        assert StepBy(run[i], events[i], run[i + 1], h);
      }
    }
  }

  /** A message leaves the care of the sender only at a hash match: in every other
      event nothing is completed, and the message of a connection that fails is again
      at the end of the queue. */
  lemma CompletionNeedsMatch(run: seq<Sender>, events: seq<Event>, i: nat, h: Bytes -> U32)
    requires SenderRun(run, events, h) && i < |events|
    requires run[i + 1].completed != run[i].completed
    ensures events[i].Readable? && run[i].conns[events[i].i].Some?
    ensures var c := run[i].conns[events[i].i].value;
            && c.Valid() && c.offset + |events[i].bytes| == HEADER
            && HashIn(c.header[..c.offset] + events[i].bytes) == h(c.buf)
            && run[i + 1].completed == run[i].completed + multiset{c.buf}
  {
    MessagesAreConserved(run, events, i, h);
    assert StepBy(run[i], events[i], run[i + 1], h);
    if events[i].Readable? {
      var c := run[i].conns[events[i].i].value;
      assert ConnOK(c, h);
      SpliceParts(c.header, c.offset, events[i].bytes);
      var header := Splice(c.header, c.offset, events[i].bytes);
      if c.offset + |events[i].bytes| == HEADER {
        assert header == header[..HEADER] == c.header[..c.offset] + events[i].bytes;
      }
    }
  }

  /** The events that end the transfer a connection is busy with: end of file while
      writing or waiting, an answer that does not match, or an error on the socket. */
  predicate Fails(s: Sender, e: Event)
    requires Possible(s, e) && (e.Readable? ==> s.conns[e.i].value.Valid())
  {
    match e
    case Submit(_) => false
    case Connect(_) => false
    case Writable(i, sent) => sent == 0 && s.conns[i].value.state != DISABLED
    case Readable(i, bytes, _) => bytes == [] || AckRead(s.conns[i].value, bytes).Mismatched?
    case Broken(i, _) => s.conns[i].value.state != DISABLED
  }

  /** Every failure puts the message back at the end of the queue, and the connection
      no longer carries it. */
  lemma FailureRequeues(s: Sender, e: Event, h: Bytes -> U32)
    requires SenderInv(s, h) && Possible(s, e) && (e.Readable? ==> s.conns[e.i].value.Valid()) && Fails(s, e)
    ensures After(s, e, h).queue == s.queue + [s.conns[e.i].value.buf]
    ensures After(s, e, h).completed == s.completed
    ensures e.i < |After(s, e, h).conns| && Carried(After(s, e, h).conns[e.i]) == multiset{}
  {
    if !e.Broken? {
      FailureResends(s, e, h);
    }
  }

  lemma FailureResends(s: Sender, e: Event, h: Bytes -> U32)
    requires SenderInv(s, h) && Possible(s, e) && (e.Readable? ==> s.conns[e.i].value.Valid())
    requires Fails(s, e) && !e.Broken?
    ensures After(s, e, h) == Resend(s, e.i)
  {
    if e.Writable? {
      assert Taken(s, e.i, h) == (s, true);
    }
  }

  /** A match ends the transfer: the connection is free for the next message, or closed if
      send_after asks for it; the queue and the other connections stay as they are. */
  lemma MatchEnds(s: Sender, i: nat, bytes: Bytes, interrupt: bool, h: Bytes -> U32)
    requires SenderInv(s, h) && Possible(s, Readable(i, bytes, interrupt)) && bytes != []
    requires s.conns[i].value.Valid() && AckRead(s.conns[i].value, bytes).Matched?
    ensures var s' := After(s, Readable(i, bytes, interrupt), h);
            && s'.completed == s.completed + multiset{s.conns[i].value.buf}
            && s'.queue == s.queue && |s'.conns| == |s.conns|
            && (s'.conns[i].Some? <==> !interrupt)
            && (s'.conns[i].Some? ==> s'.conns[i].value.state == DISABLED)
            && forall j | 0 <= j < |s.conns| && j != i :: s'.conns[j] == s.conns[j]
  {
  }

  /** Nothing happens to any connection but `i`. */
  ghost predicate OnlyAt(s: Sender, s': Sender, i: nat)
  {
    |s'.conns| == |s.conns| && forall j | 0 <= j < |s.conns| && j != i :: s'.conns[j] == s.conns[j]
  }

  /** A connection fails on writing exactly if the socket takes nothing of what there is to
      send: a message on its way or one in the queue. */
  lemma WritableAfter(s: Sender, i: nat, sent: nat, h: Bytes -> U32)
    requires SenderInv(s, h) && Possible(s, Writable(i, sent))
    ensures var s' := After(s, Writable(i, sent), h);
            && OnlyAt(s, s', i)
            && (s'.conns[i] == None <==> sent == 0 && (s.conns[i].value.state != DISABLED || s.queue != []))
  {
    hide Sent, Load;
    assert ConnOK(s.conns[i].value, h);
  }

  /** A connection is closed on reading exactly if it fails, or if send_after, called for an
      answer that matched, asks for it. */
  lemma ReadableAfter(s: Sender, e: Event, h: Bytes -> U32)
    requires SenderInv(s, h) && e.Readable? && Possible(s, e) && s.conns[e.i].value.Valid()
    ensures var s' := After(s, e, h);
            && OnlyAt(s, s', e.i)
            && (s'.conns[e.i] == None <==>
                  Fails(s, e) || (AckRead(s.conns[e.i].value, e.bytes).Matched? && e.interrupt))
  {
    hide AckRead;
  }

  /** A new connection, and one that is connected anew after an error, are ready for a
      message. */
  lemma ReadyAfter(s: Sender, e: Event, h: Bytes -> U32)
    requires SenderInv(s, h) && Possible(s, e)
    ensures e.Connect? ==>
              var conns := After(s, e, h).conns;
              |conns| == |s.conns| + 1 && conns[..|s.conns|] == s.conns && Ready(conns[|s.conns|])
    ensures e.Broken? ==>
              && OnlyAt(s, After(s, e, h), e.i)
              && if e.reconnected then Ready(After(s, e, h).conns[e.i]) else After(s, e, h).conns[e.i] == None
  {
  }

  predicate Ready(c: Option<Conn>) { c.Some? && c.value.state == DISABLED && c.value.offset == c.value.size == 0 }

  // ---------------------------------------------------------- order of sending

  /** The message that an idle connection takes when it becomes writable while there is
      one: what it carries then or, if it fails at once, what is put back. */
  function TakenBy(s: Sender, e: Event, s': Sender): seq<Bytes>
  {
    if !e.Writable? || !Possible(s, e) || s.conns[e.i].value.state != DISABLED || s.queue == [] then []
    else if e.i < |s'.conns| && s'.conns[e.i].Some? then [s'.conns[e.i].value.buf]
    else if s'.queue != [] then [s'.queue[|s'.queue| - 1]]
    else []
  }

  /** What an event puts into the queue: what the user submits, or the message of a
      connection that fails. */
  function Enters(s: Sender, e: Event, s': Sender): seq<Bytes>
  {
    if e.Submit? then [e.m]
    else if !Possible(s, e) || (e.Readable? && !s.conns[e.i].value.Valid()) then []
    else if Fails(s, e) then [s.conns[e.i].value.buf]
    else if e.Writable? && e.sent == 0 then TakenBy(s, e, s')
    else []
  }

  /** All messages that have ever been put into the queue, and all that connections have
      ever taken, each in order. */
  datatype Ledger = Ledger(entered: seq<Bytes>, taken: seq<Bytes>)

  ghost function LedgerAt(run: seq<Sender>, events: seq<Event>, k: nat): Ledger
    requires k < |run| == |events| + 1
  {
    if k == 0 then Ledger([], [])
    else
      var l := LedgerAt(run, events, k - 1);
      Ledger(l.entered + Enters(run[k - 1], events[k - 1], run[k]),
             l.taken + TakenBy(run[k - 1], events[k - 1], run[k]))
  }

  /** What the user has submitted in the first `k` events. */
  function Submissions(events: seq<Event>, k: nat): multiset<Bytes>
    requires k <= |events|
  {
    if k == 0 then multiset{}
    else if events[k - 1].Submit? then Submissions(events, k - 1) + multiset{events[k - 1].m}
    else Submissions(events, k - 1)
  }

  lemma QueueMoves(s: Sender, e: Event, h: Bytes -> U32)
    requires SenderInv(s, h) && Possible(s, e)
    ensures var s' := After(s, e, h);
            && s.queue + Enters(s, e, s') == TakenBy(s, e, s') + s'.queue
            && s'.submitted == s.submitted + (if e.Submit? then multiset{e.m} else multiset{})
  {
    match e
    case Submit(m) =>
    case Connect(c) =>
    case Writable(i, sent) =>
      assert ConnOK(s.conns[i].value, h);
      if s.conns[i].value.state == DISABLED {
        TakingMoves(s, i, sent, h);
      } else if sent == 0 {
        FailureRequeues(s, e, h);
      }
    case Readable(i, bytes, interrupt) =>
      assert ConnOK(s.conns[i].value, h);
      if Fails(s, e) { FailureRequeues(s, e, h); }
    case Broken(i, reconnected) =>
      if Fails(s, e) { FailureRequeues(s, e, h); }
  }

  lemma TakingMoves(s: Sender, i: nat, sent: nat, h: Bytes -> U32)
    requires SenderInv(s, h) && Possible(s, Writable(i, sent)) && s.conns[i].value.state == DISABLED
    ensures var e := Writable(i, sent);
            var s' := After(s, e, h);
            s.queue + Enters(s, e, s') == TakenBy(s, e, s') + s'.queue && s'.submitted == s.submitted
  {
    var e := Writable(i, sent);
    var s' := After(s, e, h);
    assert ConnOK(s.conns[i].value, h);
    if s.queue != [] {
      assert s.queue == [s.queue[0]] + s.queue[1..];
      if sent == 0 {
        assert s'.queue == s.queue[1..] + [s.queue[0]];
      } else {
        SentBuf(Load(s.conns[i].value, s.queue[0], h), sent, h);
      }
    }
  }

  lemma SentBuf(c: Conn, k: nat, h: Bytes -> U32)
    requires c.Valid() && c.word <= c.dsize == |c.buf|
    ensures Sent(c, k, h).buf == c.buf
  {
  }

  /** Messages are taken for sending in the order in which they were put into the queue, a
      failed one anew: after every run, what has been taken and what is queued are all
      that has been put in, in order. */
  lemma {:induction false} SentInOrder(run: seq<Sender>, events: seq<Event>, k: nat, h: Bytes -> U32)
    requires SenderRun(run, events, h) && k < |run| == |events| + 1
    ensures LedgerAt(run, events, k).entered == LedgerAt(run, events, k).taken + run[k].queue
  {
    hide SenderRun, LedgerAt, Enters, TakenBy;
    if k == 0 {
      LedgerStarts(run, events, h);
    } else {
      SentInOrder(run, events, k - 1, h);
      RunMoves(run, events, k, h);
      LedgerMoves(run, events, k);
    }
  }

  lemma LedgerStarts(run: seq<Sender>, events: seq<Event>, h: Bytes -> U32)
    requires SenderRun(run, events, h) && |run| == |events| + 1
    ensures LedgerAt(run, events, 0) == Ledger([], []) && run[0].queue == [] && run[0].submitted == multiset{}
  {
  }

  lemma LedgerMoves(run: seq<Sender>, events: seq<Event>, k: nat)
    requires 0 < k < |run| == |events| + 1
    requires LedgerAt(run, events, k - 1).entered == LedgerAt(run, events, k - 1).taken + run[k - 1].queue
    requires run[k - 1].queue + Enters(run[k - 1], events[k - 1], run[k])
          == TakenBy(run[k - 1], events[k - 1], run[k]) + run[k].queue
    ensures LedgerAt(run, events, k).entered == LedgerAt(run, events, k).taken + run[k].queue
  {
    hide Enters, TakenBy;
    var l := LedgerAt(run, events, k - 1);
    var more, out := Enters(run[k - 1], events[k - 1], run[k]), TakenBy(run[k - 1], events[k - 1], run[k]);
    Appended(l.entered, l.taken, run[k - 1].queue, more, out, run[k].queue);
    assert LedgerAt(run, events, k) == Ledger(l.entered + more, l.taken + out);
  }

  /** What counts as submitted is what the user has submitted. */
  lemma {:induction false} SubmittedByUser(run: seq<Sender>, events: seq<Event>, k: nat, h: Bytes -> U32)
    requires SenderRun(run, events, h) && k < |run| == |events| + 1
    ensures run[k].submitted == Submissions(events, k)
  {
    hide SenderRun, Enters, TakenBy;
    if k == 0 {
      LedgerStarts(run, events, h);
    } else {
      SubmittedByUser(run, events, k - 1, h);
      RunMoves(run, events, k, h);
    }
  }

  lemma RunMoves(run: seq<Sender>, events: seq<Event>, k: nat, h: Bytes -> U32)
    requires SenderRun(run, events, h) && 0 < k < |run|
    ensures run[k - 1].queue + Enters(run[k - 1], events[k - 1], run[k])
         == TakenBy(run[k - 1], events[k - 1], run[k]) + run[k].queue
    ensures run[k].submitted
         == run[k - 1].submitted + (if events[k - 1].Submit? then multiset{events[k - 1].m} else multiset{})
  {
    MessagesAreConserved(run, events, k - 1, h);
    assert StepBy(run[k - 1], events[k - 1], run[k - 1 + 1], h);
    hide Enters, TakenBy, SenderInv, After, Possible;
    QueueMoves(run[k - 1], events[k - 1], h);
  }

  lemma Appended(entered: seq<Bytes>, taken: seq<Bytes>, queue: seq<Bytes>, more: seq<Bytes>, out: seq<Bytes>,
                 queue': seq<Bytes>)
    requires entered == taken + queue && queue + more == out + queue'
    ensures entered + more == (taken + out) + queue'
  {
    assert taken + queue + more == taken + (queue + more);
    assert taken + (out + queue') == (taken + out) + queue';
  }
}
