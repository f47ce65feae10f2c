/**
 The sender and receiver of src/lib/frl_util_socket_pipe.cpp as event-driven state
 machines on one connection each, on values.  The hash function is a parameter: all
 that matters is that both sides compute the same function of the bytes, wherever
 these lie in memory (module Lookup3).

 PipeState.dfy proves that the code that updates a frl_pipe_state_t in place computes
 these functions.
 */
module SocketPipe {
  import opened Basics
  import opened Wire

  const DISABLED := 0
  const READ_HEADER_START := 2
  const READ_HEADER_COMPLETE := 3
  const SEND_HEADER_START := 4
  const SEND_HEADER_COMPLETE := 5
  const READ_BLOCK_START := 6
  const READ_BLOCK_COMPLETE := 7
  const SEND_BLOCK_START := 8
  const SEND_BLOCK_COMPLETE := 9

  /** frl_pipe_state_t.  `word` is the storage shared by data.offset (all of it) and
      data.hash (its low 32 bits); `buf` is the memory data.buf points to. */
  datatype Conn = Conn(
    state: nat,
    header: Bytes,
    buffer: Bytes,
    buf: Bytes,
    word: nat,
    dsize: nat,
    offset: nat,
    size: nat)
  {
    predicate Valid() { |header| == HEADER && |buffer| == PACKAGE }
    function HashWord(): nat { word % 0x1_0000_0000 }
    function WithHash(hash: U32): Conn { this.(word := word - HashWord() + hash) }
    function Start(state: nat, size: nat): Conn { this.(state := state, offset := 0, size := size) }
  }

  /** PIPE_STATE_TO_COMPLETE */
  function Complete(state: nat): nat { if state % 2 == 0 then state + 1 else state }

  function Splice(s: Bytes, at: nat, b: Bytes): (r: Bytes)
    requires at + |b| <= |s|
    ensures |r| == |s|
  {
    s[..at] + b + s[at + |b|..]
  }

  // ------------------------------------------------------------------ sender

  /** Lines 282-291: a message is taken from the queue. */
  function Load(c: Conn, m: Bytes, h: Bytes -> U32): (r: Conn)
    ensures r.Valid() <== c.Valid()
  {
    c.(header := Header(|m| % 0x1_0000_0000, h(m)), buf := m, word := 0, dsize := |m|)
     .Start(SEND_HEADER_START, HEADER)
  }

  /** Lines 319-329 and 336-346: the next block is laid out in the buffer. */
  function NextBlock(c: Conn, h: Bytes -> U32): (r: Conn)
    requires c.Valid() && c.word <= c.dsize == |c.buf|
    ensures r.Valid()
  {
    var n := BlockLen(c.dsize, c.word);
    var payload := c.buf[c.word..c.word + n];
    c.(buffer := Splice(c.buffer, 0, Header(n, h(payload)) + payload), word := c.word + n)
     .Start(SEND_BLOCK_START, n + HEADER)
  }

  /** What the connection sends from: the header or the block buffer. */
  function Source(c: Conn): Bytes
  {
    if c.state == SEND_BLOCK_START then c.buffer else c.header
  }

  /** Lines 296-363: `k` bytes have been accepted by the socket. */
  function Sent(c: Conn, k: nat, h: Bytes -> U32): (r: Conn)
    requires c.Valid() && c.word <= c.dsize == |c.buf|
    ensures r.Valid()
  {
    var c1 := c.(offset := c.offset + k);
    if c1.offset < c1.size then c1
    else
      var c2 := c1.(offset := c1.size, state := Complete(c.state));
      if c2.state == SEND_HEADER_COMPLETE then NextBlock(c2, h)
      else if c2.state == SEND_BLOCK_COMPLETE then
        if c2.word < c2.dsize then NextBlock(c2, h)
        else c2.WithHash(HashIn(c2.header)).Start(READ_HEADER_START, HEADER)
      else c2
  }

  datatype AckResult = Pending(c: Conn) | Matched(c: Conn) | Mismatched(c: Conn)

  /** Lines 366-393: bytes of the answer have arrived. */
  function AckRead(c: Conn, b: Bytes): (r: AckResult)
    requires c.Valid() && c.offset + |b| <= HEADER
    ensures r.c.Valid()
  {
    var c1 := c.(header := Splice(c.header, c.offset, b), offset := c.offset + |b|);
    if c1.offset < c1.size then Pending(c1)
    else
      var c2 := c1.(offset := c1.size, state := Complete(c.state));
      if c2.state != READ_HEADER_COMPLETE then Pending(c2)
      else if c2.HashWord() == HashIn(c2.header) then Matched(c2)
      else Mismatched(c2)
  }

  // ---------------------------------------------------------------- receiver

  /** Answers of the user's callbacks during one event; `mem` is the buffer that
      recv_before provides. */
  datatype Callbacks = Callbacks(before: bool, mem: Bytes, after: bool)

  datatype Reading = Going(c: Conn) | Closed | Answering(c: Conn)

  /** Lines 50, 99-102, 154-157: how many bytes the next block takes on the wire. */
  function WireSize(left: nat): nat
  {
    if left < BLOCK then left + HEADER else PACKAGE
  }

  /** What the connection reads into. */
  function Fill(c: Conn, b: Bytes): (r: Conn)
    requires c.Valid() && c.offset + |b| <= if c.state == READ_BLOCK_START then PACKAGE else HEADER
    ensures r.Valid()
  {
    if c.state == READ_BLOCK_START then c.(buffer := Splice(c.buffer, c.offset, b), offset := c.offset + |b|)
    else c.(header := Splice(c.header, c.offset, b), offset := c.offset + |b|)
  }

  /** The copy of line 108 stays inside the block buffer and the data buffer. */
  predicate CopyFits(c: Conn)
    requires c.Valid()
  {
    SizeIn(c.buffer) <= BLOCK && c.word + SizeIn(c.buffer) <= c.dsize == |c.buf| && HEADER <= c.size <= PACKAGE
  }

  /** Lines 107-158: a block is complete. */
  function BlockDone(c: Conn, h: Bytes -> U32, cb: Callbacks): (r: Reading)
    requires c.Valid() && CopyFits(c)
    ensures !r.Closed? ==> r.c.Valid()
  {
    var n := SizeIn(c.buffer);
    var c1 := c.(buf := Splice(c.buf, c.word, c.buffer[HEADER..HEADER + n]));
    if h(c.buffer[HEADER..c.size]) != HashIn(c.buffer) then Closed
    else
      var c2 := c1.(word := c1.word + n);
      if c2.word >= c2.dsize then
        if h(c2.buf) != HashIn(c2.header) || !cb.after then Closed
        else Answering(c2.Start(SEND_HEADER_START, HEADER))
      else Going(c2.Start(READ_BLOCK_START, WireSize(c2.dsize - c2.word)))
  }

  /** Lines 59-162: bytes have arrived. */
  function Received(c: Conn, b: Bytes, h: Bytes -> U32, cb: Callbacks): (r: Reading)
    requires c.Valid() && c.offset + |b| <= if c.state == READ_BLOCK_START then PACKAGE else HEADER
    requires Complete(c.state) == READ_BLOCK_COMPLETE && c.offset + |b| >= c.size ==>
               CopyFits(Fill(c, b).(offset := c.size))
    ensures !r.Closed? ==> r.c.Valid()
  {
    var c1 := Fill(c, b);
    if c1.offset < c1.size then Going(c1)
    else
      var c2 := c1.(offset := c1.size, state := Complete(c.state));
      if c2.state == READ_HEADER_COMPLETE then
        if !cb.before then Closed
        else
          var n := SizeIn(c2.header);
          Going(c2.(word := 0, dsize := n, buf := cb.mem).Start(READ_BLOCK_START, WireSize(n)))
      else if c2.state == READ_BLOCK_COMPLETE then BlockDone(c2, h, cb)
      else Going(c2)
  }

  /** Lines 166-197: `k` bytes of the answer have been accepted by the socket. */
  function Answered(c: Conn, k: nat): Conn
  {
    var c1 := c.(offset := c.offset + k);
    if c1.offset < c1.size then c1
    else if Complete(c.state) == SEND_HEADER_COMPLETE then c1.Start(DISABLED, 0)
    else c1.(offset := c1.size, state := Complete(c.state))
  }

  // -------------------------------------------------------- one connection

  /** A connection: both ends, the bytes in flight each way, and what has happened.
      `msg` is the first message started on it, `blocks` counts completed blocks,
      `accepted` is what recv_after took, `acks` counts calls of send_after. */
  datatype Link = Link(
    snd: Conn,
    fwd: Bytes,
    rcv: Option<Conn>,  // None: the receiver has closed the connection
    back: Bytes,
    msg: Option<Bytes>,
    blocks: nat,
    accepted: Option<Bytes>,
    acks: seq<Bytes>)

  /** A fresh connection (lines 47-50 and 246-249). */
  ghost predicate LinkInit(l: Link)
  {
    && l.snd.Valid() && l.snd.state == DISABLED
    && l.rcv.Some? && l.rcv.value.Valid() && l.rcv.value.state == READ_HEADER_START
    && l.rcv.value.offset == 0 && l.rcv.value.size == HEADER
    && l.fwd == [] && l.back == [] && l.msg == None && l.blocks == 0 && l.accepted == None && l.acks == []
  }

  ghost predicate StartStep(l: Link, l': Link, m: Bytes, h: Bytes -> U32)
  {
    && l.snd.state == DISABLED && |m| < 0x1_0000_0000
    && l' == l.(snd := Load(l.snd, m, h), msg := if l.acks == [] then Some(m) else l.msg)
  }

  predicate Sending(c: Conn) { c.state == SEND_HEADER_START || c.state == SEND_BLOCK_START }
  predicate ReadingIn(c: Conn) { c.state == READ_HEADER_START || c.state == READ_BLOCK_START }

  ghost predicate SendStep(l: Link, l': Link, k: nat, h: Bytes -> U32)
  {
    && Sending(l.snd) && l.snd.Valid() && l.snd.word <= l.snd.dsize == |l.snd.buf|
    && 1 <= k <= l.snd.size - l.snd.offset && l.snd.offset + k <= |Source(l.snd)|
    && l' == l.(snd := Sent(l.snd, k, h), fwd := l.fwd + Source(l.snd)[l.snd.offset..l.snd.offset + k])
  }

  /** The buffer that recv_before provides has the announced size, and the callback
      leaves that size alone. */
  ghost predicate Provides(c: Conn, k: nat, cb: Callbacks, b: Bytes)
    requires c.Valid() && c.offset + |b| <= HEADER
  {
    c.offset + k == HEADER ==> |cb.mem| == SizeIn(Splice(c.header, c.offset, b))
  }

  ghost predicate ReceiveStep(l: Link, l': Link, k: nat, h: Bytes -> U32, cb: Callbacks)
  {
    && l.rcv.Some? && ReadingIn(l.rcv.value) && l.rcv.value.Valid()
    && var c := l.rcv.value;
       && 1 <= k <= |l.fwd| && k <= c.size - c.offset
       && c.size <= (if c.state == READ_BLOCK_START then PACKAGE else HEADER)
       && (c.state == READ_HEADER_START ==> Provides(c, k, cb, l.fwd[..k]))
       && (c.state == READ_BLOCK_START && c.offset + k >= c.size ==> CopyFits(Fill(c, l.fwd[..k]).(offset := c.size)))
       && l' == AfterReading(l, k, Received(c, l.fwd[..k], h, cb))
  }

  function AfterReading(l: Link, k: nat, r: Reading): Link
    requires l.rcv.Some? && k <= |l.fwd|
  {
    var l1 := l.(fwd := l.fwd[k..],
                 blocks := if l.rcv.value.state == READ_BLOCK_START && l.rcv.value.offset + k >= l.rcv.value.size
                           then l.blocks + 1 else l.blocks);
    match r
    case Going(c) => l1.(rcv := Some(c))
    case Closed => l1.(rcv := None)
    case Answering(c) => l1.(rcv := Some(c), accepted := Some(c.buf))
  }

  ghost predicate AnswerStep(l: Link, l': Link, k: nat)
  {
    && l.rcv.Some? && l.rcv.value.state == SEND_HEADER_START
    && var c := l.rcv.value;
       && 1 <= k <= c.size - c.offset && c.offset + k <= |c.header|
       && l' == l.(rcv := Some(Answered(c, k)), back := l.back + c.header[c.offset..c.offset + k])
  }

  ghost predicate AckStep(l: Link, l': Link, k: nat)
  {
    && l.snd.state == READ_HEADER_START && l.snd.Valid()
    && 1 <= k <= |l.back| && k <= l.snd.size - l.snd.offset && l.snd.offset + k <= HEADER
    && var l1 := l.(back := l.back[k..]);
       match AckRead(l.snd, l.back[..k])
       case Pending(c) => l' == l1.(snd := c)
       case Matched(c) => l' == l1.(snd := c.Start(DISABLED, 0), acks := l.acks + [c.buf])
       case Mismatched(c) => l' == l1.(snd := c.Start(DISABLED, 0))
  }

  /** A receiver that is done is polled for input again: it reads nothing. */
  ghost predicate IdleStep(l: Link, l': Link)
  {
    && l.rcv.Some? && (l.rcv.value.state == DISABLED || l.rcv.value.state == Complete(DISABLED))
    && l' == l.(rcv := Some(l.rcv.value.(state := Complete(l.rcv.value.state))))
  }

  /** The receiver's end fails (lines 69-77, 174-181, 201-209).  A failure at the
      sender's end is the end of the run. */
  ghost predicate FailStep(l: Link, l': Link)
  {
    l.rcv.Some? && l' == l.(rcv := None)
  }

  ghost predicate LinkStep(l: Link, l': Link, h: Bytes -> U32)
  {
    || (exists m :: StartStep(l, l', m, h))
    || (exists k :: SendStep(l, l', k, h))
    || (exists k, cb :: ReceiveStep(l, l', k, h, cb))
    || (exists k :: AnswerStep(l, l', k))
    || (exists k :: AckStep(l, l', k))
    || IdleStep(l, l')
    || FailStep(l, l')
  }

  ghost predicate Execution(run: seq<Link>, h: Bytes -> U32)
  {
    && |run| > 0 && LinkInit(run[0])
    && forall i | 0 <= i < |run| - 1 :: LinkStep(run[i], run[i + 1], h)
  }

  // ------------------------------------------------------------- the invariant

  /** What the sender has still to put on the wire for its current message. */
  function Unsent(c: Conn, h: Bytes -> U32): Bytes
    requires c.Valid()
  {
    if c.state == SEND_HEADER_START && c.offset <= HEADER then
      c.header[c.offset..] + FromBlock(c.buf, 0, h)
    else if c.state == SEND_BLOCK_START && c.offset <= c.size <= PACKAGE && c.word <= |c.buf| then
      c.buffer[c.offset..c.size] + Blocks(c.buf, c.word, h)
    else []
  }

  /** The sender at work on `m`. */
  ghost predicate SenderOK(c: Conn, m: Bytes, h: Bytes -> U32)
  {
    && c.Valid() && c.buf == m && c.dsize == |m| < 0x1_0000_0000
    && if c.state == SEND_HEADER_START then
         c.header == Header(|m|, h(m)) && c.word == 0 && c.size == HEADER && c.offset < HEADER
       else if c.state == SEND_BLOCK_START then
         && c.header == Header(|m|, h(m)) && c.word <= |m|
         && HEADER <= c.size <= PACKAGE && c.offset < c.size
       else
         c.state == READ_HEADER_START && c.size == HEADER && c.offset < HEADER && c.HashWord() == h(m)
  }

  /** The receiver has part of the header of `m`; `rest` is what it has not read yet. */
  ghost predicate InHeader(c: Conn, m: Bytes, rest: Bytes, h: Bytes -> U32)
  {
    && c.Valid() && |m| < 0x1_0000_0000
    && c.state == READ_HEADER_START && c.size == HEADER && c.offset < HEADER
    && c.header[..c.offset] + rest == Stream(m, h)
  }

  /** The receiver has `blocks` blocks of `m` and a part of the next. */
  ghost predicate InBlock(c: Conn, m: Bytes, rest: Bytes, blocks: nat, h: Bytes -> U32)
  {
    && c.Valid() && |m| < 0x1_0000_0000
    && c.state == READ_BLOCK_START
    && c.header == Header(|m|, h(m)) && c.dsize == |m| == |c.buf|
    && c.word == StartOf(blocks) && (c.word < |m| || (c.word == 0 && |m| == 0))
    && c.buf[..c.word] == m[..c.word]
    && c.size == HEADER + BlockLen(|m|, c.word) && c.offset < c.size
    && c.buffer[..c.offset] + rest == FromBlock(m, c.word, h)
  }

  ghost predicate ReceiverOK(c: Conn, m: Bytes, rest: Bytes, blocks: nat, h: Bytes -> U32)
  {
    (blocks == 0 && InHeader(c, m, rest, h)) || InBlock(c, m, rest, blocks, h)
  }

  /** The part of the answer that has left the receiver. */
  function Answer(snd: Conn, back: Bytes): Bytes
    requires snd.Valid() && snd.offset <= HEADER
  {
    snd.header[..snd.offset] + back
  }

  predicate Resting(c: Conn) { c.state == DISABLED || c.state == Complete(DISABLED) }

  /** No part of an answer exists yet. */
  ghost predicate Silent(l: Link)
  {
    l.accepted == None && l.back == [] && (l.snd.state == READ_HEADER_START ==> l.snd.offset == 0)
  }

  /** The receiver has accepted `m` and answers with its header. */
  ghost predicate AnswerOK(l: Link, m: Bytes, h: Bytes -> U32)
  {
    && l.snd.Valid() && l.snd.state == READ_HEADER_START && l.snd.offset <= HEADER && l.fwd == []
    && |m| < 0x1_0000_0000
    && l.accepted == Some(m) && Enough(|m|, l.blocks)
    && match l.rcv
       case None => Answer(l.snd, l.back) <= Header(|m|, h(m))
       case Some(c) =>
         && c.Valid()
         && if Resting(c) then Answer(l.snd, l.back) == Header(|m|, h(m))
            else && c.state == SEND_HEADER_START && c.size == HEADER && c.offset < HEADER
                 && Answer(l.snd, l.back) + c.header[c.offset..] == Header(|m|, h(m))
  }

  /** The first message is in transfer. */
  ghost predicate TransferOK(l: Link, m: Bytes, h: Bytes -> U32)
  {
    && SenderOK(l.snd, m, h) && l.acks == []
    && if l.rcv.Some? && ReadingIn(l.rcv.value) then
         Silent(l) && ReceiverOK(l.rcv.value, m, l.fwd + Unsent(l.snd, h), l.blocks, h)
       else (l.rcv == None && Silent(l)) || AnswerOK(l, m, h)
  }

  /** The first message has been acknowledged; another may be under way, in vain. */
  ghost predicate AfterOK(l: Link, m: Bytes, h: Bytes -> U32)
  {
    && l.acks == [m] && l.accepted == Some(m) && Enough(|m|, l.blocks) && l.back == []
    && (l.rcv.Some? ==> Resting(l.rcv.value)) && l.snd.Valid()
    && (l.snd.state == DISABLED
        || (SenderOK(l.snd, l.snd.buf, h) && (l.snd.state == READ_HEADER_START ==> l.snd.offset == 0)))
  }

  /** Nothing has been sent yet. */
  ghost predicate FreshOK(l: Link)
  {
    && l.snd.Valid() && l.snd.state == DISABLED && l.acks == [] && l.accepted == None && l.blocks == 0
    && l.fwd == [] && l.back == []
    && (l.rcv.Some? ==> l.rcv.value.Valid() && l.rcv.value.state == READ_HEADER_START
                        && l.rcv.value.offset == 0 && l.rcv.value.size == HEADER)
  }

  ghost predicate LinkInv(l: Link, h: Bytes -> U32)
  {
    match l.msg
    case None => FreshOK(l)
    case Some(m) => TransferOK(l, m, h) || AfterOK(l, m, h)
  }

  // ------------------------------------------------------------------ sender

  lemma SplitEq(a: Bytes, b: Bytes, c: Bytes, d: Bytes)
    requires a + b == c + d && |a| == |c|
    ensures a == c && b == d
  {
    assert a == (a + b)[..|a|] == (c + d)[..|c|] == c;
    assert b == (a + b)[|a|..] == (c + d)[|c|..] == d;
  }

  lemma SpliceParts(s: Bytes, at: nat, b: Bytes)
    requires at + |b| <= |s|
    ensures Splice(s, at, b)[..at] == s[..at] && Splice(s, at, b)[at..at + |b|] == b
    ensures Splice(s, at, b)[..at + |b|] == s[..at] + b && Splice(s, at, b)[at + |b|..] == s[at + |b|..]
  {
  }

  /** A block that has just been laid out is exactly the block due next. */
  lemma NextBlockOK(c: Conn, m: Bytes, h: Bytes -> U32)
    requires c.Valid() && c.buf == m && c.dsize == |m| < 0x1_0000_0000 && c.word <= |m| && c.header == Header(|m|, h(m))
    ensures SenderOK(NextBlock(c, h), m, h) && Unsent(NextBlock(c, h), h) == FromBlock(m, c.word, h)
  {
    hide Enc32, Dec32;
    var b := Block(m, c.word, h);
    var r := c.(buffer := Splice(c.buffer, 0, b), word := c.word + BlockLen(|m|, c.word))
              .Start(SEND_BLOCK_START, |b|);
    assert NextBlock(c, h) == r;
    SpliceParts(c.buffer, 0, b);
    assert r.buffer[0..|b|] == b;
  }

  lemma SentPart(c: Conn, m: Bytes, k: nat, h: Bytes -> U32)
    requires SenderOK(c, m, h) && Sending(c) && 1 <= k < c.size - c.offset
    ensures SenderOK(Sent(c, k, h), m, h) && Sending(Sent(c, k, h))
    ensures Source(c)[c.offset..c.offset + k] + Unsent(Sent(c, k, h), h) == Unsent(c, h)
  {
    hide Enc32, Dec32, NextBlock, Blocks, FromBlock;
    if c.state == SEND_HEADER_START {
      DropSplit(c.header, c.offset, k, HEADER, FromBlock(m, 0, h));
    } else {
      DropSplit(c.buffer, c.offset, k, c.size, Blocks(m, c.word, h));
    }
  }

  lemma DropSplit(s: Bytes, at: nat, k: nat, end: nat, more: Bytes)
    requires at + k <= end <= |s|
    ensures s[at..end] + more == s[at..at + k] + (s[at + k..end] + more)
    ensures end == |s| ==> s[at..] == s[at..end] && s[at + k..] == s[at + k..end]
  {
  }

  lemma SentHeader(c: Conn, m: Bytes, k: nat, h: Bytes -> U32)
    requires SenderOK(c, m, h) && c.state == SEND_HEADER_START && c.offset + k == c.size
    ensures SenderOK(Sent(c, k, h), m, h) && Sending(Sent(c, k, h))
    ensures Unsent(c, h) == Source(c)[c.offset..c.offset + k] + Unsent(Sent(c, k, h), h)
  {
    hide Enc32, Dec32;
    var c2 := c.(offset := c.size, state := SEND_HEADER_COMPLETE);
    assert Sent(c, k, h) == NextBlock(c2, h);
    NextBlockOK(c2, m, h);
    assert c.header[c.offset..] == c.header[c.offset..c.offset + k];
  }

  lemma SentBlock(c: Conn, m: Bytes, k: nat, h: Bytes -> U32)
    requires SenderOK(c, m, h) && c.state == SEND_BLOCK_START && c.offset + k == c.size
    ensures SenderOK(Sent(c, k, h), m, h)
    ensures Sent(c, k, h).state == READ_HEADER_START ==> Sent(c, k, h).offset == 0
    ensures Unsent(c, h) == Source(c)[c.offset..c.offset + k] + Unsent(Sent(c, k, h), h)
  {
    hide Enc32, Dec32;
    var c2 := c.(offset := c.size, state := SEND_BLOCK_COMPLETE);
    if c.word < c.dsize {
      assert Sent(c, k, h) == NextBlock(c2, h);
      NextBlockOK(c2, m, h);
      assert Blocks(m, c.word, h) == FromBlock(m, c.word, h);
    } else {
      assert Sent(c, k, h) == c2.WithHash(HashIn(c.header)).Start(READ_HEADER_START, HEADER);
      HeaderFields(c.header, |m|, h(m));
      WithHashHas(c2, h(m));
      assert Blocks(m, c.word, h) == [];
    }
  }

  /** The low 32 bits of the shared word are the hash, whatever offset it held. */
  lemma WithHashHas(c: Conn, hash: U32)
    ensures c.WithHash(hash).HashWord() == hash
  {
    var high := c.word / 0x1_0000_0000;
    assert c.word == high * 0x1_0000_0000 + c.word % 0x1_0000_0000;
    assert c.WithHash(hash).word == high * 0x1_0000_0000 + hash;
  }

  /** Sending neither loses nor reorders a byte. */
  lemma SentKeeps(c: Conn, m: Bytes, k: nat, h: Bytes -> U32)
    requires SenderOK(c, m, h) && Sending(c) && 1 <= k <= c.size - c.offset
    ensures SenderOK(Sent(c, k, h), m, h)
    ensures Source(c)[c.offset..c.offset + k] + Unsent(Sent(c, k, h), h) == Unsent(c, h)
    ensures Sent(c, k, h).state == READ_HEADER_START ==> Sent(c, k, h).offset == 0
  {
    if k < c.size - c.offset {
      SentPart(c, m, k, h);
    } else if c.state == SEND_HEADER_START {
      SentHeader(c, m, k, h);
    } else {
      SentBlock(c, m, k, h);
    }
  }

  lemma LoadOK(c: Conn, m: Bytes, h: Bytes -> U32)
    requires c.Valid() && |m| < 0x1_0000_0000
    ensures SenderOK(Load(c, m, h), m, h) && Unsent(Load(c, m, h), h) == Stream(m, h)
  {
    hide Enc32, Dec32;
    var r := Load(c, m, h);
    assert r.header[0..] == Header(|m|, h(m));
  }

  // ---------------------------------------------------------------- receiver

  lemma FillPart(c: Conn, b: Bytes)
    requires c.Valid() && c.offset + |b| <= if c.state == READ_BLOCK_START then PACKAGE else HEADER
    ensures var r := Fill(c, b);
            if c.state == READ_BLOCK_START then
              r == c.(buffer := r.buffer, offset := c.offset + |b|)
              && r.buffer[..r.offset] == c.buffer[..c.offset] + b
            else
              r == c.(header := r.header, offset := c.offset + |b|)
              && r.header[..r.offset] == c.header[..c.offset] + b
  {
    SpliceParts(if c.state == READ_BLOCK_START then c.buffer else c.header, c.offset, b);
  }

  lemma ReceivePart(c: Conn, m: Bytes, b: Bytes, rest: Bytes, blocks: nat, h: Bytes -> U32, cb: Callbacks)
    requires ReceiverOK(c, m, b + rest, blocks, h) && c.offset + |b| < c.size
    ensures Received(c, b, h, cb) == Going(Fill(c, b)) && ReceiverOK(Fill(c, b), m, rest, blocks, h)
  {
    hide Enc32, Dec32;
    FillPart(c, b);
    if c.state == READ_BLOCK_START {
      assert c.buffer[..c.offset] + (b + rest) == (c.buffer[..c.offset] + b) + rest;
    } else {
      assert c.header[..c.offset] + (b + rest) == (c.header[..c.offset] + b) + rest;
    }
  }

  /** Reading exactly `whole` from the front of `whole + more`. */
  lemma ReadWhole(s: Bytes, at: nat, b: Bytes, rest: Bytes, whole: Bytes, more: Bytes)
    requires at + |b| == |whole| <= |s| && s[..at] + (b + rest) == whole + more
    ensures Splice(s, at, b)[..|whole|] == whole && rest == more
  {
    SpliceParts(s, at, b);
    assert s[..at] + (b + rest) == (s[..at] + b) + rest;
    SplitEq(s[..at] + b, rest, whole, more);
  }

  lemma HeaderRead(c: Conn, m: Bytes, b: Bytes, rest: Bytes, h: Bytes -> U32)
    requires InHeader(c, m, b + rest, h) && c.offset + |b| == HEADER
    ensures Fill(c, b).header == Header(|m|, h(m)) && SizeIn(Fill(c, b).header) == |m|
    ensures rest == FromBlock(m, 0, h)
  {
    hide Enc32, Dec32;
    ReadWhole(c.header, c.offset, b, rest, Header(|m|, h(m)), FromBlock(m, 0, h));
    var r := Fill(c, b);
    assert r.header[..HEADER] == r.header;
    HeaderFields(r.header, |m|, h(m));
  }

  /** A complete header: the receiver now expects the first block. */
  lemma ReceiveHeader(c: Conn, m: Bytes, b: Bytes, rest: Bytes, h: Bytes -> U32, cb: Callbacks)
    requires InHeader(c, m, b + rest, h) && c.offset + |b| == HEADER
    requires |cb.mem| == |m|
    ensures var r := Received(c, b, h, cb);
            if cb.before then r.Going? && InBlock(r.c, m, rest, 0, h) else r == Closed
  {
    hide Enc32, Dec32;
    HeaderRead(c, m, b, rest, h);
    if cb.before {
      var r := Received(c, b, h, cb);
      assert r.c.buffer[..0] + rest == rest;
    }
  }

  /** A complete block is the block of the message that starts at the receiver's
      offset, and its own header tells the truth about it. */
  lemma BlockRead(c: Conn, m: Bytes, b: Bytes, rest: Bytes, blocks: nat, h: Bytes -> U32)
    requires InBlock(c, m, b + rest, blocks, h) && c.offset + |b| == c.size
    ensures BlockIs(Fill(c, b).buffer, m, c.word, h)
    ensures rest == Blocks(m, c.word + BlockLen(|m|, c.word), h)
  {
    hide Enc32, Dec32;
    var n := BlockLen(|m|, c.word);
    var r := Fill(c, b);
    assert r.buffer == Splice(c.buffer, c.offset, b);
    ReadWhole(c.buffer, c.offset, b, rest, Block(m, c.word, h), Blocks(m, c.word + n, h));
    BlockFields(r.buffer, m, c.word, h);
  }

  predicate BlockIs(b: Bytes, m: Bytes, off: nat, h: Bytes -> U32)
    requires off <= |m| && |b| == PACKAGE
  {
    var n := BlockLen(|m|, off);
    SizeIn(b) == n && b[HEADER..HEADER + n] == m[off..off + n] && HashIn(b) == h(m[off..off + n])
  }

  lemma BlockFields(b: Bytes, m: Bytes, off: nat, h: Bytes -> U32)
    requires off <= |m| && |b| == PACKAGE && b[..HEADER + BlockLen(|m|, off)] == Block(m, off, h)
    ensures BlockIs(b, m, off, h)
  {
    hide Enc32, Dec32;
    var n := BlockLen(|m|, off);
    var block := b[..HEADER + n];
    assert b[..HEADER] == block[..HEADER] == Header(n, h(m[off..off + n]));
    assert b[HEADER..HEADER + n] == block[HEADER..] == m[off..off + n];
    HeaderFields(b, n, h(m[off..off + n]));
  }

  lemma CountBlocks(n: nat, blocks: nat)
    requires StartOf(blocks) < n || (blocks == 0 && n == 0)
    ensures StartOf(blocks) + BlockLen(n, StartOf(blocks)) == n ==> Enough(n, blocks + 1)
    ensures StartOf(blocks) + BlockLen(n, StartOf(blocks)) < n ==> BlockLen(n, StartOf(blocks)) == BLOCK
  {
  }

  /** The payload of a complete block extends the data by exactly that block. */
  lemma Extended(s: Bytes, m: Bytes, at: nat, n: nat)
    requires |s| == |m| && at + n <= |m| && s[..at] == m[..at]
    ensures Splice(s, at, m[at..at + n])[..at + n] == m[..at + n]
  {
    SpliceParts(s, at, m[at..at + n]);
    assert m[..at + n] == m[..at] + m[at..at + n];
  }

  /** Expecting the block after the first `blocks + 1`. */
  lemma Expected(c: Conn, d: Bytes, m: Bytes, rest: Bytes, blocks: nat, h: Bytes -> U32)
    requires c.Valid() && c.dsize == |m| == |d| < 0x1_0000_0000 && c.header == Header(|m|, h(m))
    requires c.word == StartOf(blocks) && c.word + BLOCK < |m|
    requires d[..c.word + BLOCK] == m[..c.word + BLOCK] && rest == Blocks(m, c.word + BLOCK, h)
    ensures InBlock(c.(buf := d, word := c.word + BLOCK)
                     .Start(READ_BLOCK_START, WireSize(c.dsize - (c.word + BLOCK))), m, rest, blocks + 1, h)
  {
    hide Enc32, Dec32, Header;
    var off := c.word + BLOCK;
    NextStart(|m|, blocks);
    assert rest == FromBlock(m, off, h);
    assert c.buffer[..0] + rest == rest;
    hide FromBlock, Blocks, StartOf, WireSize;
    var r := c.(buf := d, word := off).Start(READ_BLOCK_START, WireSize(c.dsize - off));
    assert r.buffer == c.buffer && r.offset == 0 && r.word == off && r.size == HEADER + BlockLen(|m|, off);
  }

  lemma NextStart(n: nat, blocks: nat)
    requires StartOf(blocks) + BLOCK < n
    ensures StartOf(blocks) + BLOCK == StartOf(blocks + 1)
    ensures WireSize(n - StartOf(blocks + 1)) == HEADER + BlockLen(n, StartOf(blocks + 1))
  {
  }

  /** A complete block that is not the last: its hash matches, its payload extends
      the data, and the receiver expects the next one. */
  lemma MiddleBlock(c: Conn, m: Bytes, rest: Bytes, blocks: nat, h: Bytes -> U32, cb: Callbacks)
    requires c.Valid() && c.dsize == |m| == |c.buf| < 0x1_0000_0000 && c.word == StartOf(blocks)
    requires c.header == Header(|m|, h(m))
    requires c.size == PACKAGE && c.word + BLOCK < |m|
    requires c.buf[..c.word] == m[..c.word] && BlockIs(c.buffer, m, c.word, h)
    requires rest == Blocks(m, c.word + BLOCK, h)
    ensures CopyFits(c)
    ensures BlockDone(c, h, cb).Going? && InBlock(BlockDone(c, h, cb).c, m, rest, blocks + 1, h)
  {
    hide Enc32, Dec32;
    var payload := m[c.word..c.word + BLOCK];
    var d := Splice(c.buf, c.word, payload);
    assert c.buffer[HEADER..HEADER + BLOCK] == c.buffer[HEADER..c.size] == payload;
    var r := c.(buf := d, word := c.word + BLOCK)
              .Start(READ_BLOCK_START, WireSize(c.dsize - (c.word + BLOCK)));
    assert BlockDone(c, h, cb) == Going(r);
    Extended(c.buf, m, c.word, BLOCK);
    Expected(c, d, m, rest, blocks, h);
  }

  /** The last block: the data is the message, and its hash matches. */
  lemma LastBlock(c: Conn, m: Bytes, h: Bytes -> U32, cb: Callbacks)
    requires c.Valid() && c.dsize == |m| == |c.buf| < 0x1_0000_0000 && c.word <= |m|
    requires c.header == Header(|m|, h(m))
    requires c.size == HEADER + BlockLen(|m|, c.word) && c.word + BlockLen(|m|, c.word) == |m|
    requires c.buf[..c.word] == m[..c.word] && BlockIs(c.buffer, m, c.word, h)
    ensures CopyFits(c)
    ensures if cb.after then BlockDone(c, h, cb).Answering? && Accepts(BlockDone(c, h, cb).c, m, h)
            else BlockDone(c, h, cb) == Closed
  {
    hide Enc32, Dec32;
    var n := BlockLen(|m|, c.word);
    Extended(c.buf, m, c.word, n);
    var d := Splice(c.buf, c.word, m[c.word..c.word + n]);
    assert d == d[..|m|] == m[..|m|] == m;
    HeaderFields(c.header, |m|, h(m));
  }

  /** The receiver holds the whole message and is about to answer. */
  ghost predicate Accepts(c: Conn, m: Bytes, h: Bytes -> U32)
    requires |m| < 0x1_0000_0000
  {
    && c.Valid() && c.buf == m && c.header == Header(|m|, h(m))
    && c.state == SEND_HEADER_START && c.offset == 0 && c.size == HEADER
  }

  lemma ReceivedBlock(c: Conn, m: Bytes, b: Bytes, rest: Bytes, blocks: nat, h: Bytes -> U32, cb: Callbacks)
    requires InBlock(c, m, b + rest, blocks, h) && c.offset + |b| == c.size
    ensures CopyFits(Fill(c, b)) && CopyFits(Fill(c, b).(state := READ_BLOCK_COMPLETE))
    ensures Fill(c, b) == Fill(c, b).(offset := c.size)
    ensures Received(c, b, h, cb) == BlockDone(Fill(c, b).(state := READ_BLOCK_COMPLETE), h, cb)
  {
    BlockRead(c, m, b, rest, blocks, h);
  }

  /** A complete block that is not the last: the receiver expects the next. */
  lemma ReceiveMiddle(c: Conn, m: Bytes, b: Bytes, rest: Bytes, blocks: nat, h: Bytes -> U32, cb: Callbacks)
    requires InBlock(c, m, b + rest, blocks, h) && c.offset + |b| == c.size
    requires CopyFits(Fill(c, b).(state := READ_BLOCK_COMPLETE))
    requires c.word + BlockLen(|m|, c.word) < |m|
    ensures var r := BlockDone(Fill(c, b).(state := READ_BLOCK_COMPLETE), h, cb);
            r.Going? && InBlock(r.c, m, rest, blocks + 1, h)
  {
    hide Enc32, Dec32;
    BlockRead(c, m, b, rest, blocks, h);
    var c2 := Fill(c, b).(state := READ_BLOCK_COMPLETE);
    assert c2 == c.(buffer := c2.buffer, offset := c.size, state := READ_BLOCK_COMPLETE);
    MiddleBlock(c2, m, rest, blocks, h, cb);
  }

  /** The last block: the receiver has the whole message. */
  lemma ReceiveLast(c: Conn, m: Bytes, b: Bytes, rest: Bytes, blocks: nat, h: Bytes -> U32, cb: Callbacks)
    requires InBlock(c, m, b + rest, blocks, h) && c.offset + |b| == c.size
    requires CopyFits(Fill(c, b).(state := READ_BLOCK_COMPLETE))
    requires c.word + BlockLen(|m|, c.word) == |m|
    ensures rest == [] && Enough(|m|, blocks + 1)
    ensures var r := BlockDone(Fill(c, b).(state := READ_BLOCK_COMPLETE), h, cb);
            if cb.after then r.Answering? && Accepts(r.c, m, h) else r == Closed
  {
    hide Enc32, Dec32;
    BlockRead(c, m, b, rest, blocks, h);
    CountBlocks(|m|, blocks);
    var c2 := Fill(c, b).(state := READ_BLOCK_COMPLETE);
    assert c2 == c.(buffer := c2.buffer, offset := c.size, state := READ_BLOCK_COMPLETE);
    LastBlock(c2, m, h, cb);
  }

  // ------------------------------------------------- every step keeps LinkInv

  lemma StartKeeps(l: Link, l': Link, m: Bytes, h: Bytes -> U32)
    requires LinkInv(l, h) && StartStep(l, l', m, h)
    ensures LinkInv(l', h)
  {
    LoadOK(l.snd, m, h);
    if l.msg == None && l.rcv.Some? {
      var c := l.rcv.value;
      assert c.header[..0] + (l'.fwd + Unsent(l'.snd, h)) == Stream(m, h);
      assert InHeader(c, m, l'.fwd + Unsent(l'.snd, h), h);
    }
  }

  lemma TransferSends(l: Link, snd: Conn, b: Bytes, m: Bytes, h: Bytes -> U32)
    requires TransferOK(l, m, h) && Sending(l.snd) && SenderOK(snd, m, h)
    requires snd.state == READ_HEADER_START ==> snd.offset == 0
    requires b + Unsent(snd, h) == Unsent(l.snd, h)
    ensures TransferOK(l.(snd := snd, fwd := l.fwd + b), m, h)
  {
    assert (l.fwd + b) + Unsent(snd, h) == l.fwd + (b + Unsent(snd, h));
  }

  lemma SenderAtWork(l: Link, h: Bytes -> U32)
    requires LinkInv(l, h) && Sending(l.snd)
    ensures SenderOK(l.snd, l.snd.buf, h) && l.msg.Some?
    ensures TransferOK(l, l.msg.value, h) ==> l.snd.buf == l.msg.value
  {
  }

  lemma SendKeepsWith(l: Link, snd: Conn, b: Bytes, h: Bytes -> U32)
    requires LinkInv(l, h) && Sending(l.snd) && SenderOK(snd, l.snd.buf, h)
    requires snd.state == READ_HEADER_START ==> snd.offset == 0
    requires b + Unsent(snd, h) == Unsent(l.snd, h)
    ensures LinkInv(l.(snd := snd, fwd := l.fwd + b), h)
  {
    SenderAtWork(l, h);
    if TransferOK(l, l.msg.value, h) {
      TransferSends(l, snd, b, l.msg.value, h);
    }
  }

  lemma SendKeeps(l: Link, l': Link, k: nat, h: Bytes -> U32)
    requires LinkInv(l, h) && SendStep(l, l', k, h)
    ensures LinkInv(l', h)
  {
    hide Enc32, Dec32, Sent, Unsent;
    var snd := Sent(l.snd, k, h);
    var b := Source(l.snd)[l.snd.offset..l.snd.offset + k];
    SenderAtWork(l, h);
    SentKeeps(l.snd, l.snd.buf, k, h);
    SendKeepsWith(l, snd, b, h);
    assert l' == l.(snd := snd, fwd := l.fwd + b);
  }

  /** A sender that still has to send has something to send. */
  lemma UnsentSome(c: Conn, m: Bytes, h: Bytes -> U32)
    requires SenderOK(c, m, h) && Unsent(c, h) == []
    ensures c.state == READ_HEADER_START
  {
  }

  /** What may come of reading for `m`, when `rest` is still to be read after it and
      `blocks` are then complete. */
  ghost predicate Outcome(r: Reading, m: Bytes, rest: Bytes, blocks: nat, h: Bytes -> U32)
    requires |m| < 0x1_0000_0000
  {
    match r
    case Going(c) => ReceiverOK(c, m, rest, blocks, h)
    case Closed => true
    case Answering(c) => rest == [] && Accepts(c, m, h) && Enough(|m|, blocks)
  }

  /** Reading one more block adds one to the count, reading anything else does not. */
  function BlocksAfter(c: Conn, k: nat, blocks: nat): nat
  {
    if c.state == READ_BLOCK_START && c.offset + k >= c.size then blocks + 1 else blocks
  }

  lemma ReceivedOutcome(c: Conn, m: Bytes, b: Bytes, rest: Bytes, blocks: nat, h: Bytes -> U32, cb: Callbacks)
    requires ReceiverOK(c, m, b + rest, blocks, h) && c.offset + |b| <= c.size
    requires c.state == READ_HEADER_START ==> Provides(c, |b|, cb, b)
    ensures c.state == READ_BLOCK_START && c.offset + |b| == c.size ==> CopyFits(Fill(c, b).(offset := c.size))
    ensures Outcome(Received(c, b, h, cb), m, rest, BlocksAfter(c, |b|, blocks), h)
    ensures Received(c, b, h, cb) == Closed ==> !cb.before || !cb.after
  {
    if c.offset + |b| < c.size {
      ReceivePart(c, m, b, rest, blocks, h, cb);
    } else if c.state == READ_HEADER_START {
      HeaderRead(c, m, b, rest, h);
      ReceiveHeader(c, m, b, rest, h, cb);
    } else {
      ReceivedBlock(c, m, b, rest, blocks, h, cb);
      if c.word + BlockLen(|m|, c.word) < |m| {
        ReceiveMiddle(c, m, b, rest, blocks, h, cb);
      } else {
        ReceiveLast(c, m, b, rest, blocks, h, cb);
      }
    }
  }

  /** The receiver has accepted `m`: nothing is left on the wire or to be sent. */
  lemma TransferAccepted(l: Link, k: nat, c: Conn, blocks: nat, m: Bytes, h: Bytes -> U32)
    requires TransferOK(l, m, h) && l.rcv.Some? && ReadingIn(l.rcv.value) && k <= |l.fwd|
    requires l.fwd[k..] + Unsent(l.snd, h) == [] && Accepts(c, m, h) && Enough(|m|, blocks)
    ensures TransferOK(l.(rcv := Some(c), fwd := l.fwd[k..], blocks := blocks, accepted := Some(m)), m, h)
  {
    UnsentSome(l.snd, m, h);
    assert Answer(l.snd, l.back) + c.header[0..] == c.header;
  }

  lemma TransferReceives(l: Link, k: nat, r: Reading, m: Bytes, h: Bytes -> U32)
    requires TransferOK(l, m, h) && l.rcv.Some? && ReadingIn(l.rcv.value) && k <= |l.fwd|
    requires Outcome(r, m, l.fwd[k..] + Unsent(l.snd, h), BlocksAfter(l.rcv.value, k, l.blocks), h)
    ensures TransferOK(AfterReading(l, k, r), m, h)
  {
    if r.Answering? {
      TransferAccepted(l, k, r.c, BlocksAfter(l.rcv.value, k, l.blocks), m, h);
    }
  }

  lemma ReceiverAtWork(l: Link, k: nat, h: Bytes -> U32)
    requires LinkInv(l, h) && l.rcv.Some? && ReadingIn(l.rcv.value) && 1 <= k <= |l.fwd|
    ensures l.msg.Some? && TransferOK(l, l.msg.value, h)
    ensures ReceiverOK(l.rcv.value, l.msg.value, l.fwd[..k] + (l.fwd[k..] + Unsent(l.snd, h)), l.blocks, h)
  {
    assert l.fwd[..k] + (l.fwd[k..] + Unsent(l.snd, h)) == l.fwd + Unsent(l.snd, h);
  }

  lemma ReceiveKeeps(l: Link, l': Link, k: nat, h: Bytes -> U32, cb: Callbacks)
    requires LinkInv(l, h) && ReceiveStep(l, l', k, h, cb)
    ensures LinkInv(l', h)
  {
    ReceiverAtWork(l, k, h);
    var m := l.msg.value;
    var b := l.fwd[..k];
    var rest := l.fwd[k..] + Unsent(l.snd, h);
    ReceivedOutcome(l.rcv.value, m, b, rest, l.blocks, h, cb);
    TransferReceives(l, k, Received(l.rcv.value, b, h, cb), m, h);
  }

  lemma AnswerKeeps(l: Link, l': Link, k: nat, h: Bytes -> U32)
    requires LinkInv(l, h) && AnswerStep(l, l', k)
    ensures LinkInv(l', h)
  {
    hide Enc32, Dec32;
    var c := l.rcv.value;
    var b := c.header[c.offset..c.offset + k];
    assert Answer(l'.snd, l'.back) == Answer(l.snd, l.back) + b;
    assert c.header[c.offset..] == b + c.header[c.offset + k..];
  }

  /** The sender reads a part of the answer, or all of it: then the hashes agree,
      although data.hash has been written over data.offset. */
  lemma AckReads(l: Link, m: Bytes, k: nat, h: Bytes -> U32)
    requires |m| < 0x1_0000_0000 && SenderOK(l.snd, m, h) && AnswerOK(l, m, h)
    requires 1 <= k <= |l.back| && k <= HEADER - l.snd.offset
    ensures Answer(AckRead(l.snd, l.back[..k]).c, l.back[k..]) == Answer(l.snd, l.back)
    ensures AckRead(l.snd, l.back[..k]).c.offset == l.snd.offset + k
    ensures if l.snd.offset + k < HEADER then
              AckRead(l.snd, l.back[..k]).Pending? && SenderOK(AckRead(l.snd, l.back[..k]).c, m, h)
            else
              && AckRead(l.snd, l.back[..k]).Matched? && AckRead(l.snd, l.back[..k]).c.buf == m && l.back[k..] == []
              && (l.rcv.Some? ==> Resting(l.rcv.value))
  {
    hide Enc32, Dec32;
    var b := l.back[..k];
    assert l.back == b + l.back[k..];
    SpliceParts(l.snd.header, l.snd.offset, b);
    assert l.snd.header[..l.snd.offset] + (b + l.back[k..]) == (l.snd.header[..l.snd.offset] + b) + l.back[k..];
    if l.snd.offset + k == HEADER {
      var header := Splice(l.snd.header, l.snd.offset, b);
      AnswerPrefix(l, m, h);
      assert Answer(l.snd, l.back) == header[..HEADER] + l.back[k..];
      assert header == header[..HEADER] == Header(|m|, h(m));
      HeaderFields(header, |m|, h(m));
    }
  }

  lemma AnswerPrefix(l: Link, m: Bytes, h: Bytes -> U32)
    requires |m| < 0x1_0000_0000 && AnswerOK(l, m, h)
    ensures Answer(l.snd, l.back) <= Header(|m|, h(m))
    ensures |Answer(l.snd, l.back)| == HEADER && l.rcv.Some? ==> Resting(l.rcv.value)
  {
  }

  lemma AckKeeps(l: Link, l': Link, k: nat, h: Bytes -> U32)
    requires LinkInv(l, h) && AckStep(l, l', k)
    ensures LinkInv(l', h)
  {
    AckReads(l, l.msg.value, k, h);
  }

  lemma RestKeeps(l: Link, l': Link, h: Bytes -> U32)
    requires LinkInv(l, h) && (IdleStep(l, l') || FailStep(l, l'))
    ensures LinkInv(l', h)
  {
    if l.msg.Some? && AnswerOK(l, l.msg.value, h) {
      AnswerPrefix(l, l.msg.value, h);
    }
  }

  lemma StepKeeps(l: Link, l': Link, h: Bytes -> U32)
    requires LinkInv(l, h) && LinkStep(l, l', h)
    ensures LinkInv(l', h)
  {
    if m :| StartStep(l, l', m, h) {
      StartKeeps(l, l', m, h);
    } else if k :| SendStep(l, l', k, h) {
      SendKeeps(l, l', k, h);
    } else if k, cb :| ReceiveStep(l, l', k, h, cb) {
      ReceiveKeeps(l, l', k, h, cb);
    } else if k :| AnswerStep(l, l', k) {
      AnswerKeeps(l, l', k, h);
    } else if k :| AckStep(l, l', k) {
      AckKeeps(l, l', k, h);
    } else {
      RestKeeps(l, l', h);
    }
  }

  lemma {:induction false} Reachable(run: seq<Link>, i: nat, h: Bytes -> U32)
    requires Execution(run, h) && i < |run|
    ensures LinkInv(run[i], h)
  {
    if i > 0 {
      Reachable(run, i - 1, h);
      assert LinkStep(run[i - 1], run[i - 1 + 1], h);
      StepKeeps(run[i - 1], run[i], h);
    }
  }

  // ------------------------------------------------------------------ results

  /** Both sides agree on every block.  What the receiver has of its block, what is in
      flight and what the sender has not sent make up exactly the blocks from the
      receiver's offset on; so the length the receiver worked out is the length of the
      block being sent.  Whatever arrives next, the block fits the buffer and the copy
      fits the data. */
  lemma FramingAgrees(run: seq<Link>, i: nat, h: Bytes -> U32)
    requires Execution(run, h) && i < |run|
    requires run[i].rcv.Some? && run[i].rcv.value.state == READ_BLOCK_START
    ensures run[i].msg.Some? && run[i].snd.Valid() && run[i].rcv.value.Valid()
    ensures var c, m := run[i].rcv.value, run[i].msg.value;
            && c.word <= |m| == c.dsize == |c.buf|
            && c.offset < c.size == HEADER + BlockLen(|m|, c.word) <= PACKAGE
            && c.buffer[..c.offset] + (run[i].fwd + Unsent(run[i].snd, h)) == FromBlock(m, c.word, h)
            && c.buf[..c.word] == m[..c.word]
    ensures var c := run[i].rcv.value;
            forall k | 1 <= k <= |run[i].fwd| && k == c.size - c.offset :: CopyFits(Fill(c, run[i].fwd[..k]))
  {
    hide Enc32, Dec32;
    Reachable(run, i, h);
    var l := run[i];
    var c, m := l.rcv.value, l.msg.value;
    forall k | 1 <= k <= |l.fwd| && k == c.size - c.offset ensures CopyFits(Fill(c, l.fwd[..k])) {
      var b := l.fwd[..k];
      ReceiverAtWork(l, k, h);
      ReceivedBlock(c, m, b, l.fwd[k..] + Unsent(l.snd, h), l.blocks, h, Callbacks(true, [], true));
    }
  }

  /** recv_after gets exactly the bytes that were sent, after max(1, ceil(n / 4084))
      blocks. */
  lemma Delivery(run: seq<Link>, i: nat, h: Bytes -> U32)
    requires Execution(run, h) && i < |run| && run[i].accepted.Some?
    ensures run[i].msg == run[i].accepted
    ensures run[i].blocks == NumBlocks(|run[i].msg.value|)
  {
    Reachable(run, i, h);
    EnoughIsExact(|run[i].msg.value|, run[i].blocks);
  }

  /** The checks of lines 109 and 127 for a complete block: its hash, and after the last
      block that of all data. */
  predicate ChecksPass(c: Conn, h: Bytes -> U32)
    requires c.Valid() && CopyFits(c)
  {
    var n := SizeIn(c.buffer);
    && h(c.buffer[HEADER..c.size]) == HashIn(c.buffer)
    && (c.word + n >= c.dsize ==> h(Splice(c.buf, c.word, c.buffer[HEADER..HEADER + n])) == HashIn(c.header))
  }

  /** Whatever bytes have arrived, from whomever: a block whose hash is wrong closes the
      connection; after the last block the data is handed over and answered exactly if its
      hash is right, too, and recv_after agrees; and it is then what has been copied. */
  lemma BlockVerdict(c: Conn, h: Bytes -> U32, cb: Callbacks)
    requires c.Valid() && CopyFits(c)
    ensures var r, n := BlockDone(c, h, cb), SizeIn(c.buffer);
            var right := h(c.buffer[HEADER..c.size]) == HashIn(c.buffer);
            var data := Splice(c.buf, c.word, c.buffer[HEADER..HEADER + n]);
            && (r.Answering? <==> right && c.word + n >= c.dsize && h(data) == HashIn(c.header) && cb.after)
            && (r.Going? <==> right && c.word + n < c.dsize)
            && (r.Answering? ==> r.c.buf == data && r.c.header == c.header && r.c.state == SEND_HEADER_START)
            && (r.Going? ==> r.c.buf == data && r.c.word == c.word + n && r.c.state == READ_BLOCK_START)
  {
  }

  /** When the last byte of a block arrives, the hash of the block is the one in its
      header; and if it is the last block, the hash of all data is the one announced. */
  lemma HashChecksPass(run: seq<Link>, i: nat, k: nat, h: Bytes -> U32)
    requires Execution(run, h) && i < |run| && run[i].rcv.Some? && run[i].rcv.value.state == READ_BLOCK_START
    requires k <= |run[i].fwd| && k == run[i].rcv.value.size - run[i].rcv.value.offset
    ensures run[i].rcv.value.Valid() && run[i].rcv.value.offset + k <= PACKAGE
    ensures var f := Fill(run[i].rcv.value, run[i].fwd[..k]); CopyFits(f) && ChecksPass(f, h)
  {
    hide Enc32, Dec32;
    Reachable(run, i, h);
    var l, c, cb := run[i], run[i].rcv.value, Callbacks(true, [], true);
    var b, rest := l.fwd[..k], l.fwd[k..] + Unsent(l.snd, h);
    ReceiverAtWork(l, k, h);
    ReceivedBlock(c, l.msg.value, b, rest, l.blocks, h, cb);
    ReceivedOutcome(c, l.msg.value, b, rest, l.blocks, h, cb);
  }

  /** So the receiver gives up only when a callback asks it to. */
  lemma OnlyCallbacksClose(run: seq<Link>, i: nat, k: nat, h: Bytes -> U32, cb: Callbacks)
    requires Execution(run, h) && i < |run| - 1 && ReceiveStep(run[i], run[i + 1], k, h, cb)
    ensures run[i + 1].rcv == None ==> !cb.before || !cb.after
  {
    Reachable(run, i, h);
    var l := run[i];
    ReceiverAtWork(l, k, h);
    ReceivedOutcome(l.rcv.value, l.msg.value, l.fwd[..k], l.fwd[k..] + Unsent(l.snd, h), l.blocks, h, cb);
  }

  /** send_after runs only for the message that this connection's receiver has
      accepted, and at most once. */
  lemma AcksAreTrue(run: seq<Link>, i: nat, h: Bytes -> U32)
    requires Execution(run, h) && i < |run|
    ensures run[i].acks == [] || (run[i].accepted.Some? && run[i].acks == [run[i].accepted.value])
  {
    Reachable(run, i, h);
  }

  /** The sender never takes a good transfer for a bad one. */
  lemma AckNeverMismatches(run: seq<Link>, i: nat, k: nat, h: Bytes -> U32)
    requires Execution(run, h) && i < |run| - 1 && AckStep(run[i], run[i + 1], k)
    ensures !AckRead(run[i].snd, run[i].back[..k]).Mismatched?
  {
    Reachable(run, i, h);
    AckReads(run[i], run[i].msg.value, k, h);
  }

  /** The bytes still to be moved before the transfer is over, those not yet in flight
      counted twice; the answer counts from the start. */
  function Work(l: Link, h: Bytes -> U32): nat
    requires l.snd.Valid()
  {
    2 * |Unsent(l.snd, h)| + |l.fwd| + |l.back| +
    match l.rcv
    case None => 0
    case Some(c) =>
      if ReadingIn(c) then 2 * HEADER + 1
      else if c.state == SEND_HEADER_START && c.offset <= HEADER then 2 * (HEADER - c.offset)
      else 0
  }

  ghost predicate Moves(l: Link, l': Link, h: Bytes -> U32)
  {
    || (exists k :: SendStep(l, l', k, h))
    || (exists k, cb :: ReceiveStep(l, l', k, h, cb))
    || (exists k :: AnswerStep(l, l', k))
    || (exists k :: AckStep(l, l', k))
  }

  /** Whatever part of what it still has to send the socket takes, the sender can send:
      it never reads outside its header or buffer, and never copies outside the data. */
  lemma CanSend(run: seq<Link>, i: nat, k: nat, h: Bytes -> U32) returns (l': Link)
    requires Execution(run, h) && i < |run| && Sending(run[i].snd) && 1 <= k <= run[i].snd.size - run[i].snd.offset
    ensures SendStep(run[i], l', k, h)
  {
    Reachable(run, i, h);
    l' := SendEnabled(run[i], k, h);
  }

  lemma SendEnabled(l: Link, k: nat, h: Bytes -> U32) returns (l': Link)
    requires LinkInv(l, h) && Sending(l.snd) && 1 <= k <= l.snd.size - l.snd.offset
    ensures SendStep(l, l', k, h)
  {
    hide Enc32, Dec32, Unsent, Sent;
    SenderAtWork(l, h);
    SenderHas(l.snd, l.snd.buf, h);
    l' := l.(snd := Sent(l.snd, k, h), fwd := l.fwd + Source(l.snd)[l.snd.offset..l.snd.offset + k]);
  }

  lemma SenderHas(c: Conn, m: Bytes, h: Bytes -> U32)
    requires SenderOK(c, m, h) && Sending(c)
    ensures c.word <= c.dsize == |c.buf| && c.offset < c.size <= |Source(c)|
  {
  }

  /** Whatever part of the stream arrives, and whatever the callbacks say, the receiver
      can read it, if recv_before provides the right amount of memory. */
  lemma CanReceive(run: seq<Link>, i: nat, k: nat, h: Bytes -> U32, before: bool, after: bool)
    returns (mem: Bytes, l': Link)
    requires Execution(run, h) && i < |run| && run[i].rcv.Some? && ReadingIn(run[i].rcv.value)
    requires 1 <= k <= |run[i].fwd| && k <= run[i].rcv.value.size - run[i].rcv.value.offset
    ensures ReceiveStep(run[i], l', k, h, Callbacks(before, mem, after))
  {
    Reachable(run, i, h);
    mem, l' := ReceiveEnabled(run[i], k, h, before, after);
  }

  lemma ReceiveEnabled(l: Link, k: nat, h: Bytes -> U32, before: bool, after: bool) returns (mem: Bytes, l': Link)
    requires LinkInv(l, h) && l.rcv.Some? && ReadingIn(l.rcv.value)
    requires 1 <= k <= |l.fwd| && k <= l.rcv.value.size - l.rcv.value.offset
    ensures ReceiveStep(l, l', k, h, Callbacks(before, mem, after))
  {
    hide Enc32, Dec32;
    var c, b := l.rcv.value, l.fwd[..k];
    ReceiverAtWork(l, k, h);
    mem := if c.state == READ_HEADER_START then seq(SizeIn(Splice(c.header, c.offset, b)), i => 0) else [];
    var cb := Callbacks(before, mem, after);
    ReceivedOutcome(c, l.msg.value, b, l.fwd[k..] + Unsent(l.snd, h), l.blocks, h, cb);
    l' := AfterReading(l, k, Received(c, b, h, cb));
  }

  /** Whatever part of its answer the socket takes, the receiver can send. */
  lemma CanAnswer(run: seq<Link>, i: nat, k: nat, h: Bytes -> U32) returns (l': Link)
    requires Execution(run, h) && i < |run| && run[i].rcv.Some? && run[i].rcv.value.state == SEND_HEADER_START
    requires 1 <= k <= run[i].rcv.value.size - run[i].rcv.value.offset
    ensures AnswerStep(run[i], l', k)
  {
    Reachable(run, i, h);
    var l, c := run[i], run[i].rcv.value;
    l' := l.(rcv := Some(Answered(c, k)), back := l.back + c.header[c.offset..c.offset + k]);
  }

  /** Whatever part of the answer arrives, the sender can read it. */
  lemma CanRead(run: seq<Link>, i: nat, k: nat, h: Bytes -> U32) returns (l': Link)
    requires Execution(run, h) && i < |run| && run[i].snd.state == READ_HEADER_START
    requires 1 <= k <= |run[i].back| && k <= run[i].snd.size - run[i].snd.offset
    ensures AckStep(run[i], l', k)
  {
    Reachable(run, i, h);
    var l := run[i];
    var l1 := l.(back := l.back[k..]);
    match AckRead(l.snd, l.back[..k])
    case Pending(c) => l' := l1.(snd := c);
    case Matched(c) => l' := l1.(snd := c.Start(DISABLED, 0), acks := l.acks + [c.buf]);
    case Mismatched(c) => l' := l1.(snd := c.Start(DISABLED, 0));
  }

  /** Until the first message is acknowledged one of the ends can make a move. */
  lemma NeverStuck(run: seq<Link>, i: nat, h: Bytes -> U32)
    requires Execution(run, h) && i < |run|
    requires run[i].msg.Some? && run[i].rcv.Some? && run[i].acks == []
    ensures exists l' :: Moves(run[i], l', h)
  {
    Reachable(run, i, h);
    var l, c := run[i], run[i].rcv.value;
    SomebodyReady(l, h);
    hide LinkInv, SendStep, ReceiveStep, AnswerStep, AckStep;
    if Sending(l.snd) {
      var l' := CanSend(run, i, 1, h);
      assert Moves(l, l', h);
    } else if ReadingIn(c) {
      var mem, l' := CanReceive(run, i, 1, h, true, true);
      assert Moves(l, l', h);
    } else if c.state == SEND_HEADER_START {
      var l' := CanAnswer(run, i, 1, h);
      assert Moves(l, l', h);
    } else {
      var l' := CanRead(run, i, 1, h);
      assert Moves(l, l', h);
    }
  }

  /** There are bytes in flight, or one of the ends has bytes to send. */
  lemma SomebodyReady(l: Link, h: Bytes -> U32)
    requires LinkInv(l, h) && l.msg.Some? && l.rcv.Some? && l.acks == []
    ensures var c := l.rcv.value;
            if Sending(l.snd) then l.snd.offset < l.snd.size
            else if ReadingIn(c) then l.fwd != [] && c.offset < c.size
            else if c.state == SEND_HEADER_START then c.offset < c.size
            else l.snd.state == READ_HEADER_START && l.back != [] && l.snd.offset < l.snd.size
  {
    hide Enc32, Dec32;
    var c, m := l.rcv.value, l.msg.value;
    if ReadingIn(c) {
      SomethingLeft(c, m, l.fwd + Unsent(l.snd, h), l.blocks, h);
    }
  }

  /** A receiver in the middle of a message has not read all of it. */
  lemma SomethingLeft(c: Conn, m: Bytes, rest: Bytes, blocks: nat, h: Bytes -> U32)
    requires ReceiverOK(c, m, rest, blocks, h)
    ensures rest != []
  {
    if c.state == READ_HEADER_START {
      assert |c.header[..c.offset]| + |rest| == |Stream(m, h)|;
    } else {
      assert |c.buffer[..c.offset]| + |rest| == |FromBlock(m, c.word, h)|;
    }
  }

  /** Every move uses up work, so a transfer without failures ends after at most as
      many moves as there is work at its start. */
  lemma MovesUseWork(run: seq<Link>, i: nat, h: Bytes -> U32)
    requires Execution(run, h) && i < |run| - 1 && Moves(run[i], run[i + 1], h)
    requires run[i].acks == []
    ensures run[i].snd.Valid() && run[i + 1].snd.Valid()
    ensures Work(run[i + 1], h) < Work(run[i], h)
  {
    Reachable(run, i, h);
    var l, l' := run[i], run[i + 1];
    if k :| SendStep(l, l', k, h) {
      SendUses(l, l', k, h);
    } else if k, cb :| ReceiveStep(l, l', k, h, cb) {
      ReceiveUses(l, l', k, h, cb);
    } else if k :| AnswerStep(l, l', k) {
      AnswerUses(l, l', k, h);
    } else {
      var k :| AckStep(l, l', k);
      AckUses(l, l', k, h);
    }
  }

  lemma ReceiveUses(l: Link, l': Link, k: nat, h: Bytes -> U32, cb: Callbacks)
    requires LinkInv(l, h) && ReceiveStep(l, l', k, h, cb)
    ensures l.snd.Valid() && l'.snd == l.snd && Work(l', h) < Work(l, h)
  {
    hide Enc32, Dec32;
    ReceiverAtWork(l, k, h);
    var b := l.fwd[..k];
    var r := Received(l.rcv.value, b, h, cb);
    ReceivedOutcome(l.rcv.value, l.msg.value, b, l.fwd[k..] + Unsent(l.snd, h), l.blocks, h, cb);
    assert l' == AfterReading(l, k, r);
    OutcomeUses(l, k, r, l.msg.value, h);
  }

  lemma OutcomeUses(l: Link, k: nat, r: Reading, m: Bytes, h: Bytes -> U32)
    requires TransferOK(l, m, h) && l.rcv.Some? && ReadingIn(l.rcv.value) && 1 <= k <= |l.fwd|
    requires Outcome(r, m, l.fwd[k..] + Unsent(l.snd, h), BlocksAfter(l.rcv.value, k, l.blocks), h)
    ensures Work(AfterReading(l, k, r), h) < Work(l, h)
  {
  }

  lemma AnswerUses(l: Link, l': Link, k: nat, h: Bytes -> U32)
    requires LinkInv(l, h) && AnswerStep(l, l', k)
    ensures l.snd.Valid() && l'.snd == l.snd && Work(l', h) < Work(l, h)
  {
  }

  lemma AckUses(l: Link, l': Link, k: nat, h: Bytes -> U32)
    requires LinkInv(l, h) && l.acks == [] && AckStep(l, l', k)
    ensures l.snd.Valid() && l'.snd.Valid() && Work(l', h) < Work(l, h)
  {
    AckReads(l, l.msg.value, k, h);
  }

  lemma SendUses(l: Link, l': Link, k: nat, h: Bytes -> U32)
    requires LinkInv(l, h) && SendStep(l, l', k, h)
    ensures l.snd.Valid() && l'.snd.Valid() && Work(l', h) < Work(l, h)
  {
    hide Enc32, Dec32;
    var snd := Sent(l.snd, k, h);
    var b := Source(l.snd)[l.snd.offset..l.snd.offset + k];
    SenderAtWork(l, h);
    SentKeeps(l.snd, l.snd.buf, k, h);
    assert l' == l.(snd := snd, fwd := l.fwd + b);
    assert |Unsent(l.snd, h)| == |b| + |Unsent(snd, h)|;
  }

  /** After the first message the receiver is DISABLED for good: the sender may send
      another on the same connection, but nothing of it is read or answered. */
  lemma OneMessagePerConnection(run: seq<Link>, i: nat, h: Bytes -> U32)
    requires Execution(run, h) && i < |run| - 1 && run[i].acks != []
    ensures run[i + 1].acks == run[i].acks && run[i + 1].accepted == run[i].accepted
    ensures run[i + 1].back == [] && run[i].fwd <= run[i + 1].fwd
  {
    Reachable(run, i, h);
    Reachable(run, i + 1, h);
    assert LinkStep(run[i], run[i + 1], h);
  }
}
