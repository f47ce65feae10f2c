/**
 frl_pipe_state_t (src/lib/frl_util_socket_pipe.h:56-68) and the code of
 src/lib/frl_util_socket_pipe.cpp that updates it in place: one method for each thing
 that can happen on a connection, proved to compute the function of module SocketPipe.
 */
module PipeState {
  import opened Basics
  import opened Wire
  import opened SocketPipe

  /** memcpy of `b` to `dst[at..]`. */
  method Copy(dst: array<Byte>, at: nat, b: Bytes)
    requires at + |b| <= dst.Length
    modifies dst
    ensures dst[..] == Splice(old(dst[..]), at, b)
  {
    ghost var was := dst[..];
    for i := 0 to |b|
      invariant dst[..] == Splice(was, at, b[..i])
    {
      dst[at + i] := b[i];
      assert b[..i + 1] == b[..i] + [b[i]];
    }
    assert b[..|b|] == b;
  }

  /** Stores to `size` and `hash` of the frl_pipe_header_t at the front of `dst`. */
  method PutHeader(dst: array<Byte>, size: U32, hash: U32)
    requires dst.Length >= HEADER
    modifies dst
    ensures dst[..] == Splice(old(dst[..]), 0, Header(size, hash))
  {
    Copy(dst, 0, Header(size, hash));
  }

  class PipeState {
    const header: array<Byte>
    const buffer: array<Byte> // block.header is its first 8 bytes, block.start is behind them
    var buf: array<Byte>      // data.buf
    var word: nat             // data.offset, its low half data.hash
    var dsize: nat            // data.size
    var reader: array<Byte>   // reader points to reader[at]
    var at: nat
    var offset: nat
    var size: nat
    var state: nat

    ghost predicate Valid()
      reads this
    {
      && header.Length == HEADER && buffer.Length == PACKAGE
      && header != buffer && buf != header && buf != buffer
      && (Sending(Registers()) || ReadingIn(Registers()) ==>
            at == offset && reader == if state == SEND_BLOCK_START || state == READ_BLOCK_START then buffer else header)
    }

    /** The fields that are numbers. */
    ghost function Registers(): Conn
      reads this
    {
      Conn(state, [], [], [], word, dsize, offset, size)
    }

    ghost function Value(): Conn
      reads this, header, buffer, buf
    {
      Conn(state, header[..], buffer[..], buf[..], word, dsize, offset, size)
    }

    /** Lines 45-50: the receiver accepts a connection. */
    constructor Accepted()
      ensures Valid() && Value().Valid() && fresh(header) && fresh(buffer) && fresh(buf)
      ensures state == READ_HEADER_START && offset == 0 && size == HEADER
    {
      header := new Byte[HEADER];
      buffer := new Byte[PACKAGE];
      buf := new Byte[0];
      word, dsize := 0, 0;
      state := READ_HEADER_START;
      at := 0;
      offset := 0;
      size := HEADER;
      new;
      reader := header;
    }

    /** `reader` points to the start of `part`. */
    method Start(newState: nat, newSize: nat, part: array<Byte>)
      requires header.Length == HEADER && buffer.Length == PACKAGE
      requires header != buffer && buf != header && buf != buffer
      requires part == if newState == SEND_BLOCK_START || newState == READ_BLOCK_START then buffer else header
      modifies this`state, this`reader, this`at, this`offset, this`size
      ensures Valid() && Value() == old(Value()).Start(newState, newSize)
    {
      state := newState;
      reader := part;
      at := 0;
      offset := 0;
      size := newSize;
    }

    // ---------------------------------------------------------------- sender

    /** Lines 282-291. */
    method Load(m: array<Byte>, h: Bytes -> U32)
      requires Valid() && m != header && m != buffer
      modifies this, header
      ensures Valid() && buf == m && Value() == SocketPipe.Load(old(Value()), m[..], h)
    {
      PutHeader(header, m.Length % 0x1_0000_0000, h(m[..]));
      buf := m;
      word := 0;
      dsize := m.Length;
      Start(SEND_HEADER_START, HEADER, header);
      assert header[..] == Header(m.Length % 0x1_0000_0000, h(m[..]));
    }

    /** What the socket takes when it accepts `k` bytes (line 297). */
    method Offered(k: nat) returns (b: Bytes)
      requires Valid() && Sending(Value()) && offset + k <= |Source(Value())|
      ensures b == Source(Value())[offset..offset + k]
    {
      b := reader[at..at + k];
    }

    /** Lines 319-329 and 336-346: the payload is copied, then hashed where it lies. */
    method LayOut(h: Bytes -> U32)
      requires Valid() && word <= dsize == buf.Length
      modifies this, buffer
      ensures Valid() && buf == old(buf) && Value() == NextBlock(old(Value()), h)
    {
      hide Enc32, Dec32;
      var n := if dsize - word < BLOCK then dsize - word else BLOCK;
      ghost var was, payload := buffer[..], buf[word..word + n];
      SpliceParts(was, HEADER, payload);
      LaidOut(was, Header(n, h(payload)), payload);
      hide Splice, Header;
      Copy(buffer, HEADER, buf[word..word + n]);
      ghost var copied := buffer[..];
      assert buffer[HEADER..HEADER + n] == copied[HEADER..HEADER + n] == payload;
      PutHeader(buffer, n, h(buffer[HEADER..HEADER + n]));
      word := word + n;
      Start(SEND_BLOCK_START, n + HEADER, buffer);
    }

    /** Lines 298-363: the socket has accepted `k` bytes. */
    method Wrote(k: nat, h: Bytes -> U32)
      requires Valid() && word <= dsize == buf.Length
      requires Sending(Value()) && offset + k <= |Source(Value())|
      modifies this, buffer
      ensures Valid() && buf == old(buf) && Value() == Sent(old(Value()), k, h)
    {
      hide Enc32, Dec32;
      offset := offset + k;
      at := at + k;
      if offset >= size {
        offset := size;
        state := Complete(state);
      }
      if state == SEND_HEADER_COMPLETE {
        LayOut(h);
      } else if state == SEND_BLOCK_COMPLETE {
        if word < dsize {
          LayOut(h);
        } else {
          word := word - word % 0x1_0000_0000 + HashIn(header[..]);
          Start(READ_HEADER_START, HEADER, header);
        }
      }
    }

    /** The socket delivers `b` to the reader (lines 60 and 367). */
    method Deliver(b: Bytes)
      requires Valid() && ReadingIn(Value())
      requires offset + |b| <= if state == READ_BLOCK_START then PACKAGE else HEADER
      modifies this`offset, this`at, header, buffer
      ensures Valid() && Value() == Fill(old(Value()), b)
    {
      Copy(reader, at, b);
      offset := offset + |b|;
      at := at + |b|;
    }

    /** Lines 366-393: the verdict on an answer, if it is complete. */
    method GotAnswer(b: Bytes) returns (verdict: Option<bool>)
      requires Valid() && state == READ_HEADER_START && offset + |b| <= HEADER
      modifies this, header, buffer
      ensures Valid() && Value() == AckRead(old(Value()), b).c
      ensures match AckRead(old(Value()), b)
              case Pending(_) => verdict == None
              case Matched(_) => verdict == Some(true)
              case Mismatched(_) => verdict == Some(false)
    {
      Deliver(b);
      verdict := None;
      if offset >= size {
        offset := size;
        state := Complete(state);
        verdict := Some(word % 0x1_0000_0000 == HashIn(header[..]));
      }
    }

    // -------------------------------------------------------------- receiver

    /** Lines 83-102: `mem` is what recv_before provides. */
    method ExpectData(mem: array<Byte>)
      requires header.Length == HEADER && buffer.Length == PACKAGE
      requires header != buffer && mem != header && mem != buffer
      modifies this
      ensures Valid()
      ensures Value() == old(Value()).(word := 0, dsize := SizeIn(old(header[..])), buf := mem[..])
                         .Start(READ_BLOCK_START, WireSize(SizeIn(old(header[..]))))
    {
      word := 0;
      dsize := SizeIn(header[..]);
      buf := mem;
      Start(READ_BLOCK_START, if dsize < BLOCK then dsize + HEADER else PACKAGE, buffer);
    }

    /** Lines 105-159: a block is complete; `open` is false when the connection is
        closed, `taken` is true when recv_after has accepted the data. */
    method EndBlock(h: Bytes -> U32, cb: Callbacks) returns (open: bool, taken: bool)
      requires header.Length == HEADER && buffer.Length == PACKAGE
      requires header != buffer && buf != header && buf != buffer && CopyFits(Value())
      modifies this, buf
      ensures match BlockDone(old(Value()), h, cb)
              case Closed => !open
              case Going(c) => open && !taken && Valid() && Value() == c
              case Answering(c) => open && taken && Valid() && Value() == c
    {
      var n := SizeIn(buffer[..]);
      Copy(buf, word, buffer[HEADER..HEADER + n]);
      open, taken := true, false;
      if h(buffer[HEADER..size]) != HashIn(buffer[..]) {
        open := false;
        return;
      }
      word := word + n;
      if word >= dsize {
        if h(buf[..]) != HashIn(header[..]) || !cb.after {
          open := false;
        } else {
          taken := true;
          Start(SEND_HEADER_START, HEADER, header);
        }
      } else {
        Start(READ_BLOCK_START, if dsize - word < BLOCK then dsize - word + HEADER else PACKAGE, buffer);
      }
    }

    /** Lines 59-162: bytes have arrived. */
    method Got(b: Bytes, mem: array<Byte>, h: Bytes -> U32, cb: Callbacks) returns (open: bool, taken: bool)
      requires Valid() && ReadingIn(Value()) && mem != header && mem != buffer && mem[..] == cb.mem
      requires offset + |b| <= if state == READ_BLOCK_START then PACKAGE else HEADER
      requires state == READ_BLOCK_START && offset + |b| >= size ==> CopyFits(Fill(Value(), b).(offset := size))
      modifies this, header, buffer, buf
      ensures match Received(old(Value()), b, h, cb)
              case Closed => !open
              case Going(c) => open && !taken && Valid() && Value() == c
              case Answering(c) => open && taken && Valid() && Value() == c
    {
      Deliver(b);
      open, taken := true, false;
      if offset >= size {
        offset := size;
        state := Complete(state);
      }
      if state == READ_HEADER_COMPLETE {
        if cb.before {
          ExpectData(mem);
        } else {
          open := false;
        }
      } else if state == READ_BLOCK_COMPLETE {
        open, taken := EndBlock(h, cb);
      }
    }

    /** Lines 166-197: the socket has accepted `k` bytes of the answer. */
    method WroteAnswer(k: nat)
      requires Valid() && state == SEND_HEADER_START
      modifies this
      ensures Valid() && Value() == Answered(old(Value()), k)
    {
      offset := offset + k;
      at := at + k;
      if offset >= size {
        offset := size;
        state := Complete(state);
      }
      if state == SEND_HEADER_COMPLETE {
        Start(DISABLED, 0, header);
      }
    }
  }

  /** Payload first and header second is the same as the whole block at once. */
  lemma LaidOut(s: Bytes, header: Bytes, payload: Bytes)
    requires |header| == HEADER && HEADER + |payload| <= |s|
    ensures Splice(Splice(s, HEADER, payload), 0, header) == Splice(s, 0, header + payload)
  {
  }
}
