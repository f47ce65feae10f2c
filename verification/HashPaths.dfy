/**
 The functions of src/lib/frl_hash_func.c.  A key lies in memory, an array of bytes
 indexed by address; what is read from it, and how, depends on the address.  Memory
 ends at a word boundary, so that an aligned word of which one byte is in memory is in
 memory as a whole.
 */
module HashPaths {
  import opened Lookup3

  /** *(uint32_t*)p on a machine of order `o`. */
  function Read32(o: Order, mem: array<bv8>, p: nat): bv32
    requires p % 4 == 0 && p + 4 <= mem.Length
    reads mem
  {
    Word(o, mem[p], mem[p + 1], mem[p + 2], mem[p + 3])
  }

  function And(x: bv32, y: bv32): bv32 { x & y }

  /** The mask for the first `n` bytes of a word in memory. */
  function Mask(o: Order, n: nat): bv32
    requires 1 <= n <= 3
  {
    if o == Little then if n == 3 then 0xffffff else if n == 2 then 0xffff else 0xff
    else if n == 3 then 0xffffff00 else if n == 2 then 0xffff0000 else 0xff000000
  }

  lemma LittleThree(b0: bv8, b1: bv8, b2: bv8, b3: bv8)
    ensures And(LittleWord(b0, b1, b2, b3), 0xffffff) == LittleWord(b0, b1, b2, 0)
  {
  }

  lemma LittleTwo(b0: bv8, b1: bv8, b2: bv8, b3: bv8)
    ensures And(LittleWord(b0, b1, b2, b3), 0xffff) == LittleWord(b0, b1, 0, 0)
  {
  }

  lemma LittleOne(b0: bv8, b1: bv8, b2: bv8, b3: bv8)
    ensures And(LittleWord(b0, b1, b2, b3), 0xff) == LittleWord(b0, 0, 0, 0)
  {
  }

  lemma BigThree(b0: bv8, b1: bv8, b2: bv8, b3: bv8)
    ensures And(LittleWord(b3, b2, b1, b0), 0xffffff00) == LittleWord(0, b2, b1, b0)
  {
  }

  lemma BigTwo(b0: bv8, b1: bv8, b2: bv8, b3: bv8)
    ensures And(LittleWord(b3, b2, b1, b0), 0xffff0000) == LittleWord(0, 0, b1, b0)
  {
  }

  lemma BigOne(b0: bv8, b1: bv8, b2: bv8, b3: bv8)
    ensures And(LittleWord(b3, b2, b1, b0), 0xff000000) == LittleWord(0, 0, 0, b0)
  {
  }

  /** The masks leave just the bytes that belong to the key. */
  lemma MaskedWord(o: Order, b0: bv8, b1: bv8, b2: bv8, b3: bv8, n: nat)
    requires 1 <= n <= 3
    ensures And(Word(o, b0, b1, b2, b3), Mask(o, n))
            == Word(o, b0, if n > 1 then b1 else 0, if n > 2 then b2 else 0, 0)
  {
    if o == Little {
      if n == 3 {
        LittleThree(b0, b1, b2, b3);
      } else if n == 2 {
        LittleTwo(b0, b1, b2, b3);
      } else {
        LittleOne(b0, b1, b2, b3);
      }
    } else {
      if n == 3 {
        BigThree(b0, b1, b2, b3);
      } else if n == 2 {
        BigTwo(b0, b1, b2, b3);
      } else {
        BigOne(b0, b1, b2, b3);
      }
    }
  }

  /** A read inside the key is a word of the key. */
  lemma ReadsWord(o: Order, mem: array<bv8>, k: nat, length: nat, i: nat)
    requires k % 4 == 0 && k + length <= mem.Length && i % 4 == 0 && i + 4 <= length
    ensures Read32(o, mem, k + i) == WordAt(o, mem[k..k + length], i)
  {
  }

  lemma ReadsBlock(o: Order, mem: array<bv8>, k: nat, length: nat, t: State)
    requires k % 4 == 0 && k + length <= mem.Length && 12 <= length
    ensures State(Add(t.a, Read32(o, mem, k)), Add(t.b, Read32(o, mem, k + 4)), Add(t.c, Read32(o, mem, k + 8)))
            == Absorb(o, t, mem[k..k + length])
  {
    ReadsWord(o, mem, k, length, 0);
    ReadsWord(o, mem, k, length, 4);
    ReadsWord(o, mem, k, length, 8);
  }

  /** A read across the end of the key, masked, is a word of the key: the bytes behind
      the key do not matter. */
  lemma ReadsPart(o: Order, mem: array<bv8>, k: nat, length: nat, i: nat)
    requires k % 4 == 0 && mem.Length % 4 == 0 && k + length <= mem.Length && i % 4 == 0 && i < length < i + 4
    ensures And(Read32(o, mem, k + i), Mask(o, length - i)) == WordAt(o, mem[k..k + length], i)
  {
    var p := k + i;
    MaskedWord(o, mem[p], mem[p + 1], mem[p + 2], mem[p + 3], length - i);
  }

  /** What the last reads at address `p` give for a word `w` of which the first `n` bytes
      belong to the key. */
  ghost predicate TailWord(o: Order, mem: array<bv8>, p: nat, n: int, w: bv32)
    requires p % 4 == 0 && mem.Length % 4 == 0 && p + n <= mem.Length
    reads mem
  {
    && (n >= 4 ==> Read32(o, mem, p) == w)
    && (1 <= n <= 3 ==> And(Read32(o, mem, p), Mask(o, n)) == w)
    && (n <= 0 ==> w == 0)
  }

  lemma TailWordHolds(o: Order, mem: array<bv8>, k: nat, length: nat, i: nat) returns (w: bv32)
    requires k % 4 == 0 && mem.Length % 4 == 0 && k + length <= mem.Length && i % 4 == 0
    ensures w == WordAt(o, mem[k..k + length], i) && TailWord(o, mem, k + i, length - i, w)
  {
    w := WordAt(o, mem[k..k + length], i);
    if length >= i + 4 {
      ReadsWord(o, mem, k, length, i);
    } else if i < length {
      ReadsPart(o, mem, k, length, i);
    } else {
      ZeroWord(o);
    }
  }

  /** The three words of the last block. */
  lemma TailWords(o: Order, mem: array<bv8>, k: nat, length: nat, t: State) returns (w0: bv32, w4: bv32, w8: bv32)
    requires k % 4 == 0 && mem.Length % 4 == 0 && k + length <= mem.Length
    ensures TailWord(o, mem, k, length, w0) && TailWord(o, mem, k + 4, length - 4, w4)
            && TailWord(o, mem, k + 8, length - 8, w8)
    ensures Absorb(o, t, mem[k..k + length]) == State(Add(t.a, w0), Add(t.b, w4), Add(t.c, w8))
    ensures Add(t.b, 0) == t.b && Add(t.c, 0) == t.c
  {
    w0 := TailWordHolds(o, mem, k, length, 0);
    w4 := TailWordHolds(o, mem, k, length, 4);
    w8 := TailWordHolds(o, mem, k, length, 8);
    AddZero(t.b);
    AddZero(t.c);
  }

  lemma NoState(o: Order, s: seq<bv8>, t: State)
    requires |s| == 0
    ensures HashState(o, s, t) == t
  {
  }

  lemma LastState(o: Order, s: seq<bv8>, t: State, u: State)
    requires 1 <= |s| <= 12 && u == Absorb(o, t, s)
    ensures HashState(o, s, t) == Final(u)
  {
  }

  lemma NextState(o: Order, s: seq<bv8>, rest: seq<bv8>, t: State, u: State)
    requires |s| > 12 && rest == s[12..] && u == Absorb(o, t, s)
    ensures HashState(o, s, t) == HashState(o, rest, Mix(u))
  {
  }

  lemma SixLines(t: State, ks: seq<Shift>)
    requires |ks| == 6
    ensures MixLines(t, ks)
            == MixLine(MixLine(MixLine(MixLine(MixLine(MixLine(t, ks[0]), ks[1]), ks[2]), ks[3]), ks[4]), ks[5])
  {
    hide MixLine;
    var u1 := MixLine(t, ks[0]);
    var u2 := MixLine(u1, ks[1]);
    var u3 := MixLine(u2, ks[2]);
    var u4 := MixLine(u3, ks[3]);
    assert MixLines(t, ks) == MixLines(u1, ks[1..]);
    assert MixLines(u1, ks[1..]) == MixLines(u2, ks[1..][1..]) && ks[1..][1..] == ks[2..];
    assert MixLines(u2, ks[2..]) == MixLines(u3, ks[2..][1..]) && ks[2..][1..] == ks[3..];
    assert MixLines(u3, ks[3..]) == MixLines(u4, ks[3..][1..]) && ks[3..][1..] == ks[4..];
    assert MixLines(u4, ks[4..]) == MixLines(MixLine(u4, ks[4]), ks[4..][1..]) && ks[4..][1..] == [ks[5]];
    assert MixLines(MixLine(u4, ks[4]), [ks[5]]) == MixLines(MixLine(MixLine(u4, ks[4]), ks[5]), [ks[5]][1..]);
    assert [ks[5]][1..] == [];
  }

  lemma SevenLines(t: State, ks: seq<Shift>)
    requires |ks| == 7
    ensures FinalLines(t, ks) == FinalLine(FinalLine(FinalLine(FinalLine(FinalLine(FinalLine(FinalLine(
            t, ks[0]), ks[1]), ks[2]), ks[3]), ks[4]), ks[5]), ks[6])
  {
    hide FinalLine;
    var u1 := FinalLine(t, ks[0]);
    var u2 := FinalLine(u1, ks[1]);
    var u3 := FinalLine(u2, ks[2]);
    var u4 := FinalLine(u3, ks[3]);
    var u5 := FinalLine(u4, ks[4]);
    assert FinalLines(t, ks) == FinalLines(u1, ks[1..]);
    assert FinalLines(u1, ks[1..]) == FinalLines(u2, ks[1..][1..]) && ks[1..][1..] == ks[2..];
    assert FinalLines(u2, ks[2..]) == FinalLines(u3, ks[2..][1..]) && ks[2..][1..] == ks[3..];
    assert FinalLines(u3, ks[3..]) == FinalLines(u4, ks[3..][1..]) && ks[3..][1..] == ks[4..];
    assert FinalLines(u4, ks[4..]) == FinalLines(u5, ks[4..][1..]) && ks[4..][1..] == ks[5..];
    assert FinalLines(u5, ks[5..]) == FinalLines(FinalLine(u5, ks[5]), ks[5..][1..]) && ks[5..][1..] == [ks[6]];
    assert FinalLines(FinalLine(u5, ks[5]), [ks[6]])
        == FinalLines(FinalLine(FinalLine(u5, ks[5]), ks[6]), [ks[6]][1..]);
    assert [ks[6]][1..] == [];
  }

  /** The macro mix(a, b, c); Fold stands for a subtraction and an exclusive or. */
  method MixInPlace(a0: bv32, b0: bv32, c0: bv32) returns (a: bv32, b: bv32, c: bv32)
    ensures State(a, b, c) == Mix(State(a0, b0, c0))
  {
    hide Add, Fold, Rot, MixLines;
    a, b, c := a0, b0, c0;
    a := Fold(a, c, Rot(c, 4));   c := Add(c, b);
    b := Fold(b, a, Rot(a, 6));   a := Add(a, c);
    c := Fold(c, b, Rot(b, 8));   b := Add(b, a);
    a := Fold(a, c, Rot(c, 16));  c := Add(c, b);
    b := Fold(b, a, Rot(a, 19));  a := Add(a, c);
    c := Fold(c, b, Rot(b, 4));   b := Add(b, a);
    SixLines(State(a0, b0, c0), MIX_SHIFTS);
    assert MIX_SHIFTS == [4, 6, 8, 16, 19, 4];
  }

  /** The macro final(a, b, c). */
  method FinalInPlace(a0: bv32, b0: bv32, c0: bv32) returns (a: bv32, b: bv32, c: bv32)
    ensures State(a, b, c) == Final(State(a0, b0, c0))
  {
    hide Tweak, Rot, FinalLines;
    a, b, c := a0, b0, c0;
    c := Tweak(c, b, Rot(b, 14));
    a := Tweak(a, c, Rot(c, 11));
    b := Tweak(b, a, Rot(a, 25));
    c := Tweak(c, b, Rot(b, 16));
    a := Tweak(a, c, Rot(c, 4));
    b := Tweak(b, a, Rot(a, 14));
    c := Tweak(c, b, Rot(b, 24));
    SevenLines(State(a0, b0, c0), FINAL_SHIFTS);
    assert FINAL_SHIFTS == [14, 11, 25, 16, 4, 14, 24];
  }

  // ------------------------------------------------------- one word at a time

  /** Cases 12 to 9 of the switch; `w0`, `w4` and `w8` are the words there. */
  method WordCases12(o: Order, mem: array<bv8>, k: nat, length: nat, a0: bv32, b0: bv32, c0: bv32,
                     ghost w0: bv32, ghost w4: bv32, ghost w8: bv32)
    returns (a: bv32, b: bv32, c: bv32)
    requires k % 4 == 0 && mem.Length % 4 == 0 && k + length <= mem.Length && 9 <= length <= 12
    requires TailWord(o, mem, k, length, w0)
    requires TailWord(o, mem, k + 4, length - 4, w4)
    requires TailWord(o, mem, k + 8, length - 8, w8)
    ensures a == Add(a0, w0) && b == Add(b0, w4) && c == Add(c0, w8)
  {
    hide Read32, And, Add, Mask;
    a, b, c := a0, b0, c0;
    assert (k + 4) % 4 == 0 && (k + 8) % 4 == 0 && k + 12 <= mem.Length;
    match length {
      case 12 => c := Add(c, Read32(o, mem, k + 8)); b := Add(b, Read32(o, mem, k + 4)); a := Add(a, Read32(o, mem, k));
      case 11 =>
        c := Add(c, And(Read32(o, mem, k + 8), Mask(o, 3)));
        b := Add(b, Read32(o, mem, k + 4));
        a := Add(a, Read32(o, mem, k));
      case 10 =>
        c := Add(c, And(Read32(o, mem, k + 8), Mask(o, 2)));
        b := Add(b, Read32(o, mem, k + 4));
        a := Add(a, Read32(o, mem, k));
      case _ =>
        c := Add(c, And(Read32(o, mem, k + 8), Mask(o, 1)));
        b := Add(b, Read32(o, mem, k + 4));
        a := Add(a, Read32(o, mem, k));
    }
  }

  /** Cases 8 to 5 of the switch; `w0`, `w4` and `w8` are the words there. */
  method WordCases8(o: Order, mem: array<bv8>, k: nat, length: nat, a0: bv32, b0: bv32, c0: bv32,
                     ghost w0: bv32, ghost w4: bv32, ghost w8: bv32)
    returns (a: bv32, b: bv32, c: bv32)
    requires k % 4 == 0 && mem.Length % 4 == 0 && k + length <= mem.Length && 5 <= length <= 8
    requires TailWord(o, mem, k, length, w0)
    requires TailWord(o, mem, k + 4, length - 4, w4)
    requires TailWord(o, mem, k + 8, length - 8, w8)
    ensures a == Add(a0, w0) && b == Add(b0, w4) && c == Add(c0, w8)
  {
    hide Read32, And, Add, Mask;
    a, b, c := a0, b0, c0;
    AddZero(c0);
    assert (k + 4) % 4 == 0 && k + 8 <= mem.Length;
    match length {
      case 8 => b := Add(b, Read32(o, mem, k + 4)); a := Add(a, Read32(o, mem, k));
      case 7 => b := Add(b, And(Read32(o, mem, k + 4), Mask(o, 3))); a := Add(a, Read32(o, mem, k));
      case 6 => b := Add(b, And(Read32(o, mem, k + 4), Mask(o, 2))); a := Add(a, Read32(o, mem, k));
      case _ => b := Add(b, And(Read32(o, mem, k + 4), Mask(o, 1))); a := Add(a, Read32(o, mem, k));
    }
  }

  /** Cases 4 to 1 of the switch; `w0`, `w4` and `w8` are the words there. */
  method WordCases4(o: Order, mem: array<bv8>, k: nat, length: nat, a0: bv32, b0: bv32, c0: bv32,
                     ghost w0: bv32, ghost w4: bv32, ghost w8: bv32)
    returns (a: bv32, b: bv32, c: bv32)
    requires k % 4 == 0 && mem.Length % 4 == 0 && k + length <= mem.Length && 1 <= length <= 4
    requires TailWord(o, mem, k, length, w0)
    requires TailWord(o, mem, k + 4, length - 4, w4)
    requires TailWord(o, mem, k + 8, length - 8, w8)
    ensures a == Add(a0, w0) && b == Add(b0, w4) && c == Add(c0, w8)
  {
    hide Read32, And, Add, Mask;
    a, b, c := a0, b0, c0;
    AddZero(b0);
    AddZero(c0);
    assert k + 4 <= mem.Length;
    match length {
      case 4 => a := Add(a, Read32(o, mem, k));
      case 3 => a := Add(a, And(Read32(o, mem, k), Mask(o, 3)));
      case 2 => a := Add(a, And(Read32(o, mem, k), Mask(o, 2)));
      case _ => a := Add(a, And(Read32(o, mem, k), Mask(o, 1)));
    }
  }

  /** The last block: the reads may go behind the key and are masked; an empty key is
      not mixed. */
  method WordTail(o: Order, mem: array<bv8>, k: nat, length: nat, a0: bv32, b0: bv32, c0: bv32)
    returns (a: bv32, b: bv32, c: bv32)
    requires k % 4 == 0 && mem.Length % 4 == 0 && k + length <= mem.Length && length <= 12
    ensures State(a, b, c) == HashState(o, mem[k..k + length], State(a0, b0, c0))
  {
    hide *;
    a, b, c := a0, b0, c0;
    if length == 0 {
      NoState(o, mem[k..k + length], State(a, b, c));
      return;
    }
    ghost var w0, w4, w8 := TailWords(o, mem, k, length, State(a, b, c));
    if length > 8 {
      a, b, c := WordCases12(o, mem, k, length, a, b, c, w0, w4, w8);
    } else if length > 4 {
      a, b, c := WordCases8(o, mem, k, length, a, b, c, w0, w4, w8);
    } else {
      a, b, c := WordCases4(o, mem, k, length, a, b, c, w0, w4, w8);
    }
    LastState(o, mem[k..k + length], State(a0, b0, c0), State(a, b, c));
    a, b, c := FinalInPlace(a, b, c);
  }

  /** One turn of the loop over all but the last block. */
  method WordBlock(o: Order, mem: array<bv8>, k: nat, length: nat, a0: bv32, b0: bv32, c0: bv32)
    returns (a: bv32, b: bv32, c: bv32)
    requires k % 4 == 0 && k + length <= mem.Length && length > 12
    ensures HashState(o, mem[k + 12..k + length], State(a, b, c))
         == HashState(o, mem[k..k + length], State(a0, b0, c0))
  {
    hide *;
    a, b, c := a0, b0, c0;
    a := Add(a, Read32(o, mem, k));
    b := Add(b, Read32(o, mem, k + 4));
    c := Add(c, Read32(o, mem, k + 8));
    ReadsBlock(o, mem, k, length, State(a0, b0, c0));
    assert mem[k + 12..k + length] == mem[k..k + length][12..];
    NextState(o, mem[k..k + length], mem[k + 12..k + length], State(a0, b0, c0), State(a, b, c));
    a, b, c := MixInPlace(a, b, c);
  }

  /** The key is at a multiple of 4 on a machine of the hash's own byte order. */
  method WordPath(o: Order, mem: array<bv8>, key: nat, len: nat, a0: bv32, b0: bv32, c0: bv32)
    returns (a: bv32, b: bv32, c: bv32)
    requires key % 4 == 0 && mem.Length % 4 == 0 && key + len <= mem.Length
    ensures State(a, b, c) == HashState(o, mem[key..key + len], State(a0, b0, c0))
  {
    hide *;
    var k: nat, length: nat := key, len;
    a, b, c := a0, b0, c0;
    while length > 12
      invariant k % 4 == 0 && k + length == key + len
      invariant HashState(o, mem[k..k + length], State(a, b, c))
             == HashState(o, mem[key..key + len], State(a0, b0, c0))
    {
      a, b, c := WordBlock(o, mem, k, length, a, b, c);
      length := length - 12;
      k := k + 12;
    }
    a, b, c := WordTail(o, mem, k, length, a, b, c);
  }

  // ------------------------------------------------------- one byte at a time

  lemma AddAssoc(x: bv32, y: bv32, z: bv32)
    ensures Add(Add(x, y), z) == Add(x, Add(y, z))
  {
    assert Add(x + y, z) == Add(x, y + z);
  }

  lemma Put0(b0: bv8, b1: bv8, b2: bv8, b3: bv8)
    ensures Add(LittleWord(0, b1, b2, b3), b0 as bv32) == LittleWord(b0, b1, b2, b3)
  {
  }

  lemma Put1(b0: bv8, b1: bv8, b2: bv8, b3: bv8)
    ensures Add(LittleWord(b0, 0, b2, b3), (b1 as bv32) << 8) == LittleWord(b0, b1, b2, b3)
  {
  }

  lemma Put2(b0: bv8, b1: bv8, b2: bv8, b3: bv8)
    ensures Add(LittleWord(b0, b1, 0, b3), (b2 as bv32) << 16) == LittleWord(b0, b1, b2, b3)
  {
  }

  lemma Put3(b0: bv8, b1: bv8, b2: bv8, b3: bv8)
    ensures Add(LittleWord(b0, b1, b2, 0), (b3 as bv32) << 24) == LittleWord(b0, b1, b2, b3)
  {
  }

  /** Adding one byte of a word to a sum that has some of the others. */
  lemma More0(x: bv32, b0: bv8, b1: bv8, b2: bv8, b3: bv8)
    ensures Add(Add(x, LittleWord(0, b1, b2, b3)), b0 as bv32) == Add(x, LittleWord(b0, b1, b2, b3))
  {
    hide *;
    Put0(b0, b1, b2, b3);
    AddAssoc(x, LittleWord(0, b1, b2, b3), b0 as bv32);
  }

  lemma More1(x: bv32, b0: bv8, b1: bv8, b2: bv8, b3: bv8)
    ensures Add(Add(x, LittleWord(b0, 0, b2, b3)), (b1 as bv32) << 8) == Add(x, LittleWord(b0, b1, b2, b3))
  {
    hide *;
    Put1(b0, b1, b2, b3);
    AddAssoc(x, LittleWord(b0, 0, b2, b3), (b1 as bv32) << 8);
  }

  lemma More2(x: bv32, b0: bv8, b1: bv8, b2: bv8, b3: bv8)
    ensures Add(Add(x, LittleWord(b0, b1, 0, b3)), (b2 as bv32) << 16) == Add(x, LittleWord(b0, b1, b2, b3))
  {
    hide *;
    Put2(b0, b1, b2, b3);
    AddAssoc(x, LittleWord(b0, b1, 0, b3), (b2 as bv32) << 16);
  }

  lemma More3(x: bv32, b0: bv8, b1: bv8, b2: bv8, b3: bv8)
    ensures Add(Add(x, LittleWord(b0, b1, b2, 0)), (b3 as bv32) << 24) == Add(x, LittleWord(b0, b1, b2, b3))
  {
    hide *;
    Put3(b0, b1, b2, b3);
    AddAssoc(x, LittleWord(b0, b1, b2, 0), (b3 as bv32) << 24);
  }

  lemma NoBytes(x: bv32)
    ensures Add(x, LittleWord(0, 0, 0, 0)) == x
  {
    ZeroWord(Little);
    AddZero(x);
  }

  /** The four bytes of a word are added in turn (lines 410-421, 595-606 and 725-736). */
  method LittleAddWord(mem: array<bv8>, p: nat, x0: bv32) returns (x: bv32)
    requires p + 4 <= mem.Length
    ensures x == Add(x0, Word(Little, mem[p], mem[p + 1], mem[p + 2], mem[p + 3]))
  {
    hide Add, LittleWord;
    x := x0;
    NoBytes(x0);
    x := Add(x, mem[p] as bv32);
    More0(x0, mem[p], 0, 0, 0);
    x := Add(x, (mem[p + 1] as bv32) << 8);
    More1(x0, mem[p], mem[p + 1], 0, 0);
    x := Add(x, (mem[p + 2] as bv32) << 16);
    More2(x0, mem[p], mem[p + 1], mem[p + 2], 0);
    x := Add(x, (mem[p + 3] as bv32) << 24);
    More3(x0, mem[p], mem[p + 1], mem[p + 2], mem[p + 3]);
  }

  method BigAddWord(mem: array<bv8>, p: nat, x0: bv32) returns (x: bv32)
    requires p + 4 <= mem.Length
    ensures x == Add(x0, Word(Big, mem[p], mem[p + 1], mem[p + 2], mem[p + 3]))
  {
    hide Add, LittleWord;
    x := x0;
    NoBytes(x0);
    x := Add(x, (mem[p] as bv32) << 24);
    More3(x0, 0, 0, 0, mem[p]);
    x := Add(x, (mem[p + 1] as bv32) << 16);
    More2(x0, 0, 0, mem[p + 1], mem[p]);
    x := Add(x, (mem[p + 2] as bv32) << 8);
    More1(x0, 0, mem[p + 2], mem[p + 1], mem[p]);
    x := Add(x, mem[p + 3] as bv32);
    More0(x0, mem[p + 3], mem[p + 2], mem[p + 1], mem[p]);
  }

  /** Four cases of the switch that falls through: the first `n` bytes of a word are
      added, the last of them first. */
  method LittleAddPart(mem: array<bv8>, p: nat, n: nat, x0: bv32) returns (x: bv32)
    requires n <= 4 && p + n <= mem.Length
    ensures x == Add(x0, Word(Little, if n > 0 then mem[p] else 0, if n > 1 then mem[p + 1] else 0,
                                 if n > 2 then mem[p + 2] else 0, if n > 3 then mem[p + 3] else 0))
  {
    hide Add, LittleWord;
    x := x0;
    NoBytes(x0);
    ghost var b0: bv8 := if n > 0 then mem[p] else 0;
    ghost var b1: bv8 := if n > 1 then mem[p + 1] else 0;
    ghost var b2: bv8 := if n > 2 then mem[p + 2] else 0;
    ghost var b3: bv8 := if n > 3 then mem[p + 3] else 0;
    if n > 3 {
      x := Add(x, (mem[p + 3] as bv32) << 24);
      More3(x0, 0, 0, 0, b3);
    }
    assert x == Add(x0, LittleWord(0, 0, 0, b3));
    if n > 2 {
      x := Add(x, (mem[p + 2] as bv32) << 16);
      More2(x0, 0, 0, b2, b3);
    }
    assert x == Add(x0, LittleWord(0, 0, b2, b3));
    if n > 1 {
      x := Add(x, (mem[p + 1] as bv32) << 8);
      More1(x0, 0, b1, b2, b3);
    }
    assert x == Add(x0, LittleWord(0, b1, b2, b3));
    if n > 0 {
      x := Add(x, mem[p] as bv32);
      More0(x0, b0, b1, b2, b3);
    }
    assert x == Add(x0, LittleWord(b0, b1, b2, b3));
  }

  /** Four cases of the switch that falls through: the first `n` bytes of a word are
      added, the last of them first. */
  method BigAddPart(mem: array<bv8>, p: nat, n: nat, x0: bv32) returns (x: bv32)
    requires n <= 4 && p + n <= mem.Length
    ensures x == Add(x0, Word(Big, if n > 0 then mem[p] else 0, if n > 1 then mem[p + 1] else 0,
                                 if n > 2 then mem[p + 2] else 0, if n > 3 then mem[p + 3] else 0))
  {
    hide Add, LittleWord;
    x := x0;
    NoBytes(x0);
    ghost var b0: bv8 := if n > 0 then mem[p] else 0;
    ghost var b1: bv8 := if n > 1 then mem[p + 1] else 0;
    ghost var b2: bv8 := if n > 2 then mem[p + 2] else 0;
    ghost var b3: bv8 := if n > 3 then mem[p + 3] else 0;
    if n > 3 {
      x := Add(x, mem[p + 3] as bv32);
      More0(x0, b3, 0, 0, 0);
    }
    assert x == Add(x0, LittleWord(b3, 0, 0, 0));
    if n > 2 {
      x := Add(x, (mem[p + 2] as bv32) << 8);
      More1(x0, b3, b2, 0, 0);
    }
    assert x == Add(x0, LittleWord(b3, b2, 0, 0));
    if n > 1 {
      x := Add(x, (mem[p + 1] as bv32) << 16);
      More2(x0, b3, b2, b1, 0);
    }
    assert x == Add(x0, LittleWord(b3, b2, b1, 0));
    if n > 0 {
      x := Add(x, (mem[p] as bv32) << 24);
      More3(x0, b3, b2, b1, b0);
    }
    assert x == Add(x0, LittleWord(b3, b2, b1, b0));
  }

  /** What the first `n` bytes from `k + i` on give for the word at `i` of the key. */
  lemma PartIsWord(o: Order, mem: array<bv8>, k: nat, length: nat, i: nat, n: nat)
    requires k + length <= mem.Length && n <= 4
    requires n == if length >= i + 4 then 4 else if length > i then length - i else 0
    ensures WordAt(o, mem[k..k + length], i)
            == Word(o, if n > 0 then mem[k + i] else 0, if n > 1 then mem[k + i + 1] else 0,
                       if n > 2 then mem[k + i + 2] else 0, if n > 3 then mem[k + i + 3] else 0)
  {
    hide Word;
  }

  method ByteBlock(o: Order, mem: array<bv8>, k: nat, length: nat, a0: bv32, b0: bv32, c0: bv32)
    returns (a: bv32, b: bv32, c: bv32)
    requires k + length <= mem.Length && length > 12
    ensures HashState(o, mem[k + 12..k + length], State(a, b, c))
         == HashState(o, mem[k..k + length], State(a0, b0, c0))
  {
    hide Add, Word, WordAt, Mix, HashState;
    if o == Little {
      a := LittleAddWord(mem, k, a0);
      b := LittleAddWord(mem, k + 4, b0);
      c := LittleAddWord(mem, k + 8, c0);
    } else {
      a := BigAddWord(mem, k, a0);
      b := BigAddWord(mem, k + 4, b0);
      c := BigAddWord(mem, k + 8, c0);
    }
    PartIsWord(o, mem, k, length, 0, 4);
    PartIsWord(o, mem, k, length, 4, 4);
    PartIsWord(o, mem, k, length, 8, 4);
    assert mem[k + 12..k + length] == mem[k..k + length][12..];
    NextState(o, mem[k..k + length], mem[k + 12..k + length], State(a0, b0, c0), State(a, b, c));
    a, b, c := MixInPlace(a, b, c);
  }

  method ByteTail(o: Order, mem: array<bv8>, k: nat, length: nat, a0: bv32, b0: bv32, c0: bv32)
    returns (a: bv32, b: bv32, c: bv32)
    requires k + length <= mem.Length && length <= 12
    ensures State(a, b, c) == HashState(o, mem[k..k + length], State(a0, b0, c0))
  {
    hide Add, Word, WordAt, Final, HashState;
    a, b, c := a0, b0, c0;
    if length == 0 {
      NoState(o, mem[k..k + length], State(a, b, c));
      return;
    }
    var na := if length >= 4 then 4 else length;
    var nb := if length >= 8 then 4 else if length > 4 then length - 4 else 0;
    var nc := if length > 8 then length - 8 else 0;
    var pb, pc := if nb > 0 then k + 4 else k, if nc > 0 then k + 8 else k;
    if o == Little {
      c := LittleAddPart(mem, pc, nc, c);
      b := LittleAddPart(mem, pb, nb, b);
      a := LittleAddPart(mem, k, na, a);
    } else {
      c := BigAddPart(mem, pc, nc, c);
      b := BigAddPart(mem, pb, nb, b);
      a := BigAddPart(mem, k, na, a);
    }
    PartIsWord(o, mem, k, length, 0, na);
    PartIsWord(o, mem, k, length, 4, nb);
    PartIsWord(o, mem, k, length, 8, nc);
    LastState(o, mem[k..k + length], State(a0, b0, c0), State(a, b, c));
    a, b, c := FinalInPlace(a, b, c);
  }

  /** The key is anywhere (lines 404-448, 589-633 and 719-763). */
  method BytePath(o: Order, mem: array<bv8>, key: nat, len: nat, a0: bv32, b0: bv32, c0: bv32)
    returns (a: bv32, b: bv32, c: bv32)
    requires key + len <= mem.Length
    ensures State(a, b, c) == HashState(o, mem[key..key + len], State(a0, b0, c0))
  {
    hide *;
    var k: nat, length: nat := key, len;
    a, b, c := a0, b0, c0;
    while length > 12
      invariant k + length == key + len
      invariant HashState(o, mem[k..k + length], State(a, b, c))
             == HashState(o, mem[key..key + len], State(a0, b0, c0))
    {
      a, b, c := ByteBlock(o, mem, k, length, a, b, c);
      length := length - 12;
      k := k + 12;
    }
    a, b, c := ByteTail(o, mem, k, length, a, b, c);
  }

  // -------------------------------------------------- one half-word at a time

  /** (uint32_t)*(uint16_t*)p on a little-endian machine. */
  function Read16(mem: array<bv8>, p: nat): bv32
    requires p % 2 == 0 && p + 2 <= mem.Length
    reads mem
  {
    LittleWord(mem[p], mem[p + 1], 0, 0)
  }

  function High(x: bv32): bv32 { x << 16 }

  lemma PutHalf(b0: bv8, b1: bv8, b2: bv8, b3: bv8)
    ensures Add(LittleWord(0, 0, b2, b3), LittleWord(b0, b1, 0, 0)) == LittleWord(b0, b1, b2, b3)
  {
  }

  lemma HighHalf(b2: bv8, b3: bv8)
    ensures High(LittleWord(b2, b3, 0, 0)) == LittleWord(0, 0, b2, b3)
  {
  }

  /** x += k[i] + (((uint32_t)k[i + 1]) << 16) */
  method AddHalves(mem: array<bv8>, p: nat, x0: bv32) returns (x: bv32)
    requires p % 2 == 0 && p + 4 <= mem.Length
    ensures x == Add(x0, Word(Little, mem[p], mem[p + 1], mem[p + 2], mem[p + 3]))
  {
    hide Add, LittleWord, High;
    x := Add(x0, Add(Read16(mem, p), High(Read16(mem, p + 2))));
    HighHalf(mem[p + 2], mem[p + 3]);
    PutHalf(mem[p], mem[p + 1], mem[p + 2], mem[p + 3]);
    AddCommutes(LittleWord(0, 0, mem[p + 2], mem[p + 3]), LittleWord(mem[p], mem[p + 1], 0, 0));
  }

  /** What the last block does with a word of which `n` bytes are in the key. */
  method AddHalfPart(mem: array<bv8>, p: nat, n: nat, x0: bv32) returns (x: bv32)
    requires p % 2 == 0 && n <= 4 && p + n <= mem.Length
    ensures x == Add(x0, Word(Little, if n > 0 then mem[p] else 0, if n > 1 then mem[p + 1] else 0,
                                      if n > 2 then mem[p + 2] else 0, if n > 3 then mem[p + 3] else 0))
  {
    hide Add, LittleWord, High;
    NoBytes(x0);
    match n {
      case 4 =>
        x := AddHalves(mem, p, x0);
      case 3 =>
        x := Add(x0, (mem[p + 2] as bv32) << 16);
        More2(x0, 0, 0, mem[p + 2], 0);
        assert x == Add(x0, LittleWord(0, 0, mem[p + 2], 0));
        x := Add(x, Read16(mem, p));
        AddAssoc(x0, LittleWord(0, 0, mem[p + 2], 0), LittleWord(mem[p], mem[p + 1], 0, 0));
        PutHalf(mem[p], mem[p + 1], mem[p + 2], 0);
      case 2 =>
        x := Add(x0, Read16(mem, p));
      case 1 =>
        x := Add(x0, mem[p] as bv32);
        More0(x0, mem[p], 0, 0, 0);
      case _ =>
        x := x0;
    }
  }

  method HalfBlock(mem: array<bv8>, k: nat, length: nat, a0: bv32, b0: bv32, c0: bv32)
    returns (a: bv32, b: bv32, c: bv32)
    requires k % 2 == 0 && k + length <= mem.Length && length > 12
    ensures HashState(Little, mem[k + 12..k + length], State(a, b, c))
         == HashState(Little, mem[k..k + length], State(a0, b0, c0))
  {
    hide Add, Word, WordAt, Mix, HashState;
    a := AddHalves(mem, k, a0);
    b := AddHalves(mem, k + 4, b0);
    c := AddHalves(mem, k + 8, c0);
    PartIsWord(Little, mem, k, length, 0, 4);
    PartIsWord(Little, mem, k, length, 4, 4);
    PartIsWord(Little, mem, k, length, 8, 4);
    assert mem[k + 12..k + length] == mem[k..k + length][12..];
    NextState(Little, mem[k..k + length], mem[k + 12..k + length], State(a0, b0, c0), State(a, b, c));
    a, b, c := MixInPlace(a, b, c);
  }

  method HalfTail(mem: array<bv8>, k: nat, length: nat, a0: bv32, b0: bv32, c0: bv32)
    returns (a: bv32, b: bv32, c: bv32)
    requires k % 2 == 0 && k + length <= mem.Length && length <= 12
    ensures State(a, b, c) == HashState(Little, mem[k..k + length], State(a0, b0, c0))
  {
    hide Add, Word, WordAt, Final, HashState;
    a, b, c := a0, b0, c0;
    if length == 0 {
      NoState(Little, mem[k..k + length], State(a, b, c));
      return;
    }
    var na := if length >= 4 then 4 else length;
    var nb := if length >= 8 then 4 else if length > 4 then length - 4 else 0;
    var nc := if length > 8 then length - 8 else 0;
    c := AddHalfPart(mem, if nc > 0 then k + 8 else k, nc, c);
    b := AddHalfPart(mem, if nb > 0 then k + 4 else k, nb, b);
    a := AddHalfPart(mem, k, na, a);
    PartIsWord(Little, mem, k, length, 0, na);
    PartIsWord(Little, mem, k, length, 4, nb);
    PartIsWord(Little, mem, k, length, 8, nc);
    LastState(Little, mem[k..k + length], State(a0, b0, c0), State(a, b, c));
    a, b, c := FinalInPlace(a, b, c);
  }

  /** The key is at a multiple of 2 on a little-endian machine (lines 357-402 and 542-587). */
  method HalfPath(mem: array<bv8>, key: nat, len: nat, a0: bv32, b0: bv32, c0: bv32)
    returns (a: bv32, b: bv32, c: bv32)
    requires key % 2 == 0 && key + len <= mem.Length
    ensures State(a, b, c) == HashState(Little, mem[key..key + len], State(a0, b0, c0))
  {
    hide *;
    var k: nat, length: nat := key, len;
    a, b, c := a0, b0, c0;
    while length > 12
      invariant k % 2 == 0 && k + length == key + len
      invariant HashState(Little, mem[k..k + length], State(a, b, c))
             == HashState(Little, mem[key..key + len], State(a0, b0, c0))
    {
      a, b, c := HalfBlock(mem, k, length, a, b, c);
      length := length - 12;
      k := k + 12;
    }
    a, b, c := HalfTail(mem, k, length, a, b, c);
  }

  // ------------------------------------------------------------ the functions

  /** hashlittle and hashlittle2 up to the end of their paths: which path is taken
      depends on the machine and the address. */
  method LittlePaths(machine: Order, mem: array<bv8>, key: nat, length: nat, a0: bv32, b0: bv32, c0: bv32)
    returns (a: bv32, b: bv32, c: bv32)
    requires mem.Length % 4 == 0 && key + length <= mem.Length
    ensures State(a, b, c) == HashState(Little, mem[key..key + length], State(a0, b0, c0))
  {
    hide *;
    if machine == Little && key % 4 == 0 {
      a, b, c := WordPath(Little, mem, key, length, a0, b0, c0);
    } else if machine == Little && key % 2 == 0 {
      a, b, c := HalfPath(mem, key, length, a0, b0, c0);
    } else {
      a, b, c := BytePath(Little, mem, key, length, a0, b0, c0);
    }
  }

  /** Lines 282-449: the hash is a function of the bytes of the key alone, whatever the
      machine, the address and the memory around the key. */
  method Hashlittle(machine: Order, mem: array<bv8>, key: nat, length: nat, initval: bv32) returns (h: bv32)
    requires mem.Length % 4 == 0 && key + length <= mem.Length
    ensures h == Hash(Little, mem[key..key + length], initval, 0).c
  {
    hide Truncated, HashState, Add;
    var a := Add(Add(0xdeadbeef, Truncated(length)), initval);
    var b, c := a, a;
    AddZero(a);
    a, b, c := LittlePaths(machine, mem, key, length, a, b, c);
    h := c;
  }

  /** Lines 462-634. */
  method Hashlittle2(machine: Order, mem: array<bv8>, key: nat, length: nat, pc0: bv32, pb0: bv32)
    returns (pc: bv32, pb: bv32)
    requires mem.Length % 4 == 0 && key + length <= mem.Length
    ensures pc == Hash(Little, mem[key..key + length], pc0, pb0).c
    ensures pb == Hash(Little, mem[key..key + length], pc0, pb0).b
  {
    hide Truncated, HashState, Add;
    var a := Add(Add(0xdeadbeef, Truncated(length)), pc0);
    var b, c := a, a;
    c := Add(c, pb0);
    a, b, c := LittlePaths(machine, mem, key, length, a, b, c);
    pc, pb := c, b;
  }

  /** Lines 644-764. */
  method Hashbig(machine: Order, mem: array<bv8>, key: nat, length: nat, initval: bv32) returns (h: bv32)
    requires mem.Length % 4 == 0 && key + length <= mem.Length
    ensures h == Hash(Big, mem[key..key + length], initval, 0).c
  {
    hide Truncated, HashState, Add;
    var a := Add(Add(0xdeadbeef, Truncated(length)), initval);
    var b, c := a, a;
    AddZero(a);
    if machine == Big && key % 4 == 0 {
      a, b, c := WordPath(Big, mem, key, length, a, b, c);
    } else {
      a, b, c := BytePath(Big, mem, key, length, a, b, c);
    }
    h := c;
  }

  lemma NoWords(ws: seq<bv32>, t: State)
    requires |ws| == 0
    ensures WordsState(ws, t) == t
  {
  }

  lemma LastWords(ws: seq<bv32>, t: State, u: State)
    requires 1 <= |ws| <= 3 && u == AbsorbWords(t, ws)
    ensures WordsState(ws, t) == Final(u)
  {
  }

  lemma NextWords(ws: seq<bv32>, rest: seq<bv32>, t: State, u: State)
    requires |ws| > 3 && rest == ws[3..] && u == AbsorbWords(t, ws)
    ensures WordsState(ws, t) == WordsState(rest, Mix(u))
  {
  }

  /** The loop and the switch of hashword and hashword2 (lines 184-203 and 230-249). */
  method WordArray(key: array<bv32>, len: nat, a0: bv32, b0: bv32, c0: bv32) returns (a: bv32, b: bv32, c: bv32)
    requires len <= key.Length
    ensures State(a, b, c) == WordsState(key[..len], State(a0, b0, c0))
  {
    hide Add, Mix, Final, WordsState;
    var k: nat, length: nat := 0, len;
    a, b, c := a0, b0, c0;
    assert key[0..len] == key[..len];
    while length > 3
      invariant k + length == len
      invariant WordsState(key[k..k + length], State(a, b, c)) == WordsState(key[..len], State(a0, b0, c0))
    {
      ghost var ws, rest, t := key[k..k + length], key[k + 3..k + length], State(a, b, c);
      a := Add(a, key[k]);
      b := Add(b, key[k + 1]);
      c := Add(c, key[k + 2]);
      assert rest == ws[3..];
      NextWords(ws, rest, t, State(a, b, c));
      a, b, c := MixInPlace(a, b, c);
      length := length - 3;
      k := k + 3;
    }
    ghost var ws, t := key[k..k + length], State(a, b, c);
    if length == 0 {
      NoWords(ws, t);
      return;
    }
    if length >= 3 { c := Add(c, key[k + 2]); }
    if length >= 2 { b := Add(b, key[k + 1]); }
    a := Add(a, key[k]);
    LastWords(ws, t, State(a, b, c));
    a, b, c := FinalInPlace(a, b, c);
  }

  /** Lines 173-206. */
  method Hashword(key: array<bv32>, length: nat, initval: bv32) returns (h: bv32)
    requires length <= key.Length
    ensures h == WordsState(key[..length], Seeded(TimesFour(Truncated(length)), initval, 0)).c
  {
    hide Truncated, WordsState, Add, TimesFour;
    var a := Add(Add(0xdeadbeef, TimesFour(Truncated(length))), initval);
    AddZero(a);
    var b, c := a, a;
    a, b, c := WordArray(key, length, a, b, c);
    h := c;
  }

  /** Lines 217-252; here the length is shifted before it is truncated.  With a zero
      second seed the first result is that of hashword. */
  method Hashword2(key: array<bv32>, length: nat, pc0: bv32, pb0: bv32) returns (pc: bv32, pb: bv32)
    requires length <= key.Length
    ensures pc == WordsState(key[..length], Seeded(Truncated(4 * length), pc0, pb0)).c
    ensures pb == WordsState(key[..length], Seeded(Truncated(4 * length), pc0, pb0)).b
    ensures pb0 == 0 ==> pc == WordsState(key[..length], Seeded(TimesFour(Truncated(length)), pc0, 0)).c
  {
    hide Truncated, WordsState, Add;
    TruncatedTimesFour(length);
    var a := Add(Add(0xdeadbeef, Truncated(4 * length)), pc0);
    var b, c := a, a;
    c := Add(c, pb0);
    a, b, c := WordArray(key, length, a, b, c);
    pc, pb := c, b;
  }
}
