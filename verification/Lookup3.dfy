/**
 The lookup3 hash of src/lib/frl_hash_func.c: the meaning of the hash of a key, a
 sequence of bytes or words, and what that meaning promises.  HashPaths.dfy holds the
 code that reads keys from memory.
 */
module Lookup3 {

  /** The internal state (a, b, c). */
  datatype State = State(a: bv32, b: bv32, c: bv32)

  datatype Order = Little | Big

  // -------------------------------------------------------------- the mixers

  type Shift = k: nat | 0 < k < 32 witness 1

  function Rot(x: bv32, k: Shift): bv32 { (x << k) | (x >> (32 - k)) }

  function Add(x: bv32, y: bv32): bv32 { x + y }

  function Sub(x: bv32, y: bv32): bv32 { x - y }

  /** x -= z; x ^= r */
  function Fold(x: bv32, z: bv32, r: bv32): bv32 { (x - z) ^ r }

  function Unfold(x: bv32, z: bv32, r: bv32): bv32 { (x ^ r) + z }

  /** x ^= y; x -= r */
  function Tweak(x: bv32, y: bv32, r: bv32): bv32 { (x ^ y) - r }

  function Untweak(x: bv32, y: bv32, r: bv32): bv32 { (x + r) ^ y }

  /** A line of mix(): a -= c; a ^= rot(c, k); c += b.  The next line does the same with
      the names moved on, so the result is (b, c, a). */
  function MixLine(t: State, k: Shift): State
  {
    State(t.b, Add(t.c, t.b), Fold(t.a, t.c, Rot(t.c, k)))
  }

  function UnmixLine(t: State, k: Shift): State
  {
    var c := Sub(t.b, t.a);
    State(Unfold(t.c, c, Rot(c, k)), t.a, c)
  }

  function MixLines(t: State, ks: seq<Shift>): State
    decreases |ks|
  {
    if ks == [] then t else MixLines(MixLine(t, ks[0]), ks[1..])
  }

  function UnmixLines(t: State, ks: seq<Shift>): State
    decreases |ks|
  {
    if ks == [] then t else UnmixLine(UnmixLines(t, ks[1..]), ks[0])
  }

  const MIX_SHIFTS: seq<Shift> := [4, 6, 8, 16, 19, 4]

  /** Lines 114-122; after six lines every name is where it was. */
  function Mix(t: State): State { MixLines(t, MIX_SHIFTS) }

  function Unmix(t: State): State { UnmixLines(t, MIX_SHIFTS) }

  /** A line of final(): c ^= b; c -= rot(b, k), with the names moved on. */
  function FinalLine(t: State, k: Shift): State
  {
    State(t.b, Tweak(t.c, t.b, Rot(t.b, k)), t.a)
  }

  function UnfinalLine(t: State, k: Shift): State
  {
    State(t.c, t.a, Untweak(t.b, t.a, Rot(t.a, k)))
  }

  function FinalLines(t: State, ks: seq<Shift>): State
    decreases |ks|
  {
    if ks == [] then t else FinalLines(FinalLine(t, ks[0]), ks[1..])
  }

  function UnfinalLines(t: State, ks: seq<Shift>): State
    decreases |ks|
  {
    if ks == [] then t else UnfinalLine(UnfinalLines(t, ks[1..]), ks[0])
  }

  const FINAL_SHIFTS: seq<Shift> := [14, 11, 25, 16, 4, 14, 24]

  /** Lines 149-158; after seven lines the names have moved on by one. */
  function Final(t: State): State
  {
    var u := FinalLines(t, FINAL_SHIFTS);
    State(u.c, u.a, u.b)
  }

  function Unfinal(t: State): State { UnfinalLines(State(t.b, t.c, t.a), FINAL_SHIFTS) }

  lemma FoldBack(x: bv32, z: bv32, r: bv32)
    ensures Unfold(Fold(x, z, r), z, r) == x
  {
    assert Unfold((x - z) ^ r, z, r) == x;
  }

  lemma UnfoldBack(x: bv32, z: bv32, r: bv32)
    ensures Fold(Unfold(x, z, r), z, r) == x
  {
    assert Fold((x ^ r) + z, z, r) == x;
  }

  lemma TweakBack(x: bv32, y: bv32, r: bv32)
    ensures Untweak(Tweak(x, y, r), y, r) == x
  {
    assert Untweak((x ^ y) - r, y, r) == x;
  }

  lemma UntweakBack(x: bv32, y: bv32, r: bv32)
    ensures Tweak(Untweak(x, y, r), y, r) == x
  {
    assert Tweak((x + r) ^ y, y, r) == x;
  }

  lemma SumBack(x: bv32, y: bv32)
    ensures Sub(Add(x, y), y) == x && Add(Sub(x, y), y) == x
  {
    assert Sub(x + y, y) == x;
    assert Add(x - y, y) == x;
  }

  lemma {:induction false} MixLinesBack(t: State, ks: seq<Shift>)
    ensures UnmixLines(MixLines(t, ks), ks) == t
    decreases |ks|
  {
    if ks != [] {
      MixLinesBack(MixLine(t, ks[0]), ks[1..]);
      SumBack(t.c, t.b);
      FoldBack(t.a, t.c, Rot(t.c, ks[0]));
    }
  }

  lemma {:induction false} UnmixLinesBack(t: State, ks: seq<Shift>)
    ensures MixLines(UnmixLines(t, ks), ks) == t
    decreases |ks|
  {
    if ks != [] {
      UnmixLinesBack(t, ks[1..]);
      var u := UnmixLines(t, ks[1..]);
      var c := Sub(u.b, u.a);
      SumBack(u.b, u.a);
      UnfoldBack(u.c, c, Rot(c, ks[0]));
    }
  }

  lemma {:induction false} FinalLinesBack(t: State, ks: seq<Shift>)
    ensures UnfinalLines(FinalLines(t, ks), ks) == t
    decreases |ks|
  {
    if ks != [] {
      FinalLinesBack(FinalLine(t, ks[0]), ks[1..]);
      TweakBack(t.c, t.b, Rot(t.b, ks[0]));
    }
  }

  lemma {:induction false} UnfinalLinesBack(t: State, ks: seq<Shift>)
    ensures FinalLines(UnfinalLines(t, ks), ks) == t
    decreases |ks|
  {
    if ks != [] {
      UnfinalLinesBack(t, ks[1..]);
      var u := UnfinalLines(t, ks[1..]);
      UntweakBack(u.b, u.a, Rot(u.a, ks[0]));
    }
  }

  /** mix() is a bijection on states. */
  lemma MixBijective(t: State)
    ensures Unmix(Mix(t)) == t && Mix(Unmix(t)) == t
  {
    MixLinesBack(t, MIX_SHIFTS);
    UnmixLinesBack(t, MIX_SHIFTS);
  }

  /** final() is a bijection on states. */
  lemma FinalBijective(t: State)
    ensures Unfinal(Final(t)) == t && Final(Unfinal(t)) == t
  {
    FinalLinesBack(t, FINAL_SHIFTS);
    UnfinalLinesBack(State(t.b, t.c, t.a), FINAL_SHIFTS);
  }

  // ------------------------------------------------- the hash of a byte string

  function LittleWord(b0: bv8, b1: bv8, b2: bv8, b3: bv8): bv32
  {
    (b0 as bv32) | ((b1 as bv32) << 8) | ((b2 as bv32) << 16) | ((b3 as bv32) << 24)
  }

  /** Four bytes as a machine word. */
  function Word(o: Order, b0: bv8, b1: bv8, b2: bv8, b3: bv8): bv32
  {
    if o == Little then LittleWord(b0, b1, b2, b3) else LittleWord(b3, b2, b1, b0)
  }

  /** Byte `i` of the key, zero behind its end. */
  function At(s: seq<bv8>, i: nat): bv8
  {
    if i < |s| then s[i] else 0
  }

  /** The word that starts at byte `i`. */
  function WordAt(o: Order, s: seq<bv8>, i: nat): bv32
  {
    Word(o, At(s, i), At(s, i + 1), At(s, i + 2), At(s, i + 3))
  }

  /** Adds a block, the first 12 bytes of `s`, to the state. */
  function Absorb(o: Order, t: State, s: seq<bv8>): State
  {
    State(Add(t.a, WordAt(o, s, 0)), Add(t.b, WordAt(o, s, 4)), Add(t.c, WordAt(o, s, 8)))
  }

  /** The state after all of `s`: every block but the last is mixed in, the last one, of
      1 to 12 bytes, is finished; an empty key needs no mixing. */
  function HashState(o: Order, s: seq<bv8>, t: State): State
    decreases |s|
  {
    if |s| > 12 then HashState(o, s[12..], Mix(Absorb(o, t, s)))
    else if s == [] then t
    else Final(Absorb(o, t, s))
  }

  /** (uint32_t)n: `n` counted in 32 bits. */
  function Truncated(n: nat): bv32
  {
    if n == 0 then 0 else Add(Truncated(n - 1), 1)
  }

  /** a = b = c = 0xdeadbeef + length + pc; c += pb */
  function Seeded(length: bv32, pc: bv32, pb: bv32): State
  {
    var x := Add(Add(0xdeadbeef, length), pc);
    State(x, x, Add(x, pb))
  }

  /** The state that a key ends in; the hash is its c, the secondary hash its b. */
  function Hash(o: Order, s: seq<bv8>, pc: bv32, pb: bv32): State
  {
    HashState(o, s, Seeded(Truncated(|s|), pc, pb))
  }

  // ------------------------------------------------- the hash of a word string

  function AbsorbWords(t: State, ws: seq<bv32>): State
    requires |ws| >= 1
  {
    State(Add(t.a, ws[0]), if |ws| > 1 then Add(t.b, ws[1]) else t.b, if |ws| > 2 then Add(t.c, ws[2]) else t.c)
  }

  /** The state after all of `ws` (lines 184-203). */
  function WordsState(ws: seq<bv32>, t: State): State
    decreases |ws|
  {
    if |ws| > 3 then WordsState(ws[3..], Mix(AbsorbWords(t, ws)))
    else if ws == [] then t
    else Final(AbsorbWords(t, ws))
  }

  /** `ws` is what a machine of order `o` reads as words where `s` lies. */
  ghost predicate SameMemory(o: Order, s: seq<bv8>, ws: seq<bv32>)
  {
    |s| == 4 * |ws| && forall i | 0 <= i < |ws| :: ws[i] == WordAt(o, s, 4 * i)
  }

  lemma ZeroWord(o: Order)
    ensures Word(o, 0, 0, 0, 0) == 0
  {
  }

  lemma AddZero(x: bv32)
    ensures Add(x, 0) == x
  {
  }

  lemma SameBlock(o: Order, s: seq<bv8>, ws: seq<bv32>, t: State)
    requires SameMemory(o, s, ws) && ws != []
    ensures AbsorbWords(t, ws) == Absorb(o, t, s)
  {
    ZeroWord(o);
    AddZero(t.b);
    AddZero(t.c);
    assert ws[0] == WordAt(o, s, 4 * 0);
    if |ws| > 1 {
      assert ws[1] == WordAt(o, s, 4 * 1);
    }
    if |ws| > 2 {
      assert ws[2] == WordAt(o, s, 4 * 2);
    }
  }

  lemma SameRest(o: Order, s: seq<bv8>, ws: seq<bv32>)
    requires SameMemory(o, s, ws) && |ws| > 3
    ensures SameMemory(o, s[12..], ws[3..])
  {
    forall i | 0 <= i < |ws[3..]| ensures ws[3..][i] == WordAt(o, s[12..], 4 * i) {
      assert ws[i + 3] == WordAt(o, s, 4 * (i + 3));
    }
  }

  /** Hashing words is hashing the bytes they are made of. */
  lemma {:induction false} WordsAreBytes(o: Order, s: seq<bv8>, ws: seq<bv32>, t: State)
    requires SameMemory(o, s, ws)
    ensures WordsState(ws, t) == HashState(o, s, t)
    decreases |ws|
  {
    if ws != [] {
      SameBlock(o, s, ws, t);
      if |ws| > 3 {
        SameRest(o, s, ws);
        WordsAreBytes(o, s[12..], ws[3..], Mix(Absorb(o, t, s)));
      }
    }
  }

  lemma ShiftStep(x: bv32)
    ensures (x << 2) + 4 == (x + 1) << 2
  {
  }

  lemma FourMore(x: bv32)
    ensures Add(Add(Add(Add(x, 1), 1), 1), 1) == x + 4
  {
    assert Add(x + 1, 1) == x + 2;
    assert Add(x + 2, 1) == x + 3;
    assert Add(x + 3, 1) == x + 4;
  }

  function TimesFour(x: bv32): bv32 { x << 2 }

  lemma TimesFourStep(x: bv32)
    ensures Add(Add(Add(Add(TimesFour(x), 1), 1), 1), 1) == TimesFour(Add(x, 1))
  {
    FourMore(x << 2);
    ShiftStep(x);
    assert Add(x, 1) == x + 1;
  }

  lemma TruncatedStep(n: nat)
    requires n > 0
    ensures Truncated(4 * n) == Add(Add(Add(Add(Truncated(4 * (n - 1)), 1), 1), 1), 1)
  {
    assert Truncated(4 * n - 1) == Add(Truncated(4 * n - 2), 1);
    assert Truncated(4 * n - 2) == Add(Truncated(4 * n - 3), 1);
    assert Truncated(4 * n - 3) == Add(Truncated(4 * n - 4), 1);
  }

  /** ((uint32_t)n) << 2 is (uint32_t)(4 * n), whether or not these overflow. */
  lemma {:induction false} TruncatedTimesFour(n: nat)
    ensures Truncated(4 * n) == TimesFour(Truncated(n))
  {
    if n > 0 {
      TruncatedTimesFour(n - 1);
      TruncatedStep(n);
      TimesFourStep(Truncated(n - 1));
    }
  }

  // ---------------------------------------------------------------- no collisions

  lemma WordInjective(o: Order, b0: bv8, b1: bv8, b2: bv8, b3: bv8, d0: bv8, d1: bv8, d2: bv8, d3: bv8)
    requires Word(o, b0, b1, b2, b3) == Word(o, d0, d1, d2, d3)
    ensures b0 == d0 && b1 == d1 && b2 == d2 && b3 == d3
  {
    if o == Little {
      LittleInjective(b0, b1, b2, b3, d0, d1, d2, d3);
    } else {
      LittleInjective(b3, b2, b1, b0, d3, d2, d1, d0);
    }
  }

  lemma LittleInjective(b0: bv8, b1: bv8, b2: bv8, b3: bv8, d0: bv8, d1: bv8, d2: bv8, d3: bv8)
    requires LittleWord(b0, b1, b2, b3) == LittleWord(d0, d1, d2, d3)
    ensures b0 == d0 && b1 == d1 && b2 == d2 && b3 == d3
  {
  }

  /** Different blocks lead from one state to different states. */
  lemma BlocksApart(o: Order, t: State, s1: seq<bv8>, s2: seq<bv8>, i: nat)
    requires i < 12 && At(s1, i) != At(s2, i)
    ensures Absorb(o, t, s1) != Absorb(o, t, s2)
  {
    var j := i / 4 * 4;
    if WordAt(o, s1, j) == WordAt(o, s2, j) {
      WordInjective(o, At(s1, j), At(s1, j + 1), At(s1, j + 2), At(s1, j + 3),
                    At(s2, j), At(s2, j + 1), At(s2, j + 2), At(s2, j + 3));
      assert false;
    }
    AddApart(if j == 0 then t.a else if j == 4 then t.b else t.c, WordAt(o, s1, j), WordAt(o, s2, j));
  }

  lemma AddApart(x: bv32, y: bv32, z: bv32)
    requires y != z
    ensures Add(x, y) != Add(x, z) && Add(y, x) != Add(z, x)
  {
    SumBack(y, x);
    SumBack(z, x);
    AddCommutes(x, y);
    AddCommutes(x, z);
  }

  lemma AddCommutes(x: bv32, y: bv32)
    ensures Add(x, y) == Add(y, x)
  {
  }

  /** Different states are led to different states by the same key. */
  lemma {:induction false} StatesStayApart(o: Order, s: seq<bv8>, t1: State, t2: State)
    requires t1 != t2
    ensures HashState(o, s, t1) != HashState(o, s, t2)
    decreases |s|
  {
    if s != [] {
      var u1, u2 := Absorb(o, t1, s), Absorb(o, t2, s);
      assert u1 != u2 by {
        if t1.a != t2.a { AddApart(WordAt(o, s, 0), t1.a, t2.a); }
        if t1.b != t2.b { AddApart(WordAt(o, s, 4), t1.b, t2.b); }
        if t1.c != t2.c { AddApart(WordAt(o, s, 8), t1.c, t2.c); }
      }
      MixFinalApart(u1, u2);
      if |s| > 12 {
        StatesStayApart(o, s[12..], Mix(u1), Mix(u2));
      }
    }
  }

  lemma MixFinalApart(t1: State, t2: State)
    requires t1 != t2
    ensures Mix(t1) != Mix(t2) && Final(t1) != Final(t2)
  {
    MixBijective(t1);
    MixBijective(t2);
    FinalBijective(t1);
    FinalBijective(t2);
  }

  lemma SameFirst(o: Order, t: State, s1: seq<bv8>, s2: seq<bv8>)
    requires |s1| >= 12 && |s2| >= 12 && s1[..12] == s2[..12]
    ensures Absorb(o, t, s1) == Absorb(o, t, s2)
  {
    forall i | 0 <= i < 12 ensures At(s1, i) == At(s2, i) {
      assert s1[i] == s1[..12][i] == s2[..12][i] == s2[i];
    }
  }

  /** Two keys of the same length that differ in one block only, hashed with the same
      seeds, never end in the same state (a, b, c). */
  lemma {:induction false} OneBlockApart(o: Order, s1: seq<bv8>, s2: seq<bv8>, block: nat, i: nat, t: State)
    requires |s1| == |s2| && 12 * block <= i < 12 * block + 12 && i < |s1| && s1[i] != s2[i]
    requires forall j | 0 <= j < |s1| && !(12 * block <= j < 12 * block + 12) :: s1[j] == s2[j]
    ensures HashState(o, s1, t) != HashState(o, s2, t)
    decreases |s1|
  {
    if block == 0 {
      BlocksApart(o, t, s1, s2, i);
      MixFinalApart(Absorb(o, t, s1), Absorb(o, t, s2));
      if |s1| > 12 {
        assert s1[12..] == s2[12..];
        StatesStayApart(o, s1[12..], Mix(Absorb(o, t, s1)), Mix(Absorb(o, t, s2)));
      }
    } else {
      assert s1[..12] == s2[..12];
      SameFirst(o, t, s1, s2);
      OneBlockApart(o, s1[12..], s2[12..], block - 1, i - 12, Mix(Absorb(o, t, s1)));
    }
  }

  /** The same for whole hashes; and other seeds lead to other states, too. */
  lemma HashApart(o: Order, s1: seq<bv8>, s2: seq<bv8>, block: nat, i: nat, pc: bv32, pb: bv32)
    requires |s1| == |s2| && 12 * block <= i < 12 * block + 12 && i < |s1| && s1[i] != s2[i]
    requires forall j | 0 <= j < |s1| && !(12 * block <= j < 12 * block + 12) :: s1[j] == s2[j]
    ensures Hash(o, s1, pc, pb) != Hash(o, s2, pc, pb)
  {
    OneBlockApart(o, s1, s2, block, i, Seeded(Truncated(|s1|), pc, pb));
  }

  lemma SeedsApart(o: Order, s: seq<bv8>, pc: bv32, pb: bv32, pc': bv32, pb': bv32)
    requires pc != pc' || pb != pb'
    ensures Hash(o, s, pc, pb) != Hash(o, s, pc', pb')
  {
    var x := Add(0xdeadbeef, Truncated(|s|));
    if pc != pc' {
      AddApart(x, pc, pc');
    } else {
      AddApart(Add(x, pc), pb, pb');
    }
    StatesStayApart(o, s, Seeded(Truncated(|s|), pc, pb), Seeded(Truncated(|s|), pc', pb'));
  }

  // ------------------------------------------------------------ the hash family

  /** hashword and hashword2 on words are hashlittle and hashlittle2 on a little-endian,
      hashbig on a big-endian machine, on the memory the words lie in; the length in
      words may overflow when it is turned into bytes. */
  lemma WordHashIsByteHash(o: Order, s: seq<bv8>, ws: seq<bv32>, pc: bv32, pb: bv32)
    requires SameMemory(o, s, ws)
    ensures WordsState(ws, Seeded(TimesFour(Truncated(|ws|)), pc, pb)) == Hash(o, s, pc, pb)
    ensures WordsState(ws, Seeded(Truncated(4 * |ws|), pc, pb)) == Hash(o, s, pc, pb)
  {
    hide TimesFour, Seeded;
    TruncatedTimesFour(|ws|);
    WordsAreBytes(o, s, ws, Seeded(Truncated(|s|), pc, pb));
  }
}
