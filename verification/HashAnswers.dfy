/**
 Known answers of the lookup3 hash: what mix() and final() make of some states, and the
 hashes of two keys, computed from the published definition of lookup3.
 */
module HashAnswers {
  import opened Lookup3
  import opened HashPaths

  /** One call of mix() and of final(). */
  lemma MixOfSmall()
    ensures Mix(State(0x00000001, 0x00000002, 0x00000003)) == State(0x877d02a0, 0xcd175a8d, 0xe3fc5c22)
  {
    var t0 := State(0x00000001, 0x00000002, 0x00000003);
    var t1 := State(0x00000002, 0x00000005, 0xffffffce);
    assert MixLine(t0, 4) == t1;
    var t2 := State(0x00000005, 0xffffffd3, 0xfffff38b);
    assert MixLine(t1, 6) == t2;
    var t3 := State(0xffffffd3, 0xfffff35e, 0xfff38785);
    assert MixLine(t2, 8) == t3;
    var t4 := State(0xfffff35e, 0xfff37ae3, 0x878987bd);
    assert MixLine(t3, 16) == t4;
    var t5 := State(0xfff37ae3, 0x877d02a0, 0x459a57ed);
    assert MixLine(t4, 19) == t5;
    var t6 := State(0x877d02a0, 0xcd175a8d, 0xe3fc5c22);
    assert MixLine(t5, 4) == t6;
    SixLines(t0, MIX_SHIFTS);
  }

  lemma FinalOfSmall()
    ensures Final(State(0x00000001, 0x00000002, 0x00000003)) == State(0xc0bbac72, 0xd6302d23, 0x36ff91db)
  {
    var t0 := State(0x00000001, 0x00000002, 0x00000003);
    var t1 := State(0x00000002, 0xffff8001, 0x00000001);
    assert FinalLine(t0, 14) == t1;
    var t2 := State(0xffff8001, 0x03ff7001, 0x00000002);
    assert FinalLine(t1, 11) == t2;
    var t3 := State(0x03ff7001, 0x01f77123, 0xffff8001);
    assert FinalLine(t2, 25) == t3;
    var t4 := State(0x01f77123, 0x8ce5ef2b, 0x03ff7001);
    assert FinalLine(t3, 16) == t4;
    var t5 := State(0x8ce5ef2b, 0xc0bbac72, 0x01f77123);
    assert FinalLine(t4, 4) == t5;
    var t6 := State(0xc0bbac72, 0xd6302d23, 0x8ce5ef2b);
    assert FinalLine(t5, 14) == t6;
    var t7 := State(0xd6302d23, 0x36ff91db, 0xc0bbac72);
    assert FinalLine(t6, 24) == t7;
    SevenLines(t0, FINAL_SHIFTS);
  }

  lemma MixOfBlock1()
    ensures Mix(State(0x51232e53, 0x4e11322d, 0x3fce247f)) == State(0xf859ad7a, 0x04bc57ae, 0x40dddd7e)
  {
    var t0 := State(0x51232e53, 0x4e11322d, 0x3fce247f);
    var t1 := State(0x4e11322d, 0x8ddf56ac, 0xedb74e27);
    assert MixLine(t0, 4) == t1;
    var t2 := State(0x8ddf56ac, 0x7b96a4d3, 0x0d8a6dfd);
    assert MixLine(t1, 6) == t2;
    var t3 := State(0x7b96a4d3, 0x892112d0, 0x0a3915a2);
    assert MixLine(t2, 8) == t3;
    var t4 := State(0x892112d0, 0x935a2872, 0x64ff8508);
    assert MixLine(t3, 16) == t4;
    var t5 := State(0x935a2872, 0xf859ad7a, 0x0c62aa34);
    assert MixLine(t4, 19) == t5;
    var t6 := State(0xf859ad7a, 0x04bc57ae, 0x40dddd7e);
    assert MixLine(t5, 4) == t6;
    SixLines(t0, MIX_SHIFTS);
  }

  lemma MixOfBlock2()
    ensures Mix(State(0x6b7a11e8, 0x7321ce13, 0xa243569e)) == State(0x336aded2, 0x059f2642, 0xbd02ebd5)
  {
    var t0 := State(0x6b7a11e8, 0x7321ce13, 0xa243569e);
    var t1 := State(0x7321ce13, 0x156524b1, 0xed03d2a0);
    assert MixLine(t0, 4) == t1;
    var t2 := State(0x156524b1, 0x0268f751, 0xc6e95348);
    assert MixLine(t1, 6) == t2;
    var t3 := State(0x0268f751, 0xc9524a99, 0xa72899af);
    assert MixLine(t2, 8) == t3;
    var t4 := State(0xc9524a99, 0x707ae448, 0xc2effa8a);
    assert MixLine(t3, 16) == t4;
    var t5 := State(0x707ae448, 0x336aded2, 0xd2344770);
    assert MixLine(t4, 19) == t5;
    var t6 := State(0x336aded2, 0x059f2642, 0xbd02ebd5);
    assert MixLine(t5, 4) == t6;
    SixLines(t0, MIX_SHIFTS);
  }

  lemma FinalOfTail()
    ensures Final(State(0x948b5244, 0x059f95a9, 0xbd02ebd5)) == State(0x9a837816, 0xce7226e6, 0x17770551)
  {
    var t0 := State(0x948b5244, 0x059f95a9, 0xbd02ebd5);
    var t1 := State(0x059f95a9, 0xd3333d15, 0x948b5244);
    assert FinalLine(t0, 14) == t1;
    var t2 := State(0xd3333d15, 0xadcfc0b8, 0x059f95a9);
    assert FinalLine(t1, 11) == t2;
    var t3 := State(0xadcfc0b8, 0x36f4b590, 0xd3333d15);
    assert FinalLine(t2, 25) == t3;
    var t4 := State(0x36f4b590, 0x30375191, 0xadcfc0b8);
    assert FinalLine(t3, 16) == t4;
    var t5 := State(0x30375191, 0x9a837816, 0x36f4b590);
    assert FinalLine(t4, 4) == t5;
    var t6 := State(0x9a837816, 0xce7226e6, 0x30375191);
    assert FinalLine(t5, 14) == t6;
    var t7 := State(0xce7226e6, 0x17770551, 0x9a837816);
    assert FinalLine(t6, 24) == t7;
    SevenLines(t0, FINAL_SHIFTS);
  }

  /** "Four score and seven years ago", in its three blocks. */
  function Key(): seq<bv8> { Key1() + (Key2() + Key3()) }

  function Key1(): seq<bv8> { [0x46, 0x6f, 0x75, 0x72, 0x20, 0x73, 0x63, 0x6f, 0x72, 0x65, 0x20, 0x61] }

  function Key2(): seq<bv8> { [0x6e, 0x64, 0x20, 0x73, 0x65, 0x76, 0x65, 0x6e, 0x20, 0x79, 0x65, 0x61] }

  function Key3(): seq<bv8> { [0x72, 0x73, 0x20, 0x61, 0x67, 0x6f] }

  lemma FrontOnly(o: Order, t: State, s: seq<bv8>, rest: seq<bv8>)
    requires |s| == 12
    ensures Absorb(o, t, s + rest) == Absorb(o, t, s)
  {
  }

  lemma WordIs(s: seq<bv8>, i: nat, b0: bv8, b1: bv8, b2: bv8, b3: bv8)
    requires At(s, i) == b0 && At(s, i + 1) == b1 && At(s, i + 2) == b2 && At(s, i + 3) == b3
    ensures WordAt(Little, s, i) == LittleWord(b0, b1, b2, b3)
  {
  }

  lemma Block1()
    ensures Absorb(Little, State(0xdeadbf0d, 0xdeadbf0d, 0xdeadbf0d), Key1())
         == State(0x51232e53, 0x4e11322d, 0x3fce247f)
  {
    var s := Key1();
    assert LittleWord(0x46, 0x6f, 0x75, 0x72) == 0x72756f46 && Add(0xdeadbf0d, 0x72756f46) == 0x51232e53;
    assert LittleWord(0x20, 0x73, 0x63, 0x6f) == 0x6f637320 && Add(0xdeadbf0d, 0x6f637320) == 0x4e11322d;
    assert LittleWord(0x72, 0x65, 0x20, 0x61) == 0x61206572 && Add(0xdeadbf0d, 0x61206572) == 0x3fce247f;
    hide LittleWord, Add;
    WordIs(s, 0, 0x46, 0x6f, 0x75, 0x72);
    WordIs(s, 4, 0x20, 0x73, 0x63, 0x6f);
    WordIs(s, 8, 0x72, 0x65, 0x20, 0x61);
  }

  lemma Block2()
    ensures Absorb(Little, State(0xf859ad7a, 0x04bc57ae, 0x40dddd7e), Key2())
         == State(0x6b7a11e8, 0x7321ce13, 0xa243569e)
  {
    var s := Key2();
    assert LittleWord(0x6e, 0x64, 0x20, 0x73) == 0x7320646e && Add(0xf859ad7a, 0x7320646e) == 0x6b7a11e8;
    assert LittleWord(0x65, 0x76, 0x65, 0x6e) == 0x6e657665 && Add(0x04bc57ae, 0x6e657665) == 0x7321ce13;
    assert LittleWord(0x20, 0x79, 0x65, 0x61) == 0x61657920 && Add(0x40dddd7e, 0x61657920) == 0xa243569e;
    hide LittleWord, Add;
    WordIs(s, 0, 0x6e, 0x64, 0x20, 0x73);
    WordIs(s, 4, 0x65, 0x76, 0x65, 0x6e);
    WordIs(s, 8, 0x20, 0x79, 0x65, 0x61);
  }

  lemma Block3()
    ensures Absorb(Little, State(0x336aded2, 0x059f2642, 0xbd02ebd5), Key3())
         == State(0x948b5244, 0x059f95a9, 0xbd02ebd5)
  {
    var s := Key3();
    assert LittleWord(0x72, 0x73, 0x20, 0x61) == 0x61207372 && Add(0x336aded2, 0x61207372) == 0x948b5244;
    assert LittleWord(0x67, 0x6f, 0x00, 0x00) == 0x00006f67 && Add(0x059f2642, 0x00006f67) == 0x059f95a9;
    assert LittleWord(0x00, 0x00, 0x00, 0x00) == 0x00000000 && Add(0xbd02ebd5, 0x00000000) == 0xbd02ebd5;
    hide LittleWord, Add;
    WordIs(s, 0, 0x72, 0x73, 0x20, 0x61);
    WordIs(s, 4, 0x67, 0x6f, 0x00, 0x00);
    WordIs(s, 8, 0x00, 0x00, 0x00, 0x00);
  }

  lemma ThirtyBytes()
    ensures Seeded(Truncated(30), 0, 0) == State(0xdeadbf0d, 0xdeadbf0d, 0xdeadbf0d)
  {
    assert Truncated(1) == 1;
    assert Truncated(2) == 2;
    assert Truncated(3) == 3;
    assert Truncated(4) == 4;
    assert Truncated(5) == 5;
    assert Truncated(6) == 6;
    assert Truncated(7) == 7;
    TruncatedTimesFour(7);
    assert TimesFour(7) == 28;
    assert Truncated(29) == Add(Truncated(28), 1) == 29;
    assert Truncated(30) == Add(Truncated(29), 1) == 30;
    assert Add(Add(0xdeadbeef, 30), 0) == 0xdeadbf0d && Add(0xdeadbf0d, 0) == 0xdeadbf0d;
  }

  /** hashlittle2 of the key is c, b = 0x17770551, 0xce7226e6, with both seeds zero. */
  lemma HashOfKey()
    ensures Hash(Little, Key(), 0, 0) == State(0x9a837816, 0xce7226e6, 0x17770551)
  {
    hide Absorb, Mix, Final, Seeded, Truncated;
    ThirtyBytes();
    Block1();
    Block2();
    Block3();
    MixOfBlock1();
    MixOfBlock2();
    FinalOfTail();
    assert |Key()| == 30;
    hide Key1, Key2, Key3;
    var t0 := State(0xdeadbf0d, 0xdeadbf0d, 0xdeadbf0d);
    var t2 := State(0xf859ad7a, 0x04bc57ae, 0x40dddd7e);
    var t4 := State(0x336aded2, 0x059f2642, 0xbd02ebd5);
    var k23 := Key2() + Key3();
    FrontOnly(Little, t0, Key1(), k23);
    FrontOnly(Little, t2, Key2(), Key3());
    NextState(Little, Key(), k23, t0, State(0x51232e53, 0x4e11322d, 0x3fce247f));
    NextState(Little, k23, Key3(), t2, State(0x6b7a11e8, 0x7321ce13, 0xa243569e));
    LastState(Little, Key3(), t4, State(0x948b5244, 0x059f95a9, 0xbd02ebd5));
  }

  /** The hash of the empty key, and what each seed does to it. */
  lemma HashOfNothing(o: Order)
    ensures Hash(o, [], 0, 0) == State(0xdeadbeef, 0xdeadbeef, 0xdeadbeef)
    ensures Hash(o, [], 0, 0xdeadbeef) == State(0xdeadbeef, 0xdeadbeef, 0xbd5b7dde)
    ensures Hash(o, [], 0xdeadbeef, 0xdeadbeef) == State(0xbd5b7dde, 0xbd5b7dde, 0x9c093ccd)
  {
    assert Truncated(0) == 0;
    assert Add(0xdeadbeef, 0) == 0xdeadbeef && Add(0xdeadbeef, 0xdeadbeef) == 0xbd5b7dde;
    assert Add(0xbd5b7dde, 0) == 0xbd5b7dde && Add(0xbd5b7dde, 0xdeadbeef) == 0x9c093ccd;
  }

  /** The two byte orders of a word. */
  lemma WordsOfBytes()
    ensures Word(Little, 0x01, 0x02, 0x03, 0x04) == 0x04030201
    ensures Word(Big, 0x01, 0x02, 0x03, 0x04) == 0x01020304
  {
    assert LittleWord(0x01, 0x02, 0x03, 0x04) == 0x04030201;
    assert LittleWord(0x04, 0x03, 0x02, 0x01) == 0x01020304;
  }
}
