/** The standard's example: the digest of "abc", by the words of its schedule and the registers after every five rounds. */
module Sha1Example {
  import opened Bytes
  import opened Sequences
  import opened Sha1

  const ABC: seq<octet> := [0x61, 0x62, 0x63]

  const ABC_BLOCK: seq<word> := [0x61626380, 0, 0, 0, 0, 0, 0, 0, 0, 0, 0, 0, 0, 0, 0, 0x18]

  // ----- the schedule of the block -----

  datatype Sixteen = Sixteen(
    w0: word, w1: word, w2: word, w3: word, w4: word, w5: word, w6: word, w7: word,
    w8: word, w9: word, w10: word, w11: word, w12: word, w13: word, w14: word, w15: word)

  lemma Words0(b: seq<word>)
    requires b == ABC_BLOCK
    ensures Sixteen(
              W(b, 0), W(b, 1), W(b, 2), W(b, 3), W(b, 4), W(b, 5), W(b, 6), W(b, 7),
              W(b, 8), W(b, 9), W(b, 10), W(b, 11), W(b, 12), W(b, 13), W(b, 14), W(b, 15)) ==
            Sixteen(
              0x61626380, 0, 0, 0, 0, 0, 0, 0,
              0, 0, 0, 0, 0, 0, 0, 0x00000018)
  {
  }

  lemma Words16(b: seq<word>)
    requires b == ABC_BLOCK
    ensures Sixteen(
              W(b, 16), W(b, 17), W(b, 18), W(b, 19), W(b, 20), W(b, 21), W(b, 22), W(b, 23),
              W(b, 24), W(b, 25), W(b, 26), W(b, 27), W(b, 28), W(b, 29), W(b, 30), W(b, 31)) ==
            Sixteen(
              0xc2c4c700, 0, 0x00000030, 0x85898e01, 0, 0x00000060, 0x0b131c03, 0x00000030,
              0x85898ec1, 0x16263806, 0, 0x00000180, 0x2c4c700c, 0x000000f0, 0x93afb507, 0x5898e048)
  {
    hide W;
    Words0(b);
    Scheduled(b, 16); Scheduled(b, 17); Scheduled(b, 18); Scheduled(b, 19);
    Scheduled(b, 20); Scheduled(b, 21); Scheduled(b, 22); Scheduled(b, 23);
    Scheduled(b, 24); Scheduled(b, 25); Scheduled(b, 26); Scheduled(b, 27);
    Scheduled(b, 28); Scheduled(b, 29); Scheduled(b, 30); Scheduled(b, 31);
  }

  lemma Words32(b: seq<word>)
    requires b == ABC_BLOCK
    ensures Sixteen(
              W(b, 32), W(b, 33), W(b, 34), W(b, 35), W(b, 36), W(b, 37), W(b, 38), W(b, 39),
              W(b, 40), W(b, 41), W(b, 42), W(b, 43), W(b, 44), W(b, 45), W(b, 46), W(b, 47)) ==
            Sixteen(
              0x8e9a9202, 0x00000600, 0xb131c0f0, 0x16263bc6, 0x4ebed41e, 0x626380a1, 0x16263806, 0x000018c0,
              0xd2e138c4, 0x00000f00, 0x3afb5079, 0x898e04e5, 0xe2ba3c2b, 0x000060c0, 0x053a37cd, 0x74458547)
  {
    hide W;
    Words16(b);
    Scheduled(b, 32); Scheduled(b, 33); Scheduled(b, 34); Scheduled(b, 35);
    Scheduled(b, 36); Scheduled(b, 37); Scheduled(b, 38); Scheduled(b, 39);
    Scheduled(b, 40); Scheduled(b, 41); Scheduled(b, 42); Scheduled(b, 43);
    Scheduled(b, 44); Scheduled(b, 45); Scheduled(b, 46); Scheduled(b, 47);
  }

  lemma Words48(b: seq<word>)
    requires b == ABC_BLOCK
    ensures Sixteen(
              W(b, 48), W(b, 49), W(b, 50), W(b, 51), W(b, 52), W(b, 53), W(b, 54), W(b, 55),
              W(b, 56), W(b, 57), W(b, 58), W(b, 59), W(b, 60), W(b, 61), W(b, 62), W(b, 63)) ==
            Sixteen(
              0xda9415ed, 0x26380a16, 0x626383a1, 0x4ebf54de, 0x3835b44b, 0x0000f600, 0x1e84c7a3, 0x98e04d98,
              0x651d16a0, 0x62658ca1, 0x458544d6, 0x44584cb7, 0x7ba06619, 0x6380aea2, 0x0ae55269, 0x627b49a1)
  {
    hide W;
    Words32(b);
    Scheduled(b, 48); Scheduled(b, 49); Scheduled(b, 50); Scheduled(b, 51);
    Scheduled(b, 52); Scheduled(b, 53); Scheduled(b, 54); Scheduled(b, 55);
    Scheduled(b, 56); Scheduled(b, 57); Scheduled(b, 58); Scheduled(b, 59);
    Scheduled(b, 60); Scheduled(b, 61); Scheduled(b, 62); Scheduled(b, 63);
  }

  lemma Words64(b: seq<word>)
    requires b == ABC_BLOCK
    ensures Sixteen(
              W(b, 64), W(b, 65), W(b, 66), W(b, 67), W(b, 68), W(b, 69), W(b, 70), W(b, 71),
              W(b, 72), W(b, 73), W(b, 74), W(b, 75), W(b, 76), W(b, 77), W(b, 78), W(b, 79)) ==
            Sixteen(
              0x7cd45c9d, 0x000f0000, 0xfb50753a, 0xec6765e8, 0xba3c2be2, 0x0060c000, 0x3a37cd05, 0x458546f4,
              0xb8599dd6, 0x380a1a26, 0x01e02203, 0xe7cc3456, 0xe6e60b69, 0x00f60a00, 0x5795ef4f, 0x822e0879)
  {
    hide W;
    Words48(b);
    Scheduled(b, 64); Scheduled(b, 65); Scheduled(b, 66); Scheduled(b, 67);
    Scheduled(b, 68); Scheduled(b, 69); Scheduled(b, 70); Scheduled(b, 71);
    Scheduled(b, 72); Scheduled(b, 73); Scheduled(b, 74); Scheduled(b, 75);
    Scheduled(b, 76); Scheduled(b, 77); Scheduled(b, 78); Scheduled(b, 79);
  }

  // ----- the rounds -----

  /** Five rounds on the registers `r`. */
  function Five(b: seq<word>, t: nat, r: Regs): Regs
    requires |b| == 16
  {
    Round(Round(Round(Round(Round(r, t, W(b, t)), t + 1, W(b, t + 1)), t + 2, W(b, t + 2)), t + 3, W(b, t + 3)),
          t + 4, W(b, t + 4))
  }

  lemma Fifth(b: seq<word>, t: nat, r: Regs, r': Regs)
    requires |b| == 16 && Rounds(INITIAL, b, t) == r && r' == Five(b, t, r)
    ensures Rounds(INITIAL, b, t + 5) == r'
  {
    hide W, Round;
    FiveMore(INITIAL, b, t);
  }

  lemma NoRounds(b: seq<word>)
    requires |b| == 16
    ensures Rounds(INITIAL, b, 0) == INITIAL
  {
  }

  lemma Rounds20(b: seq<word>)
    requires b == ABC_BLOCK
    ensures Rounds(INITIAL, b, 20) == Regs(0xfd9e1d7d, 0xdc64901d, 0x20aa99ca, 0xd3a49608, 0xc82f758b)
  {
    hide W, Rounds;
    NoRounds(b);
    Words0(b);
    Words16(b);
    Fifth(b, 0, INITIAL,
          Regs(0xcfd499de, 0xcdd8e11b, 0x284e43c2, 0x626414db, 0xc045bf0c));
    Fifth(b, 5, Regs(0xcfd499de, 0xcdd8e11b, 0x284e43c2, 0x626414db, 0xc045bf0c),
          Regs(0x8351f929, 0x4b6ae328, 0x27a301f5, 0x664f8c30, 0x0ff1f290));
    Fifth(b, 10, Regs(0x8351f929, 0x4b6ae328, 0x27a301f5, 0x664f8c30, 0x0ff1f290),
          Regs(0x196bee77, 0x9128f695, 0x1181ed99, 0x18c623f9, 0x7ef6a7a2));
    Fifth(b, 15, Regs(0x196bee77, 0x9128f695, 0x1181ed99, 0x18c623f9, 0x7ef6a7a2),
          Regs(0xfd9e1d7d, 0xdc64901d, 0x20aa99ca, 0xd3a49608, 0xc82f758b));
  }

  lemma Rounds40(b: seq<word>)
    requires b == ABC_BLOCK
    ensures Rounds(INITIAL, b, 40) == Regs(0x32de1cba, 0x4c986405, 0xf718e5cf, 0x03d447f6, 0xf72eec32)
  {
    hide W, Rounds;
    Rounds20(b);
    Words16(b);
    Words32(b);
    Fifth(b, 20, Regs(0xfd9e1d7d, 0xdc64901d, 0x20aa99ca, 0xd3a49608, 0xc82f758b),
          Regs(0xc7567dc6, 0xd541f12d, 0x884a0d21, 0x0ce88eff, 0x868dec32));
    Fifth(b, 25, Regs(0xc7567dc6, 0xd541f12d, 0x884a0d21, 0x0ce88eff, 0x868dec32),
          Regs(0xc5fbaf5d, 0x8370b52e, 0xd2aa1365, 0x6f8d7ef5, 0x12104ee9));
    Fifth(b, 30, Regs(0xc5fbaf5d, 0x8370b52e, 0xd2aa1365, 0x6f8d7ef5, 0x12104ee9),
          Regs(0x21796ad4, 0x2c0ebc11, 0x811bea82, 0xcee1174c, 0xc499ed01));
    Fifth(b, 35, Regs(0x21796ad4, 0x2c0ebc11, 0x811bea82, 0xcee1174c, 0xc499ed01),
          Regs(0x32de1cba, 0x4c986405, 0xf718e5cf, 0x03d447f6, 0xf72eec32));
  }

  lemma Rounds60(b: seq<word>)
    requires b == ABC_BLOCK
    ensures Rounds(INITIAL, b, 60) == Regs(0x3f52de5a, 0x09d785fd, 0x3498bfd4, 0xf211824f, 0xd79915ab)
  {
    hide W, Rounds;
    Rounds40(b);
    Words32(b);
    Words48(b);
    Fifth(b, 40, Regs(0x32de1cba, 0x4c986405, 0xf718e5cf, 0x03d447f6, 0xf72eec32),
          Regs(0x40f28e09, 0xee1b1aaf, 0x5fc64f71, 0x25c28357, 0xff21f7b7));
    Fifth(b, 45, Regs(0x40f28e09, 0xee1b1aaf, 0x5fc64f71, 0x25c28357, 0xff21f7b7),
          Regs(0x120731c5, 0xbaf39337, 0xafab40b2, 0x2806e11b, 0x8714787c));
    Fifth(b, 50, Regs(0x120731c5, 0xbaf39337, 0xafab40b2, 0x2806e11b, 0x8714787c),
          Regs(0x7b71f76d, 0x27e9f1d8, 0x792410db, 0x8e11eb59, 0x99076cb3));
    Fifth(b, 55, Regs(0x7b71f76d, 0x27e9f1d8, 0x792410db, 0x8e11eb59, 0x99076cb3),
          Regs(0x3f52de5a, 0x09d785fd, 0x3498bfd4, 0xf211824f, 0xd79915ab));
  }

  lemma Rounds80(b: seq<word>)
    requires b == ABC_BLOCK
    ensures Rounds(INITIAL, b, 80) == Regs(0x42541b35, 0x5738d5e1, 0x21834873, 0x681e6df6, 0xd8fdf6ad)
  {
    hide W, Rounds;
    Rounds60(b);
    Words48(b);
    Words64(b);
    Fifth(b, 60, Regs(0x3f52de5a, 0x09d785fd, 0x3498bfd4, 0xf211824f, 0xd79915ab),
          Regs(0x19dfa7ac, 0x6b61c9e1, 0xed9b0082, 0x9523272c, 0xf5d5b051));
    Fifth(b, 65, Regs(0x19dfa7ac, 0x6b61c9e1, 0xed9b0082, 0x9523272c, 0xf5d5b051),
          Regs(0x3f2588c2, 0x497093c0, 0xde37534a, 0x030f7cad, 0x4405957e));
    Fifth(b, 70, Regs(0x3f2588c2, 0x497093c0, 0xde37534a, 0x030f7cad, 0x4405957e),
          Regs(0x5ee76897, 0x11793f6f, 0x3b6d0b79, 0xce616779, 0xf0667e31));
    Fifth(b, 75, Regs(0x5ee76897, 0x11793f6f, 0x3b6d0b79, 0xce616779, 0xf0667e31),
          Regs(0x42541b35, 0x5738d5e1, 0x21834873, 0x681e6df6, 0xd8fdf6ad));
  }

  // ----- padding and digest -----

  lemma Octets()
    ensures Octet(0) == 0 && Octet(24) == 24
  {
  }

  lemma LengthOctets()
    ensures Octets8(24) == [0, 0, 0, 0, 0, 0, 0, 24]
  {
    hide Octet;
    Octets();
    assert LengthValues(24) == [0, 0, 0, 0, 0, 0, 0, 24];
  }

  /** The message, the bit behind it, zeros, and its length in bits make one block. */
  lemma AbcPadded()
    ensures |Padded(ABC, 24)| == 64 && Block(Padded(ABC, 24)) == ABC_BLOCK
  {
    LengthOctets();
    hide Octets8;
    var p := Padded(ABC, 24);
    assert p[..4] == [0x61, 0x62, 0x63, 0x80];
    assert forall i :: 4 <= i < 63 ==> p[i] == 0;
    assert p[63] == 24;
  }

  lemma AbcSums()
    ensures Add(INITIAL, Regs(0x42541b35, 0x5738d5e1, 0x21834873, 0x681e6df6, 0xd8fdf6ad)) ==
            Regs(0xa9993e36, 0x4706816a, 0xba3e2571, 0x7850c26c, 0x9cd0d89d)
  {
  }

  lemma AbcOctets()
    ensures Octets4(0xa9993e36) == [0xa9, 0x99, 0x3e, 0x36]
    ensures Octets4(0x4706816a) == [0x47, 0x06, 0x81, 0x6a]
    ensures Octets4(0xba3e2571) == [0xba, 0x3e, 0x25, 0x71]
    ensures Octets4(0x7850c26c) == [0x78, 0x50, 0xc2, 0x6c]
    ensures Octets4(0x9cd0d89d) == [0x9c, 0xd0, 0xd8, 0x9d]
  {
  }

  /** The digest of "abc" in section B.1 of the SHA-1 examples of FIPS 180. */
  lemma AbcDigest()
    ensures Digest(ABC) ==
            [0xa9, 0x99, 0x3e, 0x36, 0x47, 0x06, 0x81, 0x6a, 0xba, 0x3e,
             0x25, 0x71, 0x78, 0x50, 0xc2, 0x6c, 0x9c, 0xd0, 0xd8, 0x9d]
  {
    hide Padded, Rounds, Block, Octets4, Add;
    AbcPadded();
    var p := Padded(ABC, 24);
    assert p[0..64] == p && Hashed(p, 0) == INITIAL;
    Rounds80(Block(p));
    AbcSums();
    AbcOctets();
  }
}
