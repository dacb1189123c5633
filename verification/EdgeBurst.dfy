/** A burst of four bytes that reaches across the edge of the checksum field can go unseen. */
module EdgeBurst {
  import opened Crc32
  import opened WalHeader
  import opened WalDamage

  function Zeros(n: nat): (s: seq<byte>)
    ensures |s| == n
  {
    seq(n, _ => 0)
  }

  /** Eight more unchanged bytes, with the register after each. */
  lemma FeedEight(r: bv32, n: nat, c: bv32, c1: bv32, c2: bv32, c3: bv32,
                  c4: bv32, c5: bv32, c6: bv32, c7: bv32, c8: bv32)
    requires Feed(r, Zeros(n)) == c
    requires Step(c, 0) == c1 && Step(c1, 0) == c2 && Step(c2, 0) == c3 && Step(c3, 0) == c4
    requires Step(c4, 0) == c5 && Step(c5, 0) == c6 && Step(c6, 0) == c7 && Step(c7, 0) == c8
    ensures Feed(r, Zeros(n + 8)) == c8
  {
    hide Step;
    FeedFour(c, 0, 0, 0, 0);
    FeedFour(c4, 0, 0, 0, 0);
    FeedAppend(c, [0, 0, 0, 0], [0, 0, 0, 0]);
    assert Zeros(8) == [0, 0, 0, 0] + [0, 0, 0, 0];
    FeedAppend(r, Zeros(n), Zeros(8));
    assert Zeros(n + 8) == Zeros(n) + Zeros(8);
  }

  // The register after a change of 0x59 in one byte, and after the unchanged bytes behind it.

  lemma FeedZeros0()
    ensures Feed(0x12B7_E950, Zeros(0)) == 0x12B7_E950
  {}

  lemma FeedZeros8()
    ensures Feed(0x12B7_E950, Zeros(8)) == 0xDEF1_F72D
  {
    FeedZeros0();
    hide Feed;
    FeedEight(0x12B7_E950, 0, 0x12B7_E950, 0x6B79_E61D, 0x636D_153F, 0xB605_4028,
              0x3503_ADBA, 0x2B81_593F, 0xB64D_AC64, 0x4A69_E8ED, 0xDEF1_F72D);
  }

  lemma FeedZeros16()
    ensures Feed(0x12B7_E950, Zeros(16)) == 0x2BA1_7854
  {
    FeedZeros8();
    hide Feed;
    FeedEight(0x12B7_E950, 8, 0xDEF1_F72D, 0x4501_AD82, 0x03F3_E3A1, 0xA1D2_609D,
              0x8E1F_3D99, 0x895D_34DD, 0xF8EB_F35D, 0x1522_C6BA, 0x2BA1_7854);
  }

  lemma FeedZeros24()
    ensures Feed(0x12B7_E950, Zeros(24)) == 0x6ABA_BF2E
  {
    FeedZeros16();
    hide Feed;
    FeedEight(0x12B7_E950, 16, 0x2BA1_7854, 0x6C2D_3495, 0x8009_4AFF, 0x2D82_E6C7,
              0x052D_D5F5, 0xCDD2_2B46, 0x9F72_368E, 0x0A9F_DC11, 0x6ABA_BF2E);
  }

  lemma FeedZeros32()
    ensures Feed(0x12B7_E950, Zeros(32)) == 0x5212_10D2
  {
    FeedZeros24();
    hide Feed;
    FeedEight(0x12B7_E950, 24, 0x6ABA_BF2E, 0xDCBC_B770, 0x50D9_CD8B, 0x7A3A_8365,
              0x3DA2_AF54, 0x6C3B_3742, 0x98BE_1B8B, 0x7AF2_E4B3, 0x5212_10D2);
  }

  lemma FeedZeros40()
    ensures Feed(0x12B7_E950, Zeros(40)) == 0x2F2B_D294
  {
    FeedZeros32();
    hide Feed;
    FeedEight(0x12B7_E950, 32, 0x5212_10D2, 0x688F_A1E8, 0xAEB9_E5EB, 0x3776_8215,
              0x6DEA_9269, 0x3403_336E, 0xAA3E_4F6C, 0x44AE_133C, 0x2F2B_D294);
  }

  lemma FeedZeros48()
    ensures Feed(0x12B7_E950, Zeros(48)) == 0xB96C_E547
  {
    FeedZeros40();
    hide Feed;
    FeedEight(0x12B7_E950, 40, 0x2F2B_D294, 0xF74D_7C8F, 0x7DF0_D3CD, 0xE5A8_4EDE,
              0x618E_579D, 0x8EDF_61AE, 0x31E0_518E, 0x0A31_4E76, 0xB96C_E547);
  }

  lemma FeedZeros56()
    ensures Feed(0x12B7_E950, Zeros(56)) == 0x1021_E700
  {
    FeedZeros48();
    hide Feed;
    FeedEight(0x12B7_E950, 48, 0xB96C_E547, 0xE801_B8D6, 0x6F58_7659, 0x12D8_B126,
              0xD21F_5D4C, 0x7FB8_12E6, 0x4916_FF5F, 0xFB9D_5A9A, 0x1021_E700);
  }

  lemma FirstSteps()
    ensures Step(0, 0) == 0 && Step(0, 0x59) == 0x12B7_E950
  {}

  /** The change as the checksum sees it: one byte of the four before the field. */
  lemma PatternChecksum()
    ensures Feed(0, [0, 0, 0, 0x59] + Zeros(56)) == 0x1021_E700
  {
    FirstSteps();
    hide Step;
    FeedFour(0, 0, 0, 0, 0x59);
    FeedAppend(0, [0, 0, 0, 0x59], Zeros(56));
    FeedZeros56();
  }

  /** The record's bytes 3 to 6 changed: the TCP flags and the first three bytes of the checksum. */
  function Burst(e: seq<byte>): (d: seq<byte>)
    requires |e| == HEADER_SIZE
    ensures |d| == |e|
  {
    e[..3] + [XorByte(e[3], 0x59), XorByte(e[4], 0x10), XorByte(e[5], 0x21), XorByte(e[6], 0xE7)] + e[7..]
  }

  lemma XorByteBack(a: byte, b: byte)
    ensures XorByte(XorByte(a, b), a) == b && XorByte(a, a) == 0
    ensures b != 0 ==> XorByte(a, b) != a
  {}

  lemma BurstChange(e: seq<byte>)
    requires |e| == HEADER_SIZE
    ensures Change(Checked(Burst(e)), Checked(e)) == [0, 0, 0, 0x59] + Zeros(56)
  {
    forall a: byte ensures XorByte(a, a) == 0 { XorByteBack(a, 0); }
    XorByteBack(e[3], 0x59);
    hide XorByte;
  }

  lemma BurstField(a: byte, b: byte, c: byte, d: byte)
    ensures Xor(Join32(XorByte(a, 0x10), XorByte(b, 0x21), XorByte(c, 0xE7), d), Join32(a, b, c, d)) == 0x1021_E700
  {}

  lemma BurstUnseen(e: seq<byte>)
    requires |e| == HEADER_SIZE
    ensures Unseen(e, Burst(e))
  {
    BurstChange(e);
    PatternChecksum();
    BurstField(e[4], e[5], e[6], e[7]);
    hide Feed, Change, Xor, XorByte, Join32, Checked;
    assert Burst(e)[..3] == e[..3];
  }

  lemma BurstShape(e: seq<byte>)
    requires |e| == HEADER_SIZE
    ensures Damaged(e, Burst(e), 3, 4) && Burst(e)[56..60] == e[56..60]
  {
    XorByteBack(e[3], 0x59);
    hide XorByte;
    assert Burst(e)[3] != e[3];
  }

  /**
   For every record with an empty payload there is a change of four bytes across the front edge of the checksum field
   with which it still decodes: the windows of Covered stop at that edge for a reason.
   */
  lemma EdgeBurstUnseen(r: WalRecord) returns (d: seq<byte>)
    requires r.payload == []
    ensures Damaged(Encoded(r), d, 3, 4) && ParseHead(d).Some?
  {
    hide Encoded, ParseHead, Unseen, Damaged, Burst;
    d := Burst(Encoded(r));
    BurstUnseen(Encoded(r));
    BurstShape(Encoded(r));
    DamageExact(r, d, []);
    assert d + [] == d;
  }
}
