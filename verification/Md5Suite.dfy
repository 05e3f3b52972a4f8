/** One digest of the test suite of RFC 1321 (appendix A.5), worked out operation by operation. */
module Md5Suite {
  import opened Bytes
  import opened Md5

  /** "abcdefghijklmnopqrstuvwxyz" */
  function Alphabet(): (s: seq<byte>)
    ensures |s| == 26
  {
    seq(26, k requires 0 <= k < 26 => 97 + k)
  }

  /** Its one padded block, as words. */
  predicate AlphabetWords(m: seq<bv32>) {
    && |m| == 16
    && m[0] == 0x64636261 && m[1] == 0x68676665 && m[2] == 0x6c6b6a69 && m[3] == 0x706f6e6d && m[4] == 0x74737271
    && m[5] == 0x78777675 && m[6] == 0x807a79 && m[7] == 0 && m[8] == 0 && m[9] == 0 && m[10] == 0
    && m[11] == 0 && m[12] == 0 && m[13] == 0 && m[14] == 0xd0 && m[15] == 0
  }

  lemma SineAt(i: nat)
    requires i < 64
    ensures Sines()[i] == RoundSines(i / 16)[i % 16]
  {
    hide RoundSines;
  }

  /** Operation `i`, its word found by the formula and its numbers given. */
  lemma Next(m: seq<bv32>, i: nat, v: Words, x: bv32, y: bv32, s: bv6)
    requires |m| == 16 && i < 64 && Operations(INIT, m, Sines(), i) == v
    requires m[CodeIndex(i)] == x && RoundSines(i / 16)[i % 16] == y && s == Rotation(i / 16, i % 4)
    ensures Operations(INIT, m, Sines(), i + 1) == Turn(v, CodeAux(i, v.b, v.c, v.d), x, y, s)
  {
    hide Sines;
    SineAt(i);
    CodeIndexIsOrder(i / 16, i % 16);
    CodeAuxIsAux(i, v.b, v.c, v.d);
  }

  // ----- the sixty-four operations -----

  lemma Row1()
    ensures RoundSines(0)[0] == 0xd76aa478 && RoundSines(0)[1] == 0xe8c7b756 && RoundSines(0)[2] == 0x242070db
    ensures RoundSines(0)[3] == 0xc1bdceee && RoundSines(0)[4] == 0xf57c0faf && RoundSines(0)[5] == 0x4787c62a
    ensures RoundSines(0)[6] == 0xa8304613 && RoundSines(0)[7] == 0xfd469501 && RoundSines(0)[8] == 0x698098d8
    ensures RoundSines(0)[9] == 0x8b44f7af && RoundSines(0)[10] == 0xffff5bb1 && RoundSines(0)[11] == 0x895cd7be
    ensures RoundSines(0)[12] == 0x6b901122 && RoundSines(0)[13] == 0xfd987193 && RoundSines(0)[14] == 0xa679438e
    ensures RoundSines(0)[15] == 0x49b40821
  {
  }

  lemma Round1(m: seq<bv32>)
    requires AlphabetWords(m)
    requires Operations(INIT, m, Sines(), 0) == Words(0x67452301, 0xefcdab89, 0x98badcfe, 0x10325476)
    ensures Operations(INIT, m, Sines(), 16) == Words(0x1754a316, 0x608d6b7e, 0x00df74d5, 0x85567d90)
  {
    Row1();
    hide RoundSines;
    hide Sines;
    hide Order;
    hide Aux;
    hide Operations;
    Next(m, 0, Words(0x67452301, 0xefcdab89, 0x98badcfe, 0x10325476), 0x64636261, 0xd76aa478, 7);
    Next(m, 1, Words(0x10325476, 0xd6d117a6, 0xefcdab89, 0x98badcfe), 0x68676665, 0xe8c7b756, 12);
    Next(m, 2, Words(0x98badcfe, 0xaab1aaaa, 0xd6d117a6, 0xefcdab89), 0x6c6b6a69, 0x242070db, 17);
    Next(m, 3, Words(0xefcdab89, 0x227d8cf1, 0xaab1aaaa, 0xd6d117a6), 0x706f6e6d, 0xc1bdceee, 22);
    Next(m, 4, Words(0xd6d117a6, 0x4503b812, 0x227d8cf1, 0xaab1aaaa), 0x74737271, 0xf57c0faf, 7);
    Next(m, 5, Words(0xaab1aaaa, 0xfe15f787, 0x4503b812, 0x227d8cf1), 0x78777675, 0x4787c62a, 12);
    Next(m, 6, Words(0x227d8cf1, 0xa811b278, 0xfe15f787, 0x4503b812), 0x807a79, 0xa8304613, 17);
    Next(m, 7, Words(0x4503b812, 0xb71122fc, 0xa811b278, 0xfe15f787), 0, 0xfd469501, 22);
    Next(m, 8, Words(0xfe15f787, 0xda9bbb0d, 0xb71122fc, 0xa811b278), 0, 0x698098d8, 7);
    Next(m, 9, Words(0xa811b278, 0xae752899, 0xda9bbb0d, 0xb71122fc), 0, 0x8b44f7af, 12);
    Next(m, 10, Words(0xb71122fc, 0x2bbe757f, 0xae752899, 0xda9bbb0d), 0, 0xffff5bb1, 17);
    Next(m, 11, Words(0xda9bbb0d, 0x7d4bd80b, 0x2bbe757f, 0xae752899), 0, 0x895cd7be, 22);
    Next(m, 12, Words(0xae752899, 0x56cfa5cb, 0x7d4bd80b, 0x2bbe757f), 0, 0x6b901122, 7);
    Next(m, 13, Words(0x2bbe757f, 0x1754a316, 0x56cfa5cb, 0x7d4bd80b), 0, 0xfd987193, 12);
    Next(m, 14, Words(0x7d4bd80b, 0x85567d90, 0x1754a316, 0x56cfa5cb), 0xd0, 0xa679438e, 17);
    Next(m, 15, Words(0x56cfa5cb, 0x00df74d5, 0x85567d90, 0x1754a316), 0, 0x49b40821, 22);
  }

  lemma Row2()
    ensures RoundSines(1)[0] == 0xf61e2562 && RoundSines(1)[1] == 0xc040b340 && RoundSines(1)[2] == 0x265e5a51
    ensures RoundSines(1)[3] == 0xe9b6c7aa && RoundSines(1)[4] == 0xd62f105d && RoundSines(1)[5] == 0x02441453
    ensures RoundSines(1)[6] == 0xd8a1e681 && RoundSines(1)[7] == 0xe7d3fbc8 && RoundSines(1)[8] == 0x21e1cde6
    ensures RoundSines(1)[9] == 0xc33707d6 && RoundSines(1)[10] == 0xf4d50d87 && RoundSines(1)[11] == 0x455a14ed
    ensures RoundSines(1)[12] == 0xa9e3e905 && RoundSines(1)[13] == 0xfcefa3f8 && RoundSines(1)[14] == 0x676f02d9
    ensures RoundSines(1)[15] == 0x8d2a4c8a
  {
  }

  lemma Round2(m: seq<bv32>)
    requires AlphabetWords(m)
    requires Operations(INIT, m, Sines(), 16) == Words(0x1754a316, 0x608d6b7e, 0x00df74d5, 0x85567d90)
    ensures Operations(INIT, m, Sines(), 32) == Words(0xf54d8710, 0xaeb35766, 0x2e69afc7, 0x927b72e2)
  {
    Row2();
    hide RoundSines;
    hide Sines;
    hide Order;
    hide Aux;
    hide Operations;
    Next(m, 16, Words(0x1754a316, 0x608d6b7e, 0x00df74d5, 0x85567d90), 0x68676665, 0xf61e2562, 5);
    Next(m, 17, Words(0x85567d90, 0x2d8071cc, 0x608d6b7e, 0x00df74d5), 0x807a79, 0xc040b340, 9);
    Next(m, 18, Words(0x00df74d5, 0x5dcee119, 0x2d8071cc, 0x608d6b7e), 0, 0x265e5a51, 14);
    Next(m, 19, Words(0x608d6b7e, 0xedfe7e4b, 0x5dcee119, 0x2d8071cc), 0x64636261, 0xe9b6c7aa, 20);
    Next(m, 20, Words(0x2d8071cc, 0x4c2145b3, 0xedfe7e4b, 0x5dcee119), 0x78777675, 0xd62f105d, 5);
    Next(m, 21, Words(0x5dcee119, 0x570c43e0, 0x4c2145b3, 0xedfe7e4b), 0, 0x2441453, 9);
    Next(m, 22, Words(0xedfe7e4b, 0x977efd2a, 0x570c43e0, 0x4c2145b3), 0, 0xd8a1e681, 14);
    Next(m, 23, Words(0x4c2145b3, 0xc28ab49d, 0x977efd2a, 0x570c43e0), 0x74737271, 0xe7d3fbc8, 20);
    Next(m, 24, Words(0x570c43e0, 0xc9f162d4, 0xc28ab49d, 0x977efd2a), 0, 0x21e1cde6, 5);
    Next(m, 25, Words(0x977efd2a, 0x25bfae3b, 0xc9f162d4, 0xc28ab49d), 0xd0, 0xc33707d6, 9);
    Next(m, 26, Words(0xc28ab49d, 0x89980104, 0x25bfae3b, 0xc9f162d4), 0x706f6e6d, 0xf4d50d87, 14);
    Next(m, 27, Words(0xc9f162d4, 0xf8c8365f, 0x89980104, 0x25bfae3b), 0, 0x455a14ed, 20);
    Next(m, 28, Words(0x25bfae3b, 0xe6d3b398, 0xf8c8365f, 0x89980104), 0, 0xa9e3e905, 5);
    Next(m, 29, Words(0x89980104, 0xf54d8710, 0xe6d3b398, 0xf8c8365f), 0x6c6b6a69, 0xfcefa3f8, 9);
    Next(m, 30, Words(0xf8c8365f, 0x927b72e2, 0xf54d8710, 0xe6d3b398), 0, 0x676f02d9, 14);
    Next(m, 31, Words(0xe6d3b398, 0x2e69afc7, 0x927b72e2, 0xf54d8710), 0, 0x8d2a4c8a, 20);
  }

  lemma Row3()
    ensures RoundSines(2)[0] == 0xfffa3942 && RoundSines(2)[1] == 0x8771f681 && RoundSines(2)[2] == 0x6d9d6122
    ensures RoundSines(2)[3] == 0xfde5380c && RoundSines(2)[4] == 0xa4beea44 && RoundSines(2)[5] == 0x4bdecfa9
    ensures RoundSines(2)[6] == 0xf6bb4b60 && RoundSines(2)[7] == 0xbebfbc70 && RoundSines(2)[8] == 0x289b7ec6
    ensures RoundSines(2)[9] == 0xeaa127fa && RoundSines(2)[10] == 0xd4ef3085 && RoundSines(2)[11] == 0x04881d05
    ensures RoundSines(2)[12] == 0xd9d4d039 && RoundSines(2)[13] == 0xe6db99e5 && RoundSines(2)[14] == 0x1fa27cf8
    ensures RoundSines(2)[15] == 0xc4ac5665
  {
  }

  lemma Round3(m: seq<bv32>)
    requires AlphabetWords(m)
    requires Operations(INIT, m, Sines(), 32) == Words(0xf54d8710, 0xaeb35766, 0x2e69afc7, 0x927b72e2)
    ensures Operations(INIT, m, Sines(), 48) == Words(0xb5d41f9c, 0x71d10367, 0x703d54d8, 0xa04b4904)
  {
    Row3();
    hide RoundSines;
    hide Sines;
    hide Order;
    hide Aux;
    hide Operations;
    Next(m, 32, Words(0xf54d8710, 0xaeb35766, 0x2e69afc7, 0x927b72e2), 0x78777675, 0xfffa3942, 4);
    Next(m, 33, Words(0x927b72e2, 0xb4bf680e, 0xaeb35766, 0x2e69afc7), 0, 0x8771f681, 11);
    Next(m, 34, Words(0x2e69afc7, 0x4c8ffa80, 0xb4bf680e, 0xaeb35766), 0, 0x6d9d6122, 16);
    Next(m, 35, Words(0xaeb35766, 0x2361ed0a, 0x4c8ffa80, 0xb4bf680e), 0xd0, 0xfde5380c, 23);
    Next(m, 36, Words(0xb4bf680e, 0x06a5e211, 0x2361ed0a, 0x4c8ffa80), 0x68676665, 0xa4beea44, 4);
    Next(m, 37, Words(0x4c8ffa80, 0xb9c0c733, 0x06a5e211, 0x2361ed0a), 0x74737271, 0x4bdecfa9, 11);
    Next(m, 38, Words(0x2361ed0a, 0xf1e6dc7a, 0xb9c0c733, 0x06a5e211), 0, 0xf6bb4b60, 16);
    Next(m, 39, Words(0x06a5e211, 0x23a9451b, 0xf1e6dc7a, 0xb9c0c733), 0, 0xbebfbc70, 23);
    Next(m, 40, Words(0xb9c0c733, 0x8d41bf99, 0x23a9451b, 0xf1e6dc7a), 0, 0x289b7ec6, 4);
    Next(m, 41, Words(0xf1e6dc7a, 0xa3e88ead, 0x8d41bf99, 0x23a9451b), 0x64636261, 0xeaa127fa, 11);
    Next(m, 42, Words(0x23a9451b, 0x02c0b11c, 0xa3e88ead, 0x8d41bf99), 0x706f6e6d, 0xd4ef3085, 16);
    Next(m, 43, Words(0x8d41bf99, 0x66f6468d, 0x02c0b11c, 0xa3e88ead), 0x807a79, 0x4881d05, 23);
    Next(m, 44, Words(0xa3e88ead, 0x90a35af5, 0x66f6468d, 0x02c0b11c), 0, 0xd9d4d039, 4);
    Next(m, 45, Words(0x02c0b11c, 0xb5d41f9c, 0x90a35af5, 0x66f6468d), 0, 0xe6db99e5, 11);
    Next(m, 46, Words(0x66f6468d, 0xa04b4904, 0xb5d41f9c, 0x90a35af5), 0, 0x1fa27cf8, 16);
    Next(m, 47, Words(0x90a35af5, 0x703d54d8, 0xa04b4904, 0xb5d41f9c), 0x6c6b6a69, 0xc4ac5665, 23);
  }

  lemma Row4()
    ensures RoundSines(3)[0] == 0xf4292244 && RoundSines(3)[1] == 0x432aff97 && RoundSines(3)[2] == 0xab9423a7
    ensures RoundSines(3)[3] == 0xfc93a039 && RoundSines(3)[4] == 0x655b59c3 && RoundSines(3)[5] == 0x8f0ccc92
    ensures RoundSines(3)[6] == 0xffeff47d && RoundSines(3)[7] == 0x85845dd1 && RoundSines(3)[8] == 0x6fa87e4f
    ensures RoundSines(3)[9] == 0xfe2ce6e0 && RoundSines(3)[10] == 0xa3014314 && RoundSines(3)[11] == 0x4e0811a1
    ensures RoundSines(3)[12] == 0xf7537e82 && RoundSines(3)[13] == 0xbd3af235 && RoundSines(3)[14] == 0x2ad7d2bb
    ensures RoundSines(3)[15] == 0xeb86d391
  {
  }

  lemma Round4(m: seq<bv32>)
    requires AlphabetWords(m)
    requires Operations(INIT, m, Sines(), 48) == Words(0xb5d41f9c, 0x71d10367, 0x703d54d8, 0xa04b4904)
    ensures Operations(INIT, m, Sines(), 64) == Words(0x708ed9c2, 0x1116e6d8, 0xd38f1e7f, 0x2baf1354)
  {
    Row4();
    hide RoundSines;
    hide Sines;
    hide Order;
    hide Aux;
    hide Operations;
    Next(m, 48, Words(0xb5d41f9c, 0x71d10367, 0x703d54d8, 0xa04b4904), 0x64636261, 0xf4292244, 6);
    Next(m, 49, Words(0xa04b4904, 0xfc32dd6e, 0x71d10367, 0x703d54d8), 0, 0x432aff97, 10);
    Next(m, 50, Words(0x703d54d8, 0x65456b34, 0xfc32dd6e, 0x71d10367), 0xd0, 0xab9423a7, 15);
    Next(m, 51, Words(0x71d10367, 0xb35602cb, 0x65456b34, 0xfc32dd6e), 0x78777675, 0xfc93a039, 21);
    Next(m, 52, Words(0xfc32dd6e, 0x33edb197, 0xb35602cb, 0x65456b34), 0, 0x655b59c3, 6);
    Next(m, 53, Words(0x65456b34, 0xc1e942f1, 0x33edb197, 0xb35602cb), 0x706f6e6d, 0x8f0ccc92, 10);
    Next(m, 54, Words(0xb35602cb, 0xd9bb987c, 0xc1e942f1, 0x33edb197), 0, 0xffeff47d, 15);
    Next(m, 55, Words(0x33edb197, 0x23a68048, 0xd9bb987c, 0xc1e942f1), 0x68676665, 0x85845dd1, 21);
    Next(m, 56, Words(0xc1e942f1, 0x83877d1b, 0x23a68048, 0xd9bb987c), 0, 0x6fa87e4f, 6);
    Next(m, 57, Words(0xd9bb987c, 0x0077c208, 0x83877d1b, 0x23a68048), 0, 0xfe2ce6e0, 10);
    Next(m, 58, Words(0x23a68048, 0x847fc2e7, 0x0077c208, 0x83877d1b), 0x807a79, 0xa3014314, 15);
    Next(m, 59, Words(0x83877d1b, 0xa3e2247f, 0x847fc2e7, 0x0077c208), 0, 0x4e0811a1, 21);
    Next(m, 60, Words(0x0077c208, 0x5e6bc930, 0xa3e2247f, 0x847fc2e7), 0x74737271, 0xf7537e82, 6);
    Next(m, 61, Words(0x847fc2e7, 0x708ed9c2, 0x5e6bc930, 0xa3e2247f), 0, 0xbd3af235, 10);
    Next(m, 62, Words(0xa3e2247f, 0x2baf1354, 0x708ed9c2, 0x5e6bc930), 0x6c6b6a69, 0x2ad7d2bb, 15);
    Next(m, 63, Words(0x5e6bc930, 0xd38f1e7f, 0x2baf1354, 0x708ed9c2), 0, 0xeb86d391, 21);
  }

  // ----- the message and its digest -----

  lemma OneBlock()
    ensures |Pad(Alphabet())| == 64
  {
  }

  lemma WordAt(k: nat)
    requires k < 16
    ensures |Pad(Alphabet())| == 64
    ensures U32At(Pad(Alphabet()), 4 * k) ==
            if k < 6 then 0x64636261 + 0x04040404 * k else if k == 6 then 0x807a79 else if k == 14 then 208 else 0
  {
  }

  lemma WordIs(block: seq<byte>, k: nat, w: bv32)
    requires |block| == 64 && k < 16 && U32At(block, 4 * k) == w as int
    ensures WordsOf(block)[k] == w
  {
    hide U32At;
  }

  lemma PaddedWord(k: nat, w: bv32)
    requires k < 16
    requires w as int ==
             if k < 6 then 0x64636261 + 0x04040404 * k else if k == 6 then 0x807a79 else if k == 14 then 208 else 0
    ensures |Pad(Alphabet())| == 64 && WordsOf(Pad(Alphabet()))[k] == w
  {
    WordAt(k);
    hide *;
    WordIs(Pad(Alphabet()), k, w);
  }

  lemma PaddedAlphabet()
    ensures |Pad(Alphabet())| == 64 && AlphabetWords(WordsOf(Pad(Alphabet())))
  {
    OneBlock();
    hide Pad;
    hide Alphabet;
    hide WordsOf;
    PaddedWord(0, 0x64636261); PaddedWord(1, 0x68676665); PaddedWord(2, 0x6c6b6a69); PaddedWord(3, 0x706f6e6d);
    PaddedWord(4, 0x74737271); PaddedWord(5, 0x78777675); PaddedWord(6, 0x807a79); PaddedWord(7, 0);
    PaddedWord(8, 0); PaddedWord(9, 0); PaddedWord(10, 0); PaddedWord(11, 0);
    PaddedWord(12, 0); PaddedWord(13, 0); PaddedWord(14, 0xd0); PaddedWord(15, 0);
  }

  lemma AlphabetOperations(m: seq<bv32>)
    requires AlphabetWords(m)
    ensures Operations(INIT, m, Sines(), 64) == Words(0x708ed9c2, 0x1116e6d8, 0xd38f1e7f, 0x2baf1354)
  {
    assert Operations(INIT, m, Sines(), 0) == INIT;
    hide *;
    Round1(m);
    Round2(m);
    Round3(m);
    Round4(m);
  }

  lemma AlphabetProcessed()
    ensures Process(Pad(Alphabet())) == Words(0xd7d3fcc3, 0x00e49261, 0x6c49fb7d, 0x3be167ca)
  {
    PaddedAlphabet();
    var block := Pad(Alphabet());
    hide Pad;
    hide Alphabet;
    AlphabetOperations(WordsOf(block));
    hide AlphabetWords;
    hide WordsOf;
    hide Operations;
    hide Sines;
    ProcessSnoc([], block);
    Units(block);
  }

  /** "c3fcd3d76192e4007dfb496cca67e13b" */
  lemma AlphabetDigest()
    ensures Digest(Alphabet()) ==
            [0xc3, 0xfc, 0xd3, 0xd7, 0x61, 0x92, 0xe4, 0x00, 0x7d, 0xfb, 0x49, 0x6c, 0xca, 0x67, 0xe1, 0x3b]
  {
    AlphabetProcessed();
    hide Process;
    hide Pad;
    hide Alphabet;
  }
}
