/** The examples of the standards the codecs follow: section 10 of RFC 4648 and section 7 of RFC 3629. */
module Vectors {
  import opened Options
  import opened Utf8
  import opened Base64

  /** Table 1 of RFC 4648: A to Z, a to z, 0 to 9, plus and slash. */
  lemma AlphabetIsStandard(i: Sextet)
    ensures EncodeChar(0) == 'A' as int && EncodeChar(25) == 'Z' as int
    ensures EncodeChar(26) == 'a' as int && EncodeChar(51) == 'z' as int
    ensures EncodeChar(52) == '0' as int && EncodeChar(61) == '9' as int
    ensures EncodeChar(62) == '+' as int && EncodeChar(63) == '/' as int
    ensures i !in {25, 51, 61, 62, 63} ==> EncodeChar(i + 1) == EncodeChar(i) + 1
  {
  }

  /** f, fo and foo: Zg==, Zm8= and Zm9v. */
  lemma ShortVectors()
    ensures Encoded([]) == [] && Encoded([0x66]) == [0x5A, 0x67, PAD, PAD]
    ensures Encoded([0x66, 0x6F]) == [0x5A, 0x6D, 0x38, PAD]
    ensures Encoded([0x66, 0x6F, 0x6F]) == [0x5A, 0x6D, 0x39, 0x76]
  {
    assert Encoded([0x66, 0x6F, 0x6F][3..]) == [];
  }

  /** foob, fooba and foobar: Zm9vYg==, Zm9vYmE= and Zm9vYmFy. */
  lemma LongVectors()
    ensures Encoded([0x66, 0x6F, 0x6F, 0x62]) == [0x5A, 0x6D, 0x39, 0x76] + [0x59, 0x67, PAD, PAD]
    ensures Encoded([0x66, 0x6F, 0x6F, 0x62, 0x61]) == [0x5A, 0x6D, 0x39, 0x76] + [0x59, 0x6D, 0x45, PAD]
    ensures Encoded([0x66, 0x6F, 0x6F, 0x62, 0x61, 0x72]) == [0x5A, 0x6D, 0x39, 0x76] + [0x59, 0x6D, 0x46, 0x79]
  {
    hide EncodeTriple;
    FirstTriple();
    SecondTriple();
    LastTriples();
    assert [0x66, 0x6F, 0x6F, 0x62][3..] == [0x62];
    assert [0x66, 0x6F, 0x6F, 0x62, 0x61][3..] == [0x62, 0x61];
    assert [0x66, 0x6F, 0x6F, 0x62, 0x61, 0x72][3..] == [0x62, 0x61, 0x72];
    assert [0x62, 0x61, 0x72][3..] == [];
  }

  lemma FirstTriple()
    ensures EncodeTriple(0x66, 0x6F, 0x6F) == [0x5A, 0x6D, 0x39, 0x76]
  {
    assert 0x66 * 0x1_0000 + 0x6F * 0x100 + 0x6F == 0x66_6F6F;
  }

  lemma SecondTriple()
    ensures EncodeTriple(0x62, 0x61, 0x72) == [0x59, 0x6D, 0x46, 0x79]
  {
  }

  lemma LastTriples()
    ensures EncodeTriple(0x62, 0, 0)[..2] == [0x59, 0x67] && EncodeTriple(0x62, 0x61, 0)[..3] == [0x59, 0x6D, 0x45]
  {
  }

  /** A not-identical-to sign, a Greek letter and a full stop; hangul; kanji; a character of the
      supplementary plane. */
  lemma Utf8Vectors()
    ensures Encode(0x41) == [0x41] && Encode(0x2262) == [0xE2, 0x89, 0xA2] && Encode(0x391) == [0xCE, 0x91]
    ensures Encode(0xD55C) == [0xED, 0x95, 0x9C] && Encode(0xAD6D) == [0xEA, 0xB5, 0xAD]
    ensures Encode(0xC5B4) == [0xEC, 0x96, 0xB4]
    ensures Encode(0x65E5) == [0xE6, 0x97, 0xA5] && Encode(0x672C) == [0xE6, 0x9C, 0xAC]
    ensures Encode(0x8A9E) == [0xE8, 0xAA, 0x9E]
    ensures Encode(0xFEFF) == [0xEF, 0xBB, 0xBF] && Encode(0x233B4) == [0xF0, 0xA3, 0x8E, 0xB4]
  {
  }
}
