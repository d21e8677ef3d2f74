/**
 The driver library reports its version as one unsigned 32-bit word: the major
 number in bits 31-24, the minor number in bits 23-16 and the build number in
 bits 15-0. This module splits such a word into its three fields and proves
 that nothing is lost.
 */
module Version {

  const TWO_POW_16: nat := 0x1_0000
  const TWO_POW_24: nat := 0x100_0000
  const TWO_POW_32: nat := 0x1_0000_0000

  datatype DllVersion = DllVersion(major: nat, minor: nat, build: nat)

  /** The fields of a version fit in their bit ranges. */
  predicate InRange(ver: DllVersion) {
    ver.major < 0x100 && ver.minor < 0x100 && ver.build < TWO_POW_16
  }

  /**
   Splits a version word. A right shift of a non-negative number is a floor
   division by a power of two, and a mask of low bits is a remainder.
   */
  function ParseDllVersion(v: nat): (ver: DllVersion)
    ensures InRange(ver)
    ensures v < TWO_POW_32 ==> ver.major == v / TWO_POW_24
  {
    DllVersion((v / TWO_POW_24) % 0x100, (v / TWO_POW_16) % 0x100, v % TWO_POW_16)
  }

  /** Packs the three fields back into one word: the inverse of ParseDllVersion. */
  function EncodeDllVersion(ver: DllVersion): (v: nat)
    requires InRange(ver)
    ensures v < TWO_POW_32
    ensures v % TWO_POW_16 == ver.build
  {
    ver.major * TWO_POW_24 + ver.minor * TWO_POW_16 + ver.build
  }

  /** Decoding a 32-bit word loses nothing: the fields reassemble into it. */
  lemma ParseThenEncode(v: nat)
    requires v < TWO_POW_32
    ensures EncodeDllVersion(ParseDllVersion(v)) == v
  {
    var hi := v / TWO_POW_16;
    assert v == hi * TWO_POW_16 + v % TWO_POW_16;
    assert hi == (hi / 0x100) * 0x100 + hi % 0x100;
    assert hi / 0x100 == v / TWO_POW_24;
    assert v / TWO_POW_24 < 0x100;
  }

  /** Encoding fields in range and decoding again gives back the same fields. */
  lemma EncodeThenParse(ver: DllVersion)
    requires InRange(ver)
    ensures ParseDllVersion(EncodeDllVersion(ver)) == ver
  {
    var v := EncodeDllVersion(ver);
    var hi := ver.major * 0x100 + ver.minor;
    assert v == hi * TWO_POW_16 + ver.build;
    assert v / TWO_POW_16 == hi;
    assert hi / 0x100 == ver.major;
    assert v / TWO_POW_24 == ver.major;
  }

  /** Two words below 2^32 with the same fields are the same word. */
  lemma ParseInjective(v: nat, w: nat)
    requires v < TWO_POW_32 && w < TWO_POW_32
    requires ParseDllVersion(v) == ParseDllVersion(w)
    ensures v == w
  {
    ParseThenEncode(v);
    ParseThenEncode(w);
  }

  /** The worked example: 0x01020003 is version 1.2.3. */
  lemma ParseExample()
    ensures ParseDllVersion(0x0102_0003) == DllVersion(1, 2, 3)
  {
  }
}
