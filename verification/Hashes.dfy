/** The signed and the unsigned form of 32-bit hashes: acoustid/fingerprint.py. */
module Hashes {
  const TWO_31 := 0x8000_0000
  const TWO_32 := 0x1_0000_0000

  /** `h & 0xFFFFFFFF` */
  function Unsigned(h: int): (u: int)
    ensures 0 <= u < TWO_32
  {
    h % TWO_32
  }

  /** `h & 0x80000000` */
  predicate HasHighBit(h: int) {
    h / TWO_31 % 2 == 1
  }

  /** One element of `to_signed`. */
  function Signed(h: int): int {
    if HasHighBit(h) then h - TWO_32 else h
  }

  function ToUnsigned(hashes: seq<int>): seq<int> {
    seq(|hashes|, i requires 0 <= i < |hashes| => Unsigned(hashes[i]))
  }

  function ToSigned(hashes: seq<int>): seq<int> {
    seq(|hashes|, i requires 0 <= i < |hashes| => Signed(hashes[i]))
  }

  predicate InRange(hashes: seq<int>, low: int, high: int) {
    forall i :: 0 <= i < |hashes| ==> low <= hashes[i] < high
  }

  /** Signed hashes survive the way to unsigned and back. */
  lemma SignedRoundTrip(hashes: seq<int>)
    ensures ToSigned(ToUnsigned(hashes)) == hashes <==> InRange(hashes, -TWO_31, TWO_31)
  {
    forall i | 0 <= i < |hashes|
      ensures Signed(Unsigned(hashes[i])) == hashes[i] <==> -TWO_31 <= hashes[i] < TWO_31
    {
      HighBitOfUnsigned(Unsigned(hashes[i]));
    }
    if ToSigned(ToUnsigned(hashes)) == hashes {
      assert forall i :: 0 <= i < |hashes| ==> ToSigned(ToUnsigned(hashes))[i] == Signed(Unsigned(hashes[i]));
    }
  }

  /** Unsigned hashes survive the way to signed and back, and no others do. */
  lemma UnsignedRoundTrip(hashes: seq<int>)
    ensures ToUnsigned(ToSigned(hashes)) == hashes <==> InRange(hashes, 0, TWO_32)
    ensures InRange(hashes, 0, TWO_32) ==> InRange(ToSigned(hashes), -TWO_31, TWO_31)
  {
    forall i | 0 <= i < |hashes|
      ensures Unsigned(Signed(hashes[i])) == hashes[i] <==> 0 <= hashes[i] < TWO_32
      ensures 0 <= hashes[i] < TWO_32 ==> -TWO_31 <= Signed(hashes[i]) < TWO_31
    {
      if 0 <= hashes[i] < TWO_32 {
        HighBitOfUnsigned(hashes[i]);
      }
    }
    if ToUnsigned(ToSigned(hashes)) == hashes {
      assert forall i :: 0 <= i < |hashes| ==> ToUnsigned(ToSigned(hashes))[i] == Unsigned(Signed(hashes[i]));
    }
  }

  lemma HighBitOfUnsigned(u: int)
    requires 0 <= u < TWO_32
    ensures HasHighBit(u) <==> TWO_31 <= u
  {
  }
}
