/** The part of MessagePack the feed speaks: the int, str, array and map format
    families of the MessagePack specification, written in the shortest form and read
    in any. */
module MessagePack {

  type Byte = b: int | 0 <= b < 256

  /** A map is kept flat: key, value, key, value. */
  datatype Value = Int(n: nat) | Str(s: seq<Byte>) | Arr(elements: seq<Value>) | Map(entries: seq<Value>)

  datatype Kind = KInt | KStr | KArr | KMap

  /** `More` means the bytes end inside a value. */
  datatype Read<T> = Done(value: T, rest: seq<Byte>) | More | Bad

  // ----- numbers ----------------------------------------------------------------------

  function Pow256(k: nat): nat {
    if k == 0 then 1 else 256 * Pow256(k - 1)
  }

  function BigEndian(n: nat, width: nat): (b: seq<Byte>)
    ensures |b| == width
  {
    if width == 0 then [] else BigEndian(n / 256, width - 1) + [n % 256]
  }

  function FromBigEndian(b: seq<Byte>): nat {
    if b == [] then 0 else FromBigEndian(b[..|b| - 1]) * 256 + b[|b| - 1]
  }

  lemma {:induction false} BigEndianRoundTrip(n: nat, width: nat)
    requires n < Pow256(width)
    ensures FromBigEndian(BigEndian(n, width)) == n
  {
    if width != 0 {
      BigEndianRoundTrip(n / 256, width - 1);
      var b := BigEndian(n, width);
      assert b[..|b| - 1] == BigEndian(n / 256, width - 1);
    }
  }

  lemma Widths()
    ensures Pow256(1) == 0x100 && Pow256(2) == 0x1_0000 && Pow256(4) == 0x1_0000_0000
    ensures Pow256(8) == 0x1_0000_0000_0000_0000
  {
    assert Pow256(2) == 256 * Pow256(1);
    assert Pow256(3) == 256 * Pow256(2);
    assert Pow256(4) == 256 * Pow256(3);
    assert Pow256(5) == 256 * Pow256(4);
    assert Pow256(6) == 256 * Pow256(5);
    assert Pow256(7) == 256 * Pow256(6);
    assert Pow256(8) == 256 * Pow256(7);
  }

  // ----- heads: a kind and a number -------------------------------------------------------

  /** How many bytes of number follow the first byte, shortest form. */
  function Width(kind: Kind, n: nat): nat {
    match kind
    case KInt => if n < 0x80 then 0 else if n < 0x100 then 1 else if n < 0x1_0000 then 2 else if n < 0x1_0000_0000 then 4 else 8
    case KStr => if n < 32 then 0 else if n < 0x100 then 1 else if n < 0x1_0000 then 2 else 4
    case KArr => if n < 16 then 0 else if n < 0x1_0000 then 2 else 4
    case KMap => if n < 16 then 0 else if n < 0x1_0000 then 2 else 4
  }

  predicate Fits(kind: Kind, n: nat) {
    n < if kind == KInt then 0x1_0000_0000_0000_0000 else 0x1_0000_0000
  }

  function FirstByte(kind: Kind, n: nat): Byte
    requires Fits(kind, n)
  {
    match (kind, Width(kind, n))
    case (KInt, 0) => n
    case (KInt, 1) => 0xcc
    case (KInt, 2) => 0xcd
    case (KInt, 4) => 0xce
    case (KInt, _) => 0xcf
    case (KMap, 0) => 0x80 + n
    case (KMap, 2) => 0xde
    case (KMap, _) => 0xdf
    case (KArr, 0) => 0x90 + n
    case (KArr, 2) => 0xdc
    case (KArr, _) => 0xdd
    case (KStr, 0) => 0xa0 + n
    case (KStr, 1) => 0xd9
    case (KStr, 2) => 0xda
    case (KStr, _) => 0xdb
  }

  function Head(kind: Kind, n: nat): seq<Byte>
    requires Fits(kind, n)
  {
    [FirstByte(kind, n)] + BigEndian(n, Width(kind, n))
  }

  /** What a first byte announces: a number at once, or a number of so many bytes. */
  datatype Announced = Now(kind: Kind, n: nat) | Wide(kind: Kind, width: nat) | Unknown

  function Announce(b: Byte): Announced {
    if b < 0x80 then Now(KInt, b)
    else if b < 0x90 then Now(KMap, b - 0x80)
    else if b < 0xa0 then Now(KArr, b - 0x90)
    else if b < 0xc0 then Now(KStr, b - 0xa0)
    else if b == 0xcc then Wide(KInt, 1)
    else if b == 0xcd then Wide(KInt, 2)
    else if b == 0xce then Wide(KInt, 4)
    else if b == 0xcf then Wide(KInt, 8)
    else if b == 0xd9 then Wide(KStr, 1)
    else if b == 0xda then Wide(KStr, 2)
    else if b == 0xdb then Wide(KStr, 4)
    else if b == 0xdc then Wide(KArr, 2)
    else if b == 0xdd then Wide(KArr, 4)
    else if b == 0xde then Wide(KMap, 2)
    else if b == 0xdf then Wide(KMap, 4)
    else Unknown
  }

  function ReadHead(b: seq<Byte>): (r: Read<(Kind, nat)>)
    ensures r.Done? ==> |r.rest| < |b|
  {
    if b == [] then More
    else
      match Announce(b[0])
      case Now(kind, n) => Done((kind, n), b[1..])
      case Wide(kind, w) => if |b| <= w then More else Done((kind, FromBigEndian(b[1..w + 1])), b[w + 1..])
      case Unknown => Bad
  }

  lemma FirstByteAnnounces(kind: Kind, n: nat)
    requires Fits(kind, n)
    ensures Announce(FirstByte(kind, n)) == var w := Width(kind, n); if w == 0 then Now(kind, n) else Wide(kind, w)
  {
  }

  lemma WidthSuffices(kind: Kind, n: nat)
    requires Fits(kind, n)
    ensures Width(kind, n) == 0 || n < Pow256(Width(kind, n))
  {
    Widths();
  }

  lemma HeadRoundTrip(kind: Kind, n: nat, rest: seq<Byte>)
    requires Fits(kind, n)
    ensures ReadHead(Head(kind, n) + rest) == Done((kind, n), rest)
  {
    var w := Width(kind, n);
    var b := Head(kind, n) + rest;
    FirstByteAnnounces(kind, n);
    assert b[0] == FirstByte(kind, n) && |b| == 1 + w + |rest|;
    assert b[w + 1..] == rest;
    assert b[1..w + 1] == BigEndian(n, w);
    WidthSuffices(kind, n);
    if w != 0 {
      BigEndianRoundTrip(n, w);
    }
  }

  lemma HeadPrefix(kind: Kind, n: nat, k: nat)
    requires Fits(kind, n) && k < |Head(kind, n)|
    ensures ReadHead(Head(kind, n)[..k]) == More
  {
    FirstByteAnnounces(kind, n);
  }

  // ----- values ------------------------------------------------------------------------------

  predicate Encodable(v: Value) {
    match v
    case Int(n) => Fits(KInt, n)
    case Str(s) => Fits(KStr, |s|)
    case Arr(vs) => Fits(KArr, |vs|) && forall x :: x in vs ==> Encodable(x)
    case Map(vs) => |vs| % 2 == 0 && Fits(KMap, |vs| / 2) && forall x :: x in vs ==> Encodable(x)
  }

  function Encode(v: Value): seq<Byte>
    requires Encodable(v)
    decreases v, 1
  {
    match v
    case Int(n) => Head(KInt, n)
    case Str(s) => Head(KStr, |s|) + s
    case Arr(vs) => Head(KArr, |vs|) + EncodeAll(vs)
    case Map(vs) => Head(KMap, |vs| / 2) + EncodeAll(vs)
  }

  function EncodeAll(vs: seq<Value>): seq<Byte>
    requires forall x :: x in vs ==> Encodable(x)
    decreases vs, 0
  {
    if vs == [] then [] else Encode(vs[0]) + EncodeAll(vs[1..])
  }

  function Decode(b: seq<Byte>): (r: Read<Value>)
    ensures r.Done? ==> |r.rest| < |b|
    decreases |b|, 0
  {
    match ReadHead(b)
    case More => More
    case Bad => Bad
    case Done((kind, n), rest) => DecodeBody(kind, n, rest)
  }

  function DecodeBody(kind: Kind, n: nat, b: seq<Byte>): (r: Read<Value>)
    ensures r.Done? ==> |r.rest| <= |b|
    decreases |b|, 2
  {
    match kind
    case KInt => Done(Int(n), b)
    case KStr => if |b| < n then More else Done(Str(b[..n]), b[n..])
    case KArr =>
      (match DecodeAll(n, b)
       case More => More
       case Bad => Bad
       case Done(vs, rest) => Done(Arr(vs), rest))
    case KMap =>
      match DecodeAll(2 * n, b)
      case More => More
      case Bad => Bad
      case Done(vs, rest) => Done(Map(vs), rest)
  }

  function DecodeAll(count: nat, b: seq<Byte>): (r: Read<seq<Value>>)
    ensures r.Done? ==> |r.rest| <= |b|
    decreases |b|, 1
  {
    if count == 0 then Done([], b)
    else
      match Decode(b)
      case More => More
      case Bad => Bad
      case Done(v, rest) =>
        match DecodeAll(count - 1, rest)
        case More => More
        case Bad => Bad
        case Done(vs, rest') => Done([v] + vs, rest')
  }

  /** A value is read back whole, whatever follows it. */
  lemma {:induction false} DecodeRoundTrip(v: Value, rest: seq<Byte>)
    requires Encodable(v)
    ensures Decode(Encode(v) + rest) == Done(v, rest)
    decreases v, 1
  {
    hide ReadHead, Head;
    match v {
      case Int(n) => HeadRoundTrip(KInt, n, rest);
      case Str(s) => HeadThenBody(KStr, |s|, s, rest);
      case Arr(vs) =>
        HeadThenBody(KArr, |vs|, EncodeAll(vs), rest);
        DecodeAllRoundTrip(vs, rest);
      case Map(vs) =>
        HeadThenBody(KMap, |vs| / 2, EncodeAll(vs), rest);
        DecodeAllRoundTrip(vs, rest);
    }
  }

  lemma HeadThenBody(kind: Kind, n: nat, body: seq<Byte>, rest: seq<Byte>)
    requires Fits(kind, n)
    ensures ReadHead((Head(kind, n) + body) + rest) == Done((kind, n), body + rest)
  {
    HeadRoundTrip(kind, n, body + rest);
    assert (Head(kind, n) + body) + rest == Head(kind, n) + (body + rest);
  }

  lemma {:induction false} DecodeAllRoundTrip(vs: seq<Value>, rest: seq<Byte>)
    requires forall x :: x in vs ==> Encodable(x)
    ensures DecodeAll(|vs|, EncodeAll(vs) + rest) == Done(vs, rest)
    decreases vs, 0
  {
    if vs == [] {
      assert EncodeAll(vs) + rest == rest;
    } else {
      assert EncodeAll(vs) + rest == Encode(vs[0]) + (EncodeAll(vs[1..]) + rest);
      DecodeRoundTrip(vs[0], EncodeAll(vs[1..]) + rest);
      DecodeAllRoundTrip(vs[1..], rest);
      assert vs == [vs[0]] + vs[1..];
    }
  }

  /** Values are self-delimiting: bytes cut short inside a value are seen to be. */
  lemma {:induction false} DecodePrefix(v: Value, k: nat)
    requires Encodable(v) && k < |Encode(v)|
    ensures Decode(Encode(v)[..k]) == More
    decreases v, 1
  {
    hide ReadHead, Head;
    match v {
      case Int(n) => HeadPrefix(KInt, n, k);
      case Str(s) => BodyPrefix(KStr, |s|, s, k);
      case Arr(vs) =>
        BodyPrefix(KArr, |vs|, EncodeAll(vs), k);
        if |Head(KArr, |vs|)| <= k {
          DecodeAllPrefix(vs, k - |Head(KArr, |vs|)|);
        }
      case Map(vs) =>
        BodyPrefix(KMap, |vs| / 2, EncodeAll(vs), k);
        if |Head(KMap, |vs| / 2)| <= k {
          DecodeAllPrefix(vs, k - |Head(KMap, |vs| / 2)|);
        }
    }
  }

  /** A cut falls into the head, or leaves the head and a cut body. */
  lemma BodyPrefix(kind: Kind, n: nat, body: seq<Byte>, k: nat)
    requires Fits(kind, n) && k < |Head(kind, n) + body|
    ensures
      var h := Head(kind, n);
      ReadHead((h + body)[..k]) == if k < |h| then More else Done((kind, n), body[..k - |h|])
  {
    var h := Head(kind, n);
    if k < |h| {
      assert (h + body)[..k] == h[..k];
      HeadPrefix(kind, n, k);
    } else {
      assert (h + body)[..k] == h + body[..k - |h|];
      HeadRoundTrip(kind, n, body[..k - |h|]);
    }
  }

  lemma {:induction false} DecodeAllPrefix(vs: seq<Value>, k: nat)
    requires forall x :: x in vs ==> Encodable(x)
    requires k < |EncodeAll(vs)|
    ensures DecodeAll(|vs|, EncodeAll(vs)[..k]) == More
    decreases vs, 0
  {
    var b, first := EncodeAll(vs), Encode(vs[0]);
    if k < |first| {
      assert b[..k] == first[..k];
      DecodePrefix(vs[0], k);
    } else {
      var q := EncodeAll(vs[1..])[..k - |first|];
      assert b[..k] == first + q;
      DecodeRoundTrip(vs[0], q);
      if k - |first| < |EncodeAll(vs[1..])| {
        DecodeAllPrefix(vs[1..], k - |first|);
      }
    }
  }

  // ----- the format, byte by byte -----------------------------------------------------------

  lemma {:induction false} BigEndianOf(n: nat, width: nat)
    requires width <= 4
    ensures width == 1 ==> BigEndian(n, width) == [n % 256]
    ensures width == 2 ==> BigEndian(n, width) == [n / 256 % 256, n % 256]
    ensures width == 4 ==> BigEndian(n, width) == [n / 256 / 256 / 256 % 256, n / 256 / 256 % 256, n / 256 % 256, n % 256]
  {
    if width > 0 {
      BigEndianOf(n / 256, width - 1);
      if width == 4 {
        BigEndianOf(n / 256 / 256, 2);
      }
    }
  }

  lemma HeadWithin(kind: Kind, n: nat)
    requires Fits(kind, n) && Width(kind, n) == 0
    ensures Head(kind, n) == [FirstByte(kind, n)]
  {
  }

  lemma HeadOfOne(kind: Kind, n: nat)
    requires Fits(kind, n) && Width(kind, n) == 1
    ensures Head(kind, n) == [FirstByte(kind, n), n % 256]
  {
    BigEndianOf(n, 1);
  }

  lemma HeadOfTwo(kind: Kind, n: nat)
    requires Fits(kind, n) && Width(kind, n) == 2
    ensures Head(kind, n) == [FirstByte(kind, n), n / 256 % 256, n % 256]
  {
    BigEndianOf(n, 2);
  }

  lemma HeadOfFour(kind: Kind, n: nat)
    requires Fits(kind, n) && Width(kind, n) == 4
    ensures Head(kind, n) == [FirstByte(kind, n), n / 256 / 256 / 256 % 256, n / 256 / 256 % 256, n / 256 % 256, n % 256]
  {
    BigEndianOf(n, 4);
  }

  /** The families as MessagePack lays them out: at the end of each width and at the start of
      the next. */
  lemma HeadsAreMessagePack()
    ensures Head(KInt, 0x7f) == [0x7f] && Head(KInt, 0x80) == [0xcc, 0x80] && Head(KInt, 0xff) == [0xcc, 0xff]
    ensures Head(KInt, 0x100) == [0xcd, 1, 0] && Head(KInt, 0xffff) == [0xcd, 0xff, 0xff]
    ensures Head(KInt, 0x1_0000) == [0xce, 0, 1, 0, 0] && Head(KInt, 0xffff_ffff) == [0xce, 0xff, 0xff, 0xff, 0xff]
    ensures Head(KInt, 0x1_0000_0000)[0] == 0xcf && |Head(KInt, 0x1_0000_0000)| == 9
    ensures Head(KStr, 31) == [0xbf] && Head(KStr, 32) == [0xd9, 32] && Head(KStr, 0x100) == [0xda, 1, 0]
    ensures Head(KStr, 0x1_0000) == [0xdb, 0, 1, 0, 0]
    ensures Head(KArr, 15) == [0x9f] && Head(KArr, 16) == [0xdc, 0, 16] && Head(KArr, 0x1_0000) == [0xdd, 0, 1, 0, 0]
    ensures Head(KMap, 15) == [0x8f] && Head(KMap, 16) == [0xde, 0, 16] && Head(KMap, 0x1_0000) == [0xdf, 0, 1, 0, 0]
  {
    IntHeads();
    OtherHeads();
    hide Head, FirstByte, Width;
  }

  lemma IntHeads()
    ensures Head(KInt, 0x7f) == [0x7f] && Head(KInt, 0x80) == [0xcc, 0x80] && Head(KInt, 0xff) == [0xcc, 0xff]
    ensures Head(KInt, 0x100) == [0xcd, 1, 0] && Head(KInt, 0xffff) == [0xcd, 0xff, 0xff]
    ensures Head(KInt, 0x1_0000) == [0xce, 0, 1, 0, 0] && Head(KInt, 0xffff_ffff) == [0xce, 0xff, 0xff, 0xff, 0xff]
    ensures Head(KInt, 0x1_0000_0000)[0] == 0xcf && |Head(KInt, 0x1_0000_0000)| == 9
  {
    hide BigEndian;
    HeadWithin(KInt, 0x7f);
    HeadOfOne(KInt, 0x80);
    HeadOfOne(KInt, 0xff);
    HeadOfTwo(KInt, 0x100);
    HeadOfTwo(KInt, 0xffff);
    HeadOfFour(KInt, 0x1_0000);
    HeadOfFour(KInt, 0xffff_ffff);
  }

  lemma OtherHeads()
    ensures Head(KStr, 31) == [0xbf] && Head(KStr, 32) == [0xd9, 32] && Head(KStr, 0x100) == [0xda, 1, 0]
    ensures Head(KStr, 0x1_0000) == [0xdb, 0, 1, 0, 0]
    ensures Head(KArr, 15) == [0x9f] && Head(KArr, 16) == [0xdc, 0, 16] && Head(KArr, 0x1_0000) == [0xdd, 0, 1, 0, 0]
    ensures Head(KMap, 15) == [0x8f] && Head(KMap, 16) == [0xde, 0, 16] && Head(KMap, 0x1_0000) == [0xdf, 0, 1, 0, 0]
  {
    hide Head, BigEndian;
    HeadWithin(KStr, 31);
    HeadOfOne(KStr, 32);
    HeadOfTwo(KStr, 0x100);
    HeadOfFour(KStr, 0x1_0000);
    HeadWithin(KArr, 15);
    HeadOfTwo(KArr, 16);
    HeadOfFour(KArr, 0x1_0000);
    HeadWithin(KMap, 15);
    HeadOfTwo(KMap, 16);
    HeadOfFour(KMap, 0x1_0000);
  }

  ghost predicate Gives(v: Value, bytes: seq<Byte>) {
    Encodable(v) && Encode(v) == bytes
  }

  function Concat(parts: seq<seq<Byte>>): seq<Byte> {
    if parts == [] then [] else parts[0] + Concat(parts[1..])
  }

  lemma {:induction false} AllGive(vs: seq<Value>, parts: seq<seq<Byte>>)
    requires |vs| == |parts| && forall i :: 0 <= i < |vs| ==> Gives(vs[i], parts[i])
    ensures (forall x :: x in vs ==> Encodable(x)) && EncodeAll(vs) == Concat(parts)
  {
    if vs != [] {
      AllGive(vs[1..], parts[1..]);
      assert Gives(vs[0], parts[0]);
      assert vs == [vs[0]] + vs[1..];
    }
  }

  lemma SmallHeads()
    ensures forall n: nat :: n < 16 ==> Head(KMap, n) == [0x80 + n] && Head(KArr, n) == [0x90 + n]
  {
  }

  /** Values in a map or an array give its head and then what each of them gives. */
  lemma MapGives(vs: seq<Value>, parts: seq<seq<Byte>>)
    requires |vs| == |parts| < 32 && |vs| % 2 == 0 && forall i :: 0 <= i < |vs| ==> Gives(vs[i], parts[i])
    ensures Gives(Map(vs), [0x80 + |vs| / 2] + Concat(parts))
  {
    SmallHeads();
    hide Head, EncodeAll, Concat, BigEndian;
    AllGive(vs, parts);
  }

  lemma ArrGives(vs: seq<Value>, parts: seq<seq<Byte>>)
    requires |vs| == |parts| < 16 && forall i :: 0 <= i < |vs| ==> Gives(vs[i], parts[i])
    ensures Gives(Arr(vs), [0x90 + |vs|] + Concat(parts))
  {
    SmallHeads();
    hide Head, EncodeAll, Concat, BigEndian;
    AllGive(vs, parts);
  }

  lemma ConcatTwo(a: seq<Byte>, b: seq<Byte>)
    ensures Concat([a, b]) == a + b
  {
    assert [a, b][1..] == [b] && [b][1..] == [];
    assert Concat([b]) == b;
  }

  lemma ConcatFour(a: seq<Byte>, b: seq<Byte>, c: seq<Byte>, d: seq<Byte>)
    ensures Concat([a, b, c, d]) == a + (b + (c + d))
  {
    assert [a, b, c, d][1..] == [b, c, d] && [b, c, d][1..] == [c, d];
    ConcatTwo(c, d);
  }
}
