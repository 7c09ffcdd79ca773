/** The wire types of the feed (acoustid/future/fpindex/wire.py): every struct field is
    keyed by the first letter of its name, a change is a map with one entry. */
module Wire {
  import opened Wrappers
  import opened MessagePack

  datatype Change = Insert(id: nat, hashes: seq<nat>) | Delete(id: nat)

  datatype Entry = Entry(id: nat, change: Change)

  datatype ReadResponse = ReadResponse(entries: seq<Entry>, retryAfterMs: nat)

  /** A one-letter key. */
  function Key(c: char): Value
    requires c < 128 as char
  {
    Str([c as int])
  }

  predicate IsU64(n: nat) {
    n < 0x1_0000_0000_0000_0000
  }

  predicate Sendable(c: Change) {
    IsU64(c.id) && (c.Insert? ==> |c.hashes| < 0x1_0000_0000 && forall h :: h in c.hashes ==> IsU64(h))
  }

  function Ints(ns: seq<nat>): (vs: seq<Value>) {
    seq(|ns|, i requires 0 <= i < |ns| => Int(ns[i]))
  }

  function ChangeValue(c: Change): Value {
    match c
    case Insert(id, hashes) => Map([Key('i'), Map([Key('i'), Int(id), Key('h'), Arr(Ints(hashes))])])
    case Delete(id) => Map([Key('d'), Map([Key('i'), Int(id)])])
  }

  function IntsOf(vs: seq<Value>): Option<seq<nat>> {
    if forall i :: 0 <= i < |vs| ==> vs[i].Int? then Some(seq(|vs|, i requires 0 <= i < |vs| && vs[i].Int? => vs[i].n))
    else None
  }

  /** How a reader takes a change apart. */
  function ChangeOf(v: Value): Option<Change> {
    if !(v.Map? && |v.entries| == 2 && v.entries[1].Map?) then None
    else
      var fields := v.entries[1].entries;
      if v.entries[0] == Key('d') && |fields| == 2 && fields[0] == Key('i') && fields[1].Int? then
        Some(Delete(fields[1].n))
      else if v.entries[0] == Key('i') && |fields| == 4 && fields[0] == Key('i') && fields[1].Int? &&
              fields[2] == Key('h') && fields[3].Arr? && IntsOf(fields[3].elements).Some? then
        Some(Insert(fields[1].n, IntsOf(fields[3].elements).value))
      else None
  }

  lemma ChangeRoundTrip(c: Change)
    requires Sendable(c)
    ensures Encodable(ChangeValue(c)) && ChangeOf(ChangeValue(c)) == Some(c)
  {
    match c {
      case Insert(id, hashes) =>
        var vs := Ints(hashes);
        assert IntsOf(vs).value == hashes;
        assert forall i :: 0 <= i < |hashes| ==> hashes[i] in hashes;
        assert forall x :: x in vs ==> Encodable(x);
        var fields := [Key('i'), Int(id), Key('h'), Arr(vs)];
        assert forall x :: x in fields ==> Encodable(x);
        assert Encodable(Map(fields));
      case Delete(id) =>
        assert Encodable(Map([Key('i'), Int(id)]));
    }
  }

  function ChangeValues(cs: seq<Change>): (vs: seq<Value>)
    ensures |vs| == |cs|
  {
    if cs == [] then [] else [ChangeValue(cs[0])] + ChangeValues(cs[1..])
  }

  function ChangesOf(vs: seq<Value>): Option<seq<Change>> {
    if vs == [] then Some([])
    else
      match (ChangeOf(vs[0]), ChangesOf(vs[1..]))
      case (Some(c), Some(cs)) => Some([c] + cs)
      case _ => None
  }

  lemma {:induction false} ChangesRoundTrip(cs: seq<Change>)
    requires forall c :: c in cs ==> Sendable(c)
    ensures ChangesOf(ChangeValues(cs)) == Some(cs)
    ensures forall v :: v in ChangeValues(cs) ==> Encodable(v)
  {
    if cs != [] {
      ChangeRoundTrip(cs[0]);
      ChangesRoundTrip(cs[1..]);
      assert cs == [cs[0]] + cs[1..];
    }
  }

  // ----- the changelog response ----------------------------------------------------------

  function EntryValue(e: Entry): Value {
    Map([Key('i'), Int(e.id), Key('c'), ChangeValue(e.change)])
  }

  function EntryValues(es: seq<Entry>): (vs: seq<Value>)
    ensures |vs| == |es|
  {
    if es == [] then [] else [EntryValue(es[0])] + EntryValues(es[1..])
  }

  function ResponseValue(r: ReadResponse): Value {
    Map([Key('e'), Arr(EntryValues(r.entries)), Key('r'), Int(r.retryAfterMs)])
  }

  function EntryOf(v: Value): Option<Entry> {
    if v.Map? && |v.entries| == 4 && v.entries[0] == Key('i') && v.entries[1].Int? && v.entries[2] == Key('c') then
      match ChangeOf(v.entries[3])
      case Some(c) => Some(Entry(v.entries[1].n, c))
      case None => None
    else None
  }

  function EntriesOf(vs: seq<Value>): Option<seq<Entry>> {
    if vs == [] then Some([])
    else
      match (EntryOf(vs[0]), EntriesOf(vs[1..]))
      case (Some(e), Some(es)) => Some([e] + es)
      case _ => None
  }

  function ResponseOf(v: Value): Option<ReadResponse> {
    if v.Map? && |v.entries| == 4 && v.entries[0] == Key('e') && v.entries[1].Arr? && v.entries[2] == Key('r') &&
       v.entries[3].Int? then
      match EntriesOf(v.entries[1].elements)
      case Some(es) => Some(ReadResponse(es, v.entries[3].n))
      case None => None
    else None
  }

  predicate SendableResponse(r: ReadResponse) {
    && IsU64(r.retryAfterMs) && |r.entries| < 0x1_0000_0000
    && forall e :: e in r.entries ==> IsU64(e.id) && Sendable(e.change)
  }

  lemma {:induction false} EntriesRoundTrip(es: seq<Entry>)
    requires forall e :: e in es ==> IsU64(e.id) && Sendable(e.change)
    ensures EntriesOf(EntryValues(es)) == Some(es)
    ensures forall v :: v in EntryValues(es) ==> Encodable(v)
  {
    if es != [] {
      EntryRoundTrip(es[0]);
      EntriesRoundTrip(es[1..]);
      assert es == [es[0]] + es[1..];
    }
  }

  lemma EntryRoundTrip(e: Entry)
    requires IsU64(e.id) && Sendable(e.change)
    ensures EntryOf(EntryValue(e)) == Some(e) && Encodable(EntryValue(e))
  {
    ChangeRoundTrip(e.change);
    hide ChangeOf, ChangeValue, Sendable;
    var fields := [Key('i'), Int(e.id), Key('c'), ChangeValue(e.change)];
    assert forall x :: x in fields ==> Encodable(x);
  }

  lemma ResponseFields(r: ReadResponse)
    requires SendableResponse(r)
    ensures Encodable(ResponseValue(r)) && ResponseOf(ResponseValue(r)) == Some(r)
  {
    EntriesRoundTrip(r.entries);
    hide EntriesOf, EntryValues, EntryOf, ChangeOf, Sendable;
    FourEncodable(Key('e'), Arr(EntryValues(r.entries)), Key('r'), Int(r.retryAfterMs));
  }

  lemma FourEncodable(a: Value, b: Value, c: Value, d: Value)
    requires Encodable(a) && Encodable(b) && Encodable(c) && Encodable(d)
    ensures Encodable(Map([a, b, c, d]))
  {
    assert forall x :: x in [a, b, c, d] ==> x == a || x == b || x == c || x == d;
  }

  /** `encode(changelog_response(...))` is read back as it was, and only as a whole. */
  lemma ResponseRoundTrip(r: ReadResponse, rest: seq<Byte>)
    requires SendableResponse(r)
    ensures Encodable(ResponseValue(r))
    ensures Decode(Encode(ResponseValue(r)) + rest) == Done(ResponseValue(r), rest)
    ensures ResponseOf(ResponseValue(r)) == Some(r)
    ensures forall k: nat :: k < |Encode(ResponseValue(r))| ==> Decode(Encode(ResponseValue(r))[..k]) == More
  {
    ResponseFields(r);
    hide ResponseOf, ResponseValue, Decode, Encode, Encodable;
    var v := ResponseValue(r);
    DecodeRoundTrip(v, rest);
    forall k: nat | k < |Encode(v)|
      ensures Decode(Encode(v)[..k]) == More
    {
      DecodePrefix(v, k);
    }
  }

  // ----- the bootstrap stream -----------------------------------------------------------

  function HeaderValue(position: nat): Value {
    Map([Key('p'), Int(position)])
  }

  function PositionOf(v: Value): Option<nat> {
    if v.Map? && |v.entries| == 2 && v.entries[0] == Key('p') && v.entries[1].Int? then Some(v.entries[1].n) else None
  }

  predicate SendableArray(cs: seq<Change>) {
    |cs| < 0x1_0000_0000 && forall c :: c in cs ==> Sendable(c)
  }

  /** `encode_bootstrap_chunk` */
  function EncodeArray(cs: seq<Change>): seq<Byte>
    requires SendableArray(cs)
  {
    ChangesRoundTrip(cs);
    Encode(Arr(ChangeValues(cs)))
  }

  function EncodeArrays(arrays: seq<seq<Change>>): seq<Byte>
    requires forall a :: a in arrays ==> SendableArray(a)
  {
    if arrays == [] then [] else EncodeArray(arrays[0]) + EncodeArrays(arrays[1..])
  }

  /** `encode_bootstrap_header` */
  function EncodeHeader(position: nat): seq<Byte>
    requires IsU64(position)
  {
    Encode(HeaderValue(position))
  }

  function Flatten(arrays: seq<seq<Change>>): seq<Change> {
    if arrays == [] then [] else arrays[0] + Flatten(arrays[1..])
  }

  datatype Outcome = Complete(position: nat, changes: seq<Change>, rest: seq<Byte>) | Incomplete | Malformed

  function ReadArrays(position: nat, b: seq<Byte>): Outcome
    decreases |b|
  {
    match Decode(b)
    case More => Incomplete
    case Bad => Malformed
    case Done(v, rest) =>
      if !v.Arr? then Malformed
      else if v.elements == [] then Complete(position, [], rest)
      else
        match (ChangesOf(v.elements), ReadArrays(position, rest))
        case (None, _) => Malformed
        case (Some(cs), Complete(p, more, rest')) => Complete(p, cs + more, rest')
        case (_, other) => other
  }

  /** A node reading a bootstrap: the header, then arrays until the empty one. */
  function ReadBootstrap(b: seq<Byte>): Outcome {
    match Decode(b)
    case More => Incomplete
    case Bad => Malformed
    case Done(v, rest) =>
      match PositionOf(v)
      case None => Malformed
      case Some(position) => ReadArrays(position, rest)
  }

  /** Only the last array is empty. */
  predicate Terminated(arrays: seq<seq<Change>>) {
    arrays != [] && arrays[|arrays| - 1] == [] && forall i :: 0 <= i < |arrays| - 1 ==> arrays[i] != []
  }

  lemma ArrayRoundTrip(cs: seq<Change>, rest: seq<Byte>)
    requires SendableArray(cs)
    ensures Decode(EncodeArray(cs) + rest) == Done(Arr(ChangeValues(cs)), rest)
    ensures ChangesOf(ChangeValues(cs)) == Some(cs)
  {
    ChangesRoundTrip(cs);
    DecodeRoundTrip(Arr(ChangeValues(cs)), rest);
  }

  function Prepend(cs: seq<Change>, o: Outcome): Outcome {
    match o
    case Complete(p, more, rest) => Complete(p, cs + more, rest)
    case _ => o
  }

  /** One array on the wire: the end of the stream if empty, else in front of the rest. */
  lemma ReadOneArray(position: nat, cs: seq<Change>, rest: seq<Byte>)
    requires SendableArray(cs)
    ensures ReadArrays(position, EncodeArray(cs) + rest)
         == if cs == [] then Complete(position, [], rest) else Prepend(cs, ReadArrays(position, rest))
  {
    ArrayRoundTrip(cs, rest);
  }

  lemma ReadCutArray(position: nat, cs: seq<Change>, k: nat)
    requires SendableArray(cs) && k < |EncodeArray(cs)|
    ensures ReadArrays(position, EncodeArray(cs)[..k]) == Incomplete
  {
    ChangesRoundTrip(cs);
    DecodePrefix(Arr(ChangeValues(cs)), k);
  }

  lemma {:induction false} ArraysRoundTrip(position: nat, arrays: seq<seq<Change>>, rest: seq<Byte>)
    requires Terminated(arrays) && forall a :: a in arrays ==> SendableArray(a)
    ensures ReadArrays(position, EncodeArrays(arrays) + rest) == Complete(position, Flatten(arrays), rest)
  {
    hide ReadArrays, EncodeArray, SendableArray;
    var first, tail := EncodeArray(arrays[0]), arrays[1..];
    ReadOneArray(position, arrays[0], EncodeArrays(tail) + rest);
    assert EncodeArrays(arrays) + rest == first + (EncodeArrays(tail) + rest);
    if tail == [] {
      assert EncodeArrays(tail) + rest == rest;
    } else {
      ArraysRoundTrip(position, tail, rest);
    }
  }

  lemma {:induction false} ArraysPrefix(position: nat, arrays: seq<seq<Change>>, k: nat)
    requires Terminated(arrays) && forall a :: a in arrays ==> SendableArray(a)
    requires k < |EncodeArrays(arrays)|
    ensures ReadArrays(position, EncodeArrays(arrays)[..k]) == Incomplete
  {
    hide ReadArrays, EncodeArray, SendableArray;
    var first, tail := EncodeArray(arrays[0]), arrays[1..];
    if k < |first| {
      ReadCutArray(position, arrays[0], k);
      assert EncodeArrays(arrays)[..k] == first[..k];
    } else {
      var q := EncodeArrays(tail)[..k - |first|];
      assert EncodeArrays(arrays)[..k] == first + q;
      ReadOneArray(position, arrays[0], q);
      ArraysPrefix(position, tail, k - |first|);
    }
  }

  function EncodeBootstrap(position: nat, arrays: seq<seq<Change>>): seq<Byte>
    requires IsU64(position) && forall a :: a in arrays ==> SendableArray(a)
  {
    EncodeHeader(position) + EncodeArrays(arrays)
  }

  lemma ReadHeader(position: nat, rest: seq<Byte>)
    requires IsU64(position)
    ensures ReadBootstrap(EncodeHeader(position) + rest) == ReadArrays(position, rest)
  {
    DecodeRoundTrip(HeaderValue(position), rest);
  }

  lemma ReadCutHeader(position: nat, k: nat)
    requires IsU64(position) && k < |EncodeHeader(position)|
    ensures ReadBootstrap(EncodeHeader(position)[..k]) == Incomplete
  {
    DecodePrefix(HeaderValue(position), k);
  }

  /** The framed stream decodes to its position and its changes, in order. */
  lemma BootstrapRoundTrip(position: nat, arrays: seq<seq<Change>>, rest: seq<Byte>)
    requires IsU64(position) && Terminated(arrays) && forall a :: a in arrays ==> SendableArray(a)
    ensures ReadBootstrap(EncodeBootstrap(position, arrays) + rest) == Complete(position, Flatten(arrays), rest)
  {
    ReadHeader(position, EncodeArrays(arrays) + rest);
    assert EncodeBootstrap(position, arrays) + rest == EncodeHeader(position) + (EncodeArrays(arrays) + rest);
    ArraysRoundTrip(position, arrays, rest);
  }

  /** A stream that died anywhere, between two arrays included, is recognised as such. */
  lemma CutBootstrapIsIncomplete(position: nat, arrays: seq<seq<Change>>, k: nat)
    requires IsU64(position) && Terminated(arrays) && forall a :: a in arrays ==> SendableArray(a)
    requires k < |EncodeBootstrap(position, arrays)|
    ensures ReadBootstrap(EncodeBootstrap(position, arrays)[..k]) == Incomplete
  {
    hide ReadBootstrap, ReadArrays, EncodeArrays, EncodeHeader;
    var h := EncodeHeader(position);
    if k < |h| {
      ReadCutHeader(position, k);
      assert EncodeBootstrap(position, arrays)[..k] == h[..k];
    } else {
      var q := EncodeArrays(arrays)[..k - |h|];
      assert EncodeBootstrap(position, arrays)[..k] == h + q;
      ReadHeader(position, q);
      ArraysPrefix(position, arrays, k - |h|);
    }
  }

  // ----- literally ----------------------------------------------------------------------------

  lemma KeyGives(c: char)
    requires c < 128 as char
    ensures Gives(Key(c), [0xa1, c as int])
  {
  }

  lemma IntGives(n: nat)
    ensures n < 0x80 ==> Gives(Int(n), [n])
    ensures 0x80 <= n < 0x100 ==> Gives(Int(n), [0xcc, n])
  {
    BigEndianOf(n, 1);
  }

  /** {k: v} */
  lemma OneField(k: char, v: Value, bytes: seq<Byte>)
    requires k < 128 as char && Gives(v, bytes)
    ensures Gives(Map([Key(k), v]), [0x81, 0xa1, k as int] + bytes)
  {
    KeyGives(k);
    hide Gives, Key, Concat;
    MapGives([Key(k), v], [[0xa1, k as int], bytes]);
    ConcatTwo([0xa1, k as int], bytes);
    assert [0x81] + ([0xa1, k as int] + bytes) == [0x81, 0xa1, k as int] + bytes;
  }

  /** {k: v, l: w} */
  lemma TwoFields(k: char, v: Value, x: seq<Byte>, l: char, w: Value, y: seq<Byte>)
    requires k < 128 as char && l < 128 as char && Gives(v, x) && Gives(w, y)
    ensures Gives(Map([Key(k), v, Key(l), w]), [0x82, 0xa1, k as int] + x + [0xa1, l as int] + y)
  {
    KeyGives(k);
    KeyGives(l);
    hide Gives, Key, Concat;
    MapGives([Key(k), v, Key(l), w], [[0xa1, k as int], x, [0xa1, l as int], y]);
    ConcatFour([0xa1, k as int], x, [0xa1, l as int], y);
    assert [0x82] + ([0xa1, k as int] + (x + ([0xa1, l as int] + y))) == [0x82, 0xa1, k as int] + x + [0xa1, l as int] + y;
  }

  /** A deleted fingerprint, byte for byte: {"d": {"i": 42}}. */
  lemma KnownDelete()
    ensures Gives(ChangeValue(Delete(42)), [0x81, 0xa1, 0x64, 0x81, 0xa1, 0x69, 42])
  {
    IntGives(42);
    hide Gives, Key;
    OneField('i', Int(42), [42]);
    OneField('d', Map([Key('i'), Int(42)]), [0x81, 0xa1, 0x69] + [42]);
    assert [0x81, 0xa1, 0x64] + ([0x81, 0xa1, 0x69] + [42]) == [0x81, 0xa1, 0x64, 0x81, 0xa1, 0x69, 42];
  }

  const INSERT_BYTES: seq<Byte> := [0x81, 0xa1, 0x69] + ([0x82, 0xa1, 0x69] + [42] + [0xa1, 0x68] + [0x93, 1, 2, 3])
  const ROW_BYTES: seq<Byte> := [0x82, 0xa1, 0x69] + [7] + [0xa1, 0x63] + INSERT_BYTES

  /** An insert: {"i": {"i": 42, "h": [1, 2, 3]}}. */
  lemma KnownInsert()
    ensures Gives(ChangeValue(Insert(42, [1, 2, 3])), INSERT_BYTES)
  {
    IntGives(42);
    KnownTerms();
    hide Gives, Key;
    var terms := Arr(Ints([1, 2, 3]));
    TwoFields('i', Int(42), [42], 'h', terms, [0x93, 1, 2, 3]);
    OneField('i', Map([Key('i'), Int(42), Key('h'), terms]), [0x82, 0xa1, 0x69] + [42] + [0xa1, 0x68] + [0x93, 1, 2, 3]);
  }

  lemma KnownTerms()
    ensures Gives(Arr(Ints([1, 2, 3])), [0x93, 1, 2, 3])
  {
    IntGives(1);
    IntGives(2);
    IntGives(3);
    hide Gives;
    ArrGives([Int(1), Int(2), Int(3)], [[1], [2], [3]]);
    assert Ints([1, 2, 3]) == [Int(1), Int(2), Int(3)];
    assert [[1], [2], [3]][1..] == [[2], [3]];
    ConcatTwo([2], [3]);
    assert [0x93] + ([1] + ([2] + [3])) == [0x93, 1, 2, 3];
  }

  lemma OneRow(e: Entry, bytes: seq<Byte>)
    requires Gives(EntryValue(e), bytes)
    ensures Gives(Arr(EntryValues([e])), [0x91] + bytes)
  {
    hide Gives, EntryValue;
    ArrGives([EntryValue(e)], [bytes]);
    assert EntryValues([e]) == [EntryValue(e)];
    assert Concat([bytes]) == bytes;
  }

  /** A response with that one row, {"e": [{"i": 7, "c": ...}], "r": 250}. */
  lemma KnownResponse()
    ensures Gives(ResponseValue(ReadResponse([Entry(7, Insert(42, [1, 2, 3]))], 250)),
                  [0x82, 0xa1, 0x65] + ([0x91] + ROW_BYTES) + [0xa1, 0x72] + [0xcc, 250])
  {
    var e := Entry(7, Insert(42, [1, 2, 3]));
    IntGives(7);
    IntGives(250);
    KnownInsert();
    hide Gives, Key, ChangeValue, EntryValues;
    TwoFields('i', Int(7), [7], 'c', ChangeValue(e.change), INSERT_BYTES);
    OneRow(e, ROW_BYTES);
    TwoFields('e', Arr(EntryValues([e])), [0x91] + ROW_BYTES, 'r', Int(250), [0xcc, 250]);
  }

  /** The bootstrap of nothing: {"p": 0} and the terminator. */
  lemma KnownEmptyBootstrap()
    ensures EncodeBootstrap(0, [[]]) == [0x81, 0xa1, 0x70] + [0] + [0x90]
  {
    IntGives(0);
    OneField('p', Int(0), [0]);
    ArrGives([], []);
    assert EncodeArrays([[]]) == EncodeArray([]) + EncodeArrays([[]][1..]);
    assert EncodeHeader(0) == [0x81, 0xa1, 0x70] + [0];
  }
}
