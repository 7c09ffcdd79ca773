/** Lines that end in CRLF, as they come out of a stream of bytes. */
module LineFraming {
  import opened Wrappers

  type byte = x: int | 0 <= x < 256

  const CR: byte := 13
  const LF: byte := 10
  const CRLF: seq<byte> := [CR, LF]

  predicate EndsAt(data: seq<byte>, pos: nat) {
    pos + 2 <= |data| && data[pos] == CR && data[pos + 1] == LF
  }

  /** `data.find(CRLF)`: the first position, or none. */
  function Find(data: seq<byte>): (pos: Option<nat>)
    ensures pos.Some? ==> EndsAt(data, pos.value) && forall k: nat :: k < pos.value ==> !EndsAt(data, k)
    ensures pos.None? ==> forall k: nat :: !EndsAt(data, k)
  {
    FindFrom(data, 0)
  }

  function FindFrom(data: seq<byte>, from: nat): (pos: Option<nat>)
    ensures pos.Some? ==> from <= pos.value && EndsAt(data, pos.value) && forall k: nat :: from <= k < pos.value ==> !EndsAt(data, k)
    ensures pos.None? ==> forall k: nat :: from <= k ==> !EndsAt(data, k)
    decreases |data| - from
  {
    if |data| < from + 2 then None
    else if EndsAt(data, from) then Some(from)
    else FindFrom(data, from + 1)
  }

  /** The complete lines of the data, without their CRLF. */
  function Split(data: seq<byte>): seq<seq<byte>> {
    var pos := Find(data);
    if pos.None? then [] else [data[..pos.value]] + Split(data[pos.value + 2..])
  }

  /** Lines with their CRLF, one after the other. */
  function Joined(lines: seq<seq<byte>>): seq<byte> {
    if lines == [] then [] else lines[0] + CRLF + Joined(lines[1..])
  }

  /** A line that the first CRLF after it ends. */
  predicate IsLine(line: seq<byte>) {
    Find(line + CRLF) == Some(|line|)
  }

  /** Where a line ends does not depend on what follows it. */
  lemma FindAfterLine(line: seq<byte>, rest: seq<byte>)
    requires IsLine(line)
    ensures Find(line + CRLF + rest) == Some(|line|)
  {
    var data, longer := line + CRLF, line + CRLF + rest;
    assert forall k: nat :: k + 2 <= |data| ==> (EndsAt(longer, k) <==> EndsAt(data, k));
    assert EndsAt(data, |line|);
  }

  lemma FoundIsLine(data: seq<byte>)
    requires Find(data).Some?
    ensures
      var pos := Find(data).value;
      IsLine(data[..pos]) && data == data[..pos] + CRLF + data[pos + 2..]
  {
    var pos := Find(data).value;
    var line := data[..pos] + CRLF;
    assert line == data[..pos + 2];
    assert forall k: nat :: k + 2 <= |line| ==> (EndsAt(line, k) <==> EndsAt(data, k));
    assert EndsAt(line, pos);
  }

  lemma SplitFirst(line: seq<byte>, rest: seq<byte>)
    requires IsLine(line)
    ensures Split(line + CRLF + rest) == [line] + Split(rest)
  {
    FindAfterLine(line, rest);
    var data := line + CRLF + rest;
    assert data[..|line|] == line && data[|line| + 2..] == rest;
  }

  /** Lines that have been taken off the front are the first of the split. */
  lemma {:induction false} SplitJoined(lines: seq<seq<byte>>, rest: seq<byte>)
    requires forall i :: 0 <= i < |lines| ==> IsLine(lines[i])
    ensures Split(Joined(lines) + rest) == lines + Split(rest)
  {
    hide Find, Split, IsLine;
    if lines == [] {
      assert Joined(lines) + rest == rest;
    } else {
      var tail := Joined(lines[1..]) + rest;
      assert Joined(lines) + rest == lines[0] + CRLF + tail;
      SplitFirst(lines[0], tail);
      SplitJoined(lines[1..], rest);
      assert lines == [lines[0]] + lines[1..];
      assert [lines[0]] + (lines[1..] + Split(rest)) == lines + Split(rest);
    }
  }

  lemma {:induction false} JoinedSnoc(lines: seq<seq<byte>>, line: seq<byte>)
    ensures Joined(lines + [line]) == Joined(lines) + line + CRLF
  {
    if lines == [] {
      assert (lines + [line])[1..] == [];
    } else {
      JoinedSnoc(lines[1..], line);
      assert (lines + [line])[1..] == lines[1..] + [line];
    }
  }

  /** Data that comes later adds lines and changes none: however the stream is cut into
      pieces, the lines are those of the whole. */
  lemma {:induction false} SplitGrows(data: seq<byte>, more: seq<byte>)
    ensures Split(data) <= Split(data + more)
    decreases |data|
  {
    var pos := Find(data);
    if pos.Some? {
      FoundIsLine(data);
      var line, rest := data[..pos.value], data[pos.value + 2..];
      assert data + more == line + CRLF + (rest + more);
      SplitFirst(line, rest + more);
      SplitGrows(rest, more);
    }
  }
}
