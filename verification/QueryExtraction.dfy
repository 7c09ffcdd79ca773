/** The query of a fingerprint: acoustid/fingerprint.py.
    (The SQL function acoustid_extract_query is another one and not modelled here.) */
module QueryExtraction {
  import opened Hashes
  import opened Wrappers

  // NUM_QUERY_BITS = 28: the mask clears the lowest four bits
  const CLEARED := 16
  const SILENCE_HASH := 627964279

  // ----- what a query is --------------------------------------------------------------

  predicate IsSilence(h: int) {
    Unsigned(h) == SILENCE_HASH
  }

  /** `hash & QUERY_BIT_MASK` */
  function Masked(h: int): int {
    Unsigned(h) - Unsigned(h) % CLEARED
  }

  function CleanSize(hashes: seq<int>): nat {
    if hashes == [] then 0
    else CleanSize(hashes[..|hashes| - 1]) + if IsSilence(hashes[|hashes| - 1]) then 0 else 1
  }

  /** The masked hashes without silence, each where it occurs first. */
  function Terms(hashes: seq<int>): seq<int> {
    if hashes == [] then []
    else
      var before, h := Terms(hashes[..|hashes| - 1]), hashes[|hashes| - 1];
      if IsSilence(h) || Masked(h) in before then before else before + [Masked(h)]
  }

  function First(terms: seq<int>, size: nat): seq<int> {
    if |terms| <= size then terms else terms[..size]
  }

  function StartIndex(hashes: seq<int>, size: int, start: int): nat {
    var at := if CleanSize(hashes) - size <= start then CleanSize(hashes) - size else start;
    if at < 0 then 0 else at
  }

  lemma {:induction false} CleanSizeIsBounded(hashes: seq<int>)
    ensures CleanSize(hashes) <= |hashes|
  {
    if hashes != [] {
      CleanSizeIsBounded(hashes[..|hashes| - 1]);
    }
  }

  /** The hashes from the starting index on. */
  function Rest(hashes: seq<int>, size: nat, start: int): seq<int> {
    CleanSizeIsBounded(hashes);
    hashes[StartIndex(hashes, size, start)..]
  }

  /** Their first `size` terms. */
  function Wanted(hashes: seq<int>, size: nat, start: int): seq<int> {
    First(Terms(Rest(hashes, size, start)), size)
  }

  /** The signed array refuses a number with the highest bit. */
  predicate Fits(terms: seq<int>) {
    forall t :: t in terms ==> t < TWO_31
  }

  /** The terms of some hashes, in no order. */
  function Distinct(hashes: seq<int>): set<int> {
    set h | h in hashes && !IsSilence(h) :: Masked(h)
  }

  /** A hash with the highest bit that comes before there are `size` terms. */
  predicate IsRefused(hashes: seq<int>, size: nat, k: nat)
    requires k < |hashes|
  {
    !IsSilence(hashes[k]) && Unsigned(hashes[k]) >= TWO_31 && |Distinct(hashes[..k])| < size
  }

  predicate Accepted(hashes: seq<int>, size: nat) {
    forall k :: 0 <= k < |hashes| ==> !IsRefused(hashes, size, k)
  }

  /** What the array then holds, or None if it refuses one. */
  function QueryOf(rest: seq<int>, size: nat): Option<seq<int>> {
    if Accepted(rest, size) then Some(First(Terms(rest), size)) else None
  }

  /** With enough hashes behind it, the start asked for is where the query starts. */
  predicate TakesFrom(hashes: seq<int>, size: nat, start: int, query: Option<seq<int>>) {
    0 <= start <= CleanSize(hashes) - size ==> start <= |hashes| && query == QueryOf(hashes[start..], size)
  }

  lemma TakesFromThere(hashes: seq<int>, size: nat, start: int)
    ensures TakesFrom(hashes, size, start, QueryOf(Rest(hashes, size, start), size))
  {
    RestStarts(hashes, size, start);
  }

  lemma NoQuery(rest: seq<int>, size: nat)
    requires Terms(rest) == []
    ensures QueryOf(rest, size) == Some([])
  {
    FirstFitIff(rest, size);
  }

  lemma StartIsThere(hashes: seq<int>, size: nat, start: int, startIdx: nat)
    requires startIdx == if CleanSize(hashes) <= size then 0 else StartIndex(hashes, size, start)
    ensures startIdx <= |hashes| && hashes[startIdx..] == Rest(hashes, size, start)
  {
    CleanSizeIsBounded(hashes);
  }

  // ----- the loop -----------------------------------------------------------------------

  method CountClean(hashes: seq<int>) returns (n: nat)
    ensures n == CleanSize(hashes)
  {
    n := 0;
    for i := 0 to |hashes|
      invariant n == CleanSize(hashes[..i])
    {
      assert hashes[..i + 1][..i] == hashes[..i];
      if Unsigned(hashes[i]) != SILENCE_HASH {
        n := n + 1;
      }
    }
    assert hashes[..|hashes|] == hashes;
  }

  /** `extract_query`; it fails exactly when, from the starting index on, the signed array gets
      a hash with the highest bit before there are `size` terms. */
  method ExtractQuery(hashes: seq<int>, size: int, start: int) returns (query: Option<seq<int>>)
    ensures size <= 0 ==> query == Some([])
    ensures size > 0 ==>
              query == QueryOf(Rest(hashes, size, start), size)
    ensures size > 0 ==> TakesFrom(hashes, size, start, query)
  {
    if size <= 0 {
      return Some([]);
    }
    hide QueryOf, Rest, CleanSize, Terms, TakesFrom;
    TakesFromThere(hashes, size, start);
    var cleanSize := CountClean(hashes);
    CleanSizeIsBounded(hashes);
    var at := if cleanSize - size <= start then cleanSize - size else start;
    var startIdx: nat := if at < 0 then 0 else at;
    StartIsThere(hashes, size, start, startIdx);
    var rest := hashes[startIdx..];
    if cleanSize <= 0 {
      AllSilence(hashes, startIdx);
      NoQuery(rest, size);
      return Some([]);
    }
    query := KeepTerms(rest, size);
  }

  /** The loop itself, over the hashes from the starting index on. */
  method KeepTerms(rest: seq<int>, size: nat) returns (query: Option<seq<int>>)
    ensures query == QueryOf(rest, size)
  {
    FirstFitIff(rest, size);
    hide Accepted, Terms, Fits, Unsigned;
    var kept: seq<int>, seen: set<int> := [], {};
    var i := 0;
    NoTerms(rest);
    while i < |rest| && |kept| < size
      invariant 0 <= i <= |rest| && |kept| <= size
      invariant kept == Terms(rest[..i]) && Fits(kept)
      invariant forall t :: t in seen <==> t in kept
      decreases |rest| - i
    {
      NextTerm(rest, i);
      var hash := Unsigned(rest[i]);
      i := i + 1;
      if hash != SILENCE_HASH && hash - hash % CLEARED !in seen {
        hash := hash - hash % CLEARED;
        if hash >= TWO_31 {
          OneDoesNotFit(rest, i, size, hash);
          return None;
        }
        OneMoreFits(kept, hash);
        seen := seen + {hash};
        kept := kept + [hash];
      }
    }
    TermsGrow(rest[..i], rest);
    assert i == |rest| ==> rest[..i] == rest;
    IsFirst(kept, Terms(rest), size);
    query := Some(kept);
  }

  lemma NoTerms(rest: seq<int>)
    ensures Terms(rest[..0]) == [] && Fits([])
  {
  }

  lemma NextTerm(rest: seq<int>, i: nat)
    requires i < |rest|
    ensures
      var before := Terms(rest[..i]);
      Terms(rest[..i + 1]) == if IsSilence(rest[i]) || Masked(rest[i]) in before then before else before + [Masked(rest[i])]
  {
    assert rest[..i + 1][..i] == rest[..i];
  }

  lemma OneMoreFits(terms: seq<int>, t: int)
    requires Fits(terms) && t < TWO_31
    ensures Fits(terms + [t])
  {
  }

  lemma OneDoesNotFit(rest: seq<int>, i: nat, size: nat, t: int)
    requires i <= |rest| && |Terms(rest[..i])| <= size && t in Terms(rest[..i]) && t >= TWO_31
    ensures !Fits(First(Terms(rest), size))
  {
    TermsGrow(rest[..i], rest);
    PrefixIsKept(Terms(rest[..i]), Terms(rest), size, t);
  }

  lemma IsFirst(kept: seq<int>, all: seq<int>, size: nat)
    requires kept <= all && (|kept| == size || (|kept| <= size && kept == all))
    ensures First(all, size) == kept
  {
  }

  lemma PrefixIsKept(terms: seq<int>, all: seq<int>, size: nat, t: int)
    requires terms <= all && |terms| <= size && t in terms
    ensures t in First(all, size)
  {
    var i :| 0 <= i < |terms| && terms[i] == t;
    assert First(all, size)[i] == t;
  }

  lemma {:induction false} AllSilence(hashes: seq<int>, from: nat)
    requires CleanSize(hashes) == 0 && from <= |hashes|
    ensures Terms(hashes[from..]) == []
  {
    if from < |hashes| {
      var init := hashes[..|hashes| - 1];
      AllSilence(init, from);
      assert hashes[from..][..|hashes| - from - 1] == init[from..];
    }
  }

  /** More hashes add terms at the end. */
  lemma {:induction false} TermsGrow(hashes: seq<int>, more: seq<int>)
    requires hashes <= more
    ensures Terms(hashes) <= Terms(more)
    decreases |more|
  {
    if |hashes| < |more| {
      TermsGrow(hashes, more[..|more| - 1]);
    } else {
      assert hashes == more;
    }
  }

  // ----- what is promised ---------------------------------------------------------------

  /** The terms are the masked hashes that are not silence, each once. */
  lemma {:induction false} TermsAreTheHashes(hashes: seq<int>)
    ensures forall i, j :: 0 <= i < j < |Terms(hashes)| ==> Terms(hashes)[i] != Terms(hashes)[j]
    ensures forall h :: h in hashes && !IsSilence(h) ==> Masked(h) in Terms(hashes)
    ensures forall t :: t in Terms(hashes) ==> exists h :: h in hashes && !IsSilence(h) && Masked(h) == t
  {
    if hashes != [] {
      var init, last := hashes[..|hashes| - 1], hashes[|hashes| - 1];
      TermsAreTheHashes(init);
      assert hashes == init + [last];
      assert last in hashes;
      forall t | t in Terms(hashes)
        ensures exists h :: h in hashes && !IsSilence(h) && Masked(h) == t
      {
        if t in Terms(init) {
          var h :| h in init && !IsSilence(h) && Masked(h) == t;
          assert h in hashes;
        } else {
          assert Masked(last) == t;
        }
      }
    }
  }

  /** They come in the order in which they occur first. */
  lemma FirstComesFirst(hashes: seq<int>, k: nat, i: nat, j: nat)
    requires k <= |hashes| && i < |Terms(hashes)| && j < |Terms(hashes)|
    requires Terms(hashes)[i] in Terms(hashes[..k]) && Terms(hashes)[j] !in Terms(hashes[..k])
    ensures i < j
  {
    TermsGrow(hashes[..k], hashes);
    TermsAreTheHashes(hashes);
    var m :| 0 <= m < |Terms(hashes[..k])| && Terms(hashes[..k])[m] == Terms(hashes)[i];
    assert m == i;
  }

  lemma {:induction false} DistinctCounts(terms: seq<int>)
    requires forall i, j :: 0 <= i < j < |terms| ==> terms[i] != terms[j]
    ensures |set t | t in terms| == |terms|
  {
    if terms != [] {
      var init, last := terms[..|terms| - 1], terms[|terms| - 1];
      DistinctCounts(init);
      assert terms == init + [last];
      assert (set t | t in terms) == (set t | t in init) + {last};
    }
  }

  lemma AsManyAsDistinct(hashes: seq<int>)
    ensures |Distinct(hashes)| == |Terms(hashes)|
  {
    TermsAreTheHashes(hashes);
    DistinctCounts(Terms(hashes));
    assert Distinct(hashes) == set t | t in Terms(hashes);
  }

  lemma HighBitStays(h: int)
    ensures Masked(h) >= TWO_31 <==> Unsigned(h) >= TWO_31
  {
  }

  /** The signed array takes the first `size` terms if and only if no hash with the highest
      bit is among the hashes that bring them. */
  lemma {:induction false} FirstFitIff(hashes: seq<int>, size: nat)
    ensures Fits(First(Terms(hashes), size)) <==> Accepted(hashes, size)
  {
    if hashes != [] {
      var n := |hashes| - 1;
      var init, last := hashes[..n], hashes[n];
      FirstFitIff(init, size);
      AsManyAsDistinct(init);
      HighBitStays(last);
      InitIsRefused(hashes, size);
      hide IsRefused, Accepted, Distinct, Masked, Unsigned, IsSilence;
      OneMoreTerm(Terms(init), Masked(last), size);
    }
  }

  lemma InitIsRefused(hashes: seq<int>, size: nat)
    requires hashes != []
    ensures Accepted(hashes, size) <==> Accepted(hashes[..|hashes| - 1], size) && !IsRefused(hashes, size, |hashes| - 1)
  {
    var n := |hashes| - 1;
    assert forall k :: 0 <= k < n ==> hashes[..n][..k] == hashes[..k];
    assert forall k :: 0 <= k < n ==> (IsRefused(hashes[..n], size, k) <==> IsRefused(hashes, size, k));
  }

  lemma FitsSnoc(terms: seq<int>, t: int)
    ensures Fits(terms + [t]) <==> Fits(terms) && t < TWO_31
  {
    assert (terms + [t])[|terms|] == t;
    assert t in terms + [t];
    assert forall x :: x in terms ==> x in terms + [t];
  }

  lemma OneMoreTerm(terms: seq<int>, t: int, size: nat)
    ensures Fits(First(terms + [t], size)) <==> Fits(First(terms, size)) && (|terms| < size ==> t < TWO_31)
    ensures t in terms && |terms| < size && Fits(First(terms, size)) ==> t < TWO_31
  {
    if |terms| < size {
      FitsSnoc(terms, t);
    } else {
      assert First(terms + [t], size) == First(terms, size) by {
        assert (terms + [t])[..size] == terms[..size];
        assert |terms| == size ==> terms[..size] == terms;
      }
    }
  }

  /** `extract_query` succeeds if and only if, from the starting index on, no hash that is not
      silence has the highest bit before there are `size` terms. */
  lemma AcceptedIff(hashes: seq<int>, size: nat, start: int)
    ensures Fits(Wanted(hashes, size, start)) <==> Accepted(Rest(hashes, size, start), size)
  {
    FirstFitIff(Rest(hashes, size, start), size);
  }

  /** One hash with the highest bit and nothing else: no query of it can be made. */
  method HighHashFails(size: int, start: int) returns (query: Option<seq<int>>)
    requires size > 0
    ensures query.None?
  {
    HighHashIsRefused(size);
    CleanSizeIsBounded([TWO_31]);
    RestOfOne(TWO_31, size, start);
    hide Accepted, Rest, Wanted;
    query := ExtractQuery([TWO_31], size, start);
  }

  lemma HighHashIsRefused(size: nat)
    requires size > 0
    ensures !Accepted([TWO_31], size)
  {
    assert [TWO_31][..0] == [];
    assert Distinct([]) == {};
    assert IsRefused([TWO_31], size, 0);
  }

  lemma RestOfOne(h: int, size: nat, start: int)
    requires size > 0
    ensures Rest([h], size, start) == [h]
  {
    CleanSizeIsBounded([h]);
    assert StartIndex([h], size, start) == 0;
  }

  lemma {:induction false} CleanSizeSplits(hashes: seq<int>, at: nat)
    requires at <= |hashes|
    ensures CleanSize(hashes) == CleanSize(hashes[..at]) + CleanSize(hashes[at..])
    decreases |hashes| - at
  {
    if at < |hashes| {
      var init := hashes[..|hashes| - 1];
      CleanSizeSplitsInit(hashes, at);
      CleanSizeSplits(init, at);
      assert init[..at] == hashes[..at];
    } else {
      assert hashes[..at] == hashes;
    }
  }

  lemma CleanSizeSplitsInit(hashes: seq<int>, at: nat)
    requires at < |hashes|
    ensures hashes[at..][..|hashes| - at - 1] == hashes[..|hashes| - 1][at..]
  {
  }

  /** Wherever the query starts, enough hashes that are not silence are left for it. */
  lemma EnoughIsLeft(hashes: seq<int>, size: nat, start: int)
    ensures
      var at := StartIndex(hashes, size, start);
      at <= |hashes| &&
      (if CleanSize(hashes) <= size then CleanSize(hashes) else size) <= CleanSize(hashes[at..])
  {
    CleanSizeIsBounded(hashes);
    var at := StartIndex(hashes, size, start);
    CleanSizeSplits(hashes, at);
    CleanSizeIsBounded(hashes[..at]);
  }

  /** Where the hashes taken start: where they are asked to, if enough that are not silence are
      sure to follow; with the first of them for a negative start or too few altogether; and
      else at the last place behind which enough are sure to follow. */
  lemma RestStarts(hashes: seq<int>, size: nat, start: int)
    ensures CleanSize(hashes) <= |hashes|
    ensures 0 <= start <= CleanSize(hashes) - size ==> Rest(hashes, size, start) == hashes[start..]
    ensures start <= 0 || CleanSize(hashes) <= size ==> Rest(hashes, size, start) == hashes
    ensures 0 <= CleanSize(hashes) - size <= start ==> Rest(hashes, size, start) == hashes[CleanSize(hashes) - size..]
  {
    CleanSizeIsBounded(hashes);
    StartIndexIs(hashes, size, start);
    hide CleanSize, StartIndex;
    assert hashes[0..] == hashes;
  }

  lemma StartIndexIs(hashes: seq<int>, size: nat, start: int)
    ensures 0 <= start <= CleanSize(hashes) - size ==> StartIndex(hashes, size, start) == start
    ensures start <= 0 || CleanSize(hashes) <= size ==> StartIndex(hashes, size, start) == 0
    ensures 0 <= CleanSize(hashes) - size <= start ==> StartIndex(hashes, size, start) == CleanSize(hashes) - size
  {
    hide CleanSize;
  }

  /** That is the last such place: behind any later one, for some hashes of that length and with
      as many that are not silence, there are not enough. */
  lemma NoLaterPlace(n: nat, clean: nat, size: nat, at: nat) returns (hashes: seq<int>)
    requires 0 < size <= clean <= n && clean - size < at <= n
    ensures |hashes| == n && CleanSize(hashes) == clean && CleanSize(hashes[at..]) < size
  {
    hashes := seq(clean, i => 0) + seq(n - clean, i => SILENCE_HASH);
    forall k | 0 <= k <= n
      ensures CleanSize(hashes[..k]) == if k <= clean then k else clean
    {
      CleanFirst(hashes, clean, k);
    }
    assert hashes[..n] == hashes;
    CleanSizeSplits(hashes, at);
  }

  lemma {:induction false} CleanFirst(hashes: seq<int>, clean: nat, k: nat)
    requires k <= |hashes| && forall i :: 0 <= i < |hashes| ==> (IsSilence(hashes[i]) <==> clean <= i)
    ensures CleanSize(hashes[..k]) == if k <= clean then k else clean
  {
    if k > 0 {
      assert hashes[..k][..k - 1] == hashes[..k - 1];
      CleanFirst(hashes, clean, k - 1);
    }
  }

  /** The clean size is the number of places without silence. */
  lemma {:induction false} CleanSizeCounts(hashes: seq<int>)
    ensures CleanSize(hashes) == |set i | 0 <= i < |hashes| && !IsSilence(hashes[i])|
  {
    if hashes != [] {
      var n := |hashes| - 1;
      var init := hashes[..n];
      CleanSizeCounts(init);
      var before, all := set i | 0 <= i < n && !IsSilence(init[i]), set i | 0 <= i < |hashes| && !IsSilence(hashes[i]);
      assert all == before + if IsSilence(hashes[n]) then {} else {n};
    }
  }

  lemma {:induction false} CleanHasTerms(hashes: seq<int>)
    ensures CleanSize(hashes) > 0 <==> Terms(hashes) != []
  {
    if hashes != [] {
      CleanHasTerms(hashes[..|hashes| - 1]);
    }
  }

  /** So a query is empty exactly if all hashes are silence. */
  lemma EmptyIffSilence(hashes: seq<int>, size: nat, start: int)
    requires size > 0
    ensures Wanted(hashes, size, start) == [] <==> forall h :: h in hashes ==> IsSilence(h)
  {
    var at := StartIndex(hashes, size, start);
    EnoughIsLeft(hashes, size, start);
    CleanHasTerms(hashes[at..]);
    CleanHasTerms(hashes);
    TermsAreTheHashes(hashes);
    TermsAreTheHashes(hashes[at..]);
    if Wanted(hashes, size, start) != [] {
      var t := Terms(hashes[at..])[0];
      assert t in Terms(hashes[at..]);
      var h :| h in hashes[at..] && !IsSilence(h) && Masked(h) == t;
      assert h in hashes;
    }
  }

  /** At most `size` terms, distinct, with the low bits clear. */
  lemma QueryIsBounded(hashes: seq<int>, size: nat, start: int)
    ensures
      var q := Wanted(hashes, size, start);
      && |q| <= size
      && (forall i, j :: 0 <= i < j < |q| ==> q[i] != q[j])
      && (forall t :: t in q ==> 0 <= t < TWO_32 && t % CLEARED == 0)
  {
    CleanSizeIsBounded(hashes);
    var rest := hashes[StartIndex(hashes, size, start)..];
    TermsAreTheHashes(rest);
    forall t | t in Terms(rest)
      ensures 0 <= t < TWO_32 && t % CLEARED == 0
    {
      var h :| h in rest && !IsSilence(h) && Masked(h) == t;
      MaskedIsClear(h);
    }
    assert forall i :: 0 <= i < |First(Terms(rest), size)| ==> First(Terms(rest), size)[i] in Terms(rest);
  }

  lemma MaskedIsClear(h: int)
    ensures 0 <= Masked(h) < TWO_32 && Masked(h) % CLEARED == 0
  {
  }
}
