/**
 * Knuth-Morris-Pratt search over byte arrays (`ByteArray.occurrencesOf`).
 *
 * The search builds a failure table for the pattern and then scans the
 * haystack once, reporting every start offset of the pattern in ascending
 * order, overlapping occurrences included. The lazy generator of the source
 * is modelled by a method that returns all offsets at once.
 */
module Kmp {
  import opened Bytes

  // ---------------------------------------------------------------------
  // Specification
  // ---------------------------------------------------------------------

  /** `p` occurs in `h` starting at offset `k`. */
  predicate MatchAt(h: seq<byte>, p: seq<byte>, k: int)
  {
    0 <= k && k + |p| <= |h| && h[k..k + |p|] == p
  }

  /** The `k` bytes of `h` that end at position `i` are the first `k` bytes of `p`. */
  ghost predicate SuffixMatch(h: seq<byte>, i: int, p: seq<byte>, k: int)
  {
    0 <= k <= i <= |h| && k <= |p| && forall x :: 0 <= x < k ==> h[i - k + x] == p[x]
  }

  /** The first `k` bytes of `p[..n]` are also its last `k` bytes. */
  ghost predicate Border(p: seq<byte>, n: int, k: int)
  {
    n <= |p| && SuffixMatch(p, n, p, k)
  }

  /** `m` is the longest match of a proper prefix of `p` ending at position `i` of `h`. */
  ghost predicate LongestMatch(h: seq<byte>, i: int, p: seq<byte>, m: int)
  {
    SuffixMatch(h, i, p, m) && forall k :: m < k < |p| ==> !SuffixMatch(h, i, p, k)
  }

  /** `b` is the length of the longest proper border of `p[..n]`. */
  ghost predicate LongestBorder(p: seq<byte>, n: int, b: int)
  {
    b < n && Border(p, n, b) && forall k :: b < k < n ==> !Border(p, n, k)
  }

  /** `t` is the prefix function of `p`: entry `j` is the longest proper border of `p[..j+1]`. */
  ghost predicate IsPrefixFunction(p: seq<byte>, t: seq<int>)
  {
    |t| == |p| && PartialTable(p, t)
  }

  /** Every entry of `t`, a table under construction, is right for `p`. */
  ghost predicate PartialTable(p: seq<byte>, t: seq<int>)
  {
    |t| <= |p| && forall j :: 0 <= j < |t| ==> TableEntry(p, t, j)
  }

  /** Entry `j` of `t` is the longest proper border of `p[..j+1]`. */
  ghost predicate TableEntry(p: seq<byte>, t: seq<int>, j: int)
  {
    0 <= j < |t| && LongestBorder(p, j + 1, t[j])
  }

  /**
   * Start offsets, in ascending order, of the occurrences of `p` that lie
   * within `h[..n]`. An empty pattern has no occurrences.
   */
  function OccurrencesUpTo(h: seq<byte>, p: seq<byte>, n: nat): seq<int>
    requires n <= |h|
  {
    if n == 0 then []
    else OccurrencesUpTo(h, p, n - 1) +
         (if 0 < |p| <= n && h[n - |p|..n] == p then [n - |p|] else [])
  }

  /** Every start offset of `p` in `h`, in ascending order. */
  function Occurrences(h: seq<byte>, p: seq<byte>): seq<int>
  {
    OccurrencesUpTo(h, p, |h|)
  }

  /** `s` is strictly increasing. */
  predicate StrictlyIncreasing(s: seq<int>)
  {
    forall a, b :: 0 <= a < b < |s| ==> s[a] < s[b]
  }

  lemma {:induction false} OccurrencesUpToSpec(h: seq<byte>, p: seq<byte>, n: nat)
    requires n <= |h|
    ensures forall k :: k in OccurrencesUpTo(h, p, n) <==> |p| > 0 && MatchAt(h, p, k) && k + |p| <= n
    ensures StrictlyIncreasing(OccurrencesUpTo(h, p, n))
  {
    if n > 0 {
      OccurrencesUpToSpec(h, p, n - 1);
      var prev := OccurrencesUpTo(h, p, n - 1);
      var r := OccurrencesUpTo(h, p, n);
      forall k ensures k in r <==> |p| > 0 && MatchAt(h, p, k) && k + |p| <= n {
        if k + |p| == n && |p| > 0 && 0 <= k {
          assert h[k..k + |p|] == h[n - |p|..n];
        }
      }
      forall a, b | 0 <= a < b < |r| ensures r[a] < r[b] {
        if b < |prev| {
          assert r[a] == prev[a] && r[b] == prev[b];
        } else {
          assert r[a] == prev[a] && prev[a] in prev;
        }
      }
    }
  }

  /**
   * The specification of the search: every reported offset is a real match,
   * every match is reported, the offsets ascend, and an empty pattern or an
   * empty haystack yields nothing.
   */
  lemma OccurrencesSpec(h: seq<byte>, p: seq<byte>)
    ensures forall k :: k in Occurrences(h, p) <==> |p| > 0 && MatchAt(h, p, k)
    ensures forall k :: k in Occurrences(h, p) ==> 0 <= k <= |h| - |p|
    ensures StrictlyIncreasing(Occurrences(h, p))
    ensures |h| == 0 || |p| == 0 ==> Occurrences(h, p) == []
  {
    OccurrencesUpToSpec(h, p, |h|);
    if |p| == 0 {
      EmptyPatternNeverOccurs(h, p, |h|);
    }
  }

  lemma {:induction false} EmptyPatternNeverOccurs(h: seq<byte>, p: seq<byte>, n: nat)
    requires |p| == 0 && n <= |h|
    ensures OccurrencesUpTo(h, p, n) == []
  {
    if n > 0 {
      EmptyPatternNeverOccurs(h, p, n - 1);
    }
  }

  // ---------------------------------------------------------------------
  // Facts about matches and borders
  // ---------------------------------------------------------------------

  /** A border of a matched prefix is matched too. */
  lemma SuffixMatchOfBorder(h: seq<byte>, i: int, p: seq<byte>, m: int, k: int)
    requires SuffixMatch(h, i, p, m) && Border(p, m, k)
    ensures SuffixMatch(h, i, p, k)
  {
    forall x | 0 <= x < k ensures h[i - k + x] == p[x] {
      assert h[i - m + (m - k + x)] == p[m - k + x];
    }
  }

  /** Two matched prefixes ending at the same position: the shorter is a border of the longer. */
  lemma BorderOfSuffixMatches(h: seq<byte>, i: int, p: seq<byte>, m: int, k: int)
    requires SuffixMatch(h, i, p, m) && SuffixMatch(h, i, p, k) && k <= m
    ensures Border(p, m, k)
  {
    forall x | 0 <= x < k ensures p[m - k + x] == p[x] {
      assert h[i - m + (m - k + x)] == p[m - k + x];
      assert h[i - k + x] == p[x];
    }
  }

  /** A match of length `k + 1` ending at `i + 1` is a match of length `k` ending at `i`, extended by one equal byte. */
  lemma SuffixMatchStep(h: seq<byte>, i: int, p: seq<byte>, k: int)
    requires 0 <= k < |p| && 0 <= i < |h|
    ensures SuffixMatch(h, i + 1, p, k + 1) <==> SuffixMatch(h, i, p, k) && p[k] == h[i]
  {
    if SuffixMatch(h, i, p, k) && p[k] == h[i] {
      forall x | 0 <= x < k + 1 ensures h[i + 1 - (k + 1) + x] == p[x] {
        if x < k { assert h[i - k + x] == p[x]; }
      }
    }
    if SuffixMatch(h, i + 1, p, k + 1) {
      forall x | 0 <= x < k ensures h[i - k + x] == p[x] {
        assert h[i + 1 - (k + 1) + x] == p[x];
      }
      assert h[i + 1 - (k + 1) + k] == p[k];
    }
  }

  /** A full-length match ending at `n` is an occurrence starting at `n - |p|`. */
  lemma FullSuffixMatch(h: seq<byte>, p: seq<byte>, n: int)
    requires 0 < |p| <= n <= |h|
    ensures SuffixMatch(h, n, p, |p|) <==> h[n - |p|..n] == p
  {
    if h[n - |p|..n] == p {
      forall x | 0 <= x < |p| ensures h[n - |p| + x] == p[x] {
        assert h[n - |p|..n][x] == p[x];
      }
    }
  }

  /**
   * One step of the fall-back loop: `b`, the longest proper border of the
   * current match, is still a match, and no longer match up to `bound` can be
   * extended by the next byte.
   */
  lemma FallbackStep(h: seq<byte>, i: int, p: seq<byte>, m: int, b: int, bound: int)
    requires 0 < m < bound <= |p| && i < |h|
    requires LongestBorder(p, m, b)
    requires SuffixMatch(h, i, p, m) && p[m] != h[i]
    requires forall k :: m < k < bound && SuffixMatch(h, i, p, k) ==> p[k] != h[i]
    ensures 0 <= b < m && SuffixMatch(h, i, p, b)
    ensures forall k :: b < k < bound && SuffixMatch(h, i, p, k) ==> p[k] != h[i]
  {
    SuffixMatchOfBorder(h, i, p, m, b);
    forall k | b < k < bound && SuffixMatch(h, i, p, k) ensures p[k] != h[i] {
      if k < m {
        BorderOfSuffixMatches(h, i, p, m, k);
      }
    }
  }

  /** After the fall-back loop: the new match length is the longest one, up to `bound`, ending at `i + 1`. */
  lemma AdvanceStep(h: seq<byte>, i: int, p: seq<byte>, m: int, bound: int, next: int)
    requires 0 <= m < bound <= |p| && 0 <= i < |h| && next == i + 1
    requires SuffixMatch(h, i, p, m)
    requires forall k :: m < k < bound && SuffixMatch(h, i, p, k) ==> p[k] != h[i]
    requires m == 0 || p[m] == h[i]
    ensures var m1 := if p[m] == h[i] then m + 1 else m;
            SuffixMatch(h, next, p, m1) && forall k :: m1 < k <= bound ==> !SuffixMatch(h, next, p, k)
  {
    var m1 := if p[m] == h[i] then m + 1 else m;
    if p[m] == h[i] {
      SuffixMatchStep(h, i, p, m);
    } else {
      assert SuffixMatch(h, i + 1, p, 0);
    }
    forall k | m1 < k <= bound ensures !SuffixMatch(h, next, p, k) {
      SuffixMatchStep(h, i, p, k - 1);
    }
  }

  /** After a full match the search continues with the longest proper border of the pattern. */
  lemma ResetStep(h: seq<byte>, n: int, p: seq<byte>, t: seq<int>)
    requires IsPrefixFunction(p, t) && 0 < |p|
    requires SuffixMatch(h, n, p, |p|)
    ensures 0 <= t[|p| - 1] < |p| && SuffixMatch(h, n, p, t[|p| - 1])
    ensures forall k :: t[|p| - 1] < k < |p| ==> !SuffixMatch(h, n, p, k)
  {
    var b := t[|p| - 1];
    assert TableEntry(p, t, |p| - 1);
    SuffixMatchOfBorder(h, n, p, |p|, b);
    forall k | b < k < |p| ensures !SuffixMatch(h, n, p, k) {
      if SuffixMatch(h, n, p, k) {
        BorderOfSuffixMatches(h, n, p, |p|, k);
      }
    }
  }

  // ---------------------------------------------------------------------
  // The failure table
  // ---------------------------------------------------------------------

  /**
   * Builds the prefix function with the standard fall-back rule
   * `matches = resultTable[matches - 1]`. This is the corrected table builder;
   * the source's own rule is `BuildTableAsWritten` below.
   */
  method BuildTable(p: seq<byte>) returns (t: array<int>)
    ensures fresh(t)
    ensures IsPrefixFunction(p, t[..])
  {
    t := new int[|p|](_ => 0);
    if |p| == 0 {
      return;
    }
    assert Border(p, 1, 0);
    assert TableEntry(p, t[..1], 0);
    var matches := 0;
    var i := 1;
    while i < |p|
      invariant 1 <= i <= |p|
      invariant PartialTable(p, t[..i])
      invariant matches == t[i - 1]
    {
      ghost var done := t[..i];
      matches := TableFallBack(p, t, i, matches);
      TableStep(p, done, matches);
      if p[matches] == p[i] {
        matches := matches + 1;
      }
      t[i] := matches;
      assert t[..i + 1] == done + [matches];
      i := i + 1;
    }
    assert t[..] == t[..i];
  }

  /**
   * The fall-back loop of the table builder for position `i`: follow the
   * entries built so far from the longest border of `p[..i]` until `p[i]`
   * extends the border or no border is left.
   */
  method TableFallBack(p: seq<byte>, t: array<int>, i: int, matches: int) returns (m: int)
    requires 1 <= i < |p| && i <= t.Length && PartialTable(p, t[..i])
    requires matches == t[i - 1]
    ensures 0 <= m < i && Border(p, i, m)
    ensures forall k :: m < k < i && Border(p, i, k) ==> p[k] != p[i]
    ensures m == 0 || p[m] == p[i]
  {
    assert TableEntry(p, t[..i], i - 1);
    m := matches;
    while m > 0 && p[m] != p[i]
      invariant 0 <= m < i
      invariant Border(p, i, m)
      invariant forall k :: m < k < i && Border(p, i, k) ==> p[k] != p[i]
      decreases m
    {
      assert TableEntry(p, t[..i], m - 1);
      FallbackStep(p, i, p, m, t[m - 1], i);
      m := t[m - 1];
    }
  }

  /**
   * After the fall-back loop at position `|t|`, the next entry (the border
   * extended by one when the next byte allows) keeps the table right.
   */
  lemma TableStep(p: seq<byte>, t: seq<int>, m: int)
    requires 1 <= |t| < |p| && PartialTable(p, t)
    requires 0 <= m < |t| && Border(p, |t|, m)
    requires forall k :: m < k < |t| && Border(p, |t|, k) ==> p[k] != p[|t|]
    requires m == 0 || p[m] == p[|t|]
    ensures PartialTable(p, t + [if p[m] == p[|t|] then m + 1 else m])
  {
    AdvanceStep(p, |t|, p, m, |t|, |t| + 1);
    TableExtend(p, t, if p[m] == p[|t|] then m + 1 else m);
  }

  /** A table under construction stays right when the next entry is the next longest border. */
  lemma TableExtend(p: seq<byte>, t: seq<int>, b: int)
    requires PartialTable(p, t) && |t| < |p| && LongestBorder(p, |t| + 1, b)
    ensures PartialTable(p, t + [b])
  {
    forall j | 0 <= j < |t| + 1 ensures TableEntry(p, t + [b], j) {
      if j < |t| {
        assert TableEntry(p, t, j);
      }
    }
  }

  // ---------------------------------------------------------------------
  // The failure table as the source builds it
  // ---------------------------------------------------------------------

  /** Every entry `j` of a partly built table lies in `[0, j]`. */
  ghost predicate EntriesBounded(t: seq<int>)
  {
    forall j :: 0 <= j < |t| ==> 0 <= t[j] <= j
  }

  /**
   * The source's fall-back loop `while (matches > 0 && pattern[matches] !=
   * pattern[i]) matches = resultTable[matches]`, run against the entries `t`
   * built so far. It yields the length it settles on, or `None` when it can
   * never leave: an entry with `t[m] == m` and a mismatch repeats the same
   * state forever.
   */
  function FallbackAsWritten(p: seq<byte>, t: seq<int>, m: int, c: byte): (r: Option<int>)
    requires 0 <= m < |t| <= |p| && EntriesBounded(t)
    ensures r.Some? ==> 0 <= r.value <= m && (r.value == 0 || p[r.value] == c)
    decreases m
  {
    if m > 0 && p[m] != c then
      if t[m] == m then None else FallbackAsWritten(p, t, t[m], c)
    else Some(m)
  }

  /** The source's table-building loop from position `i` on, with `matches == m` and entries `t` so far. */
  function TableAsWrittenFrom(p: seq<byte>, i: nat, m: int, t: seq<int>): Option<seq<int>>
    requires 1 <= i == |t| <= |p| && 0 <= m < i && EntriesBounded(t)
    decreases |p| - i
  {
    if i == |p| then Some(t)
    else
      match FallbackAsWritten(p, t, m, p[i])
      case None => None
      case Some(m1) =>
        var m2 := if p[m1] == p[i] then m1 + 1 else m1;
        TableAsWrittenFrom(p, i + 1, m2, t + [m2])
  }

  /** The table the source builds for `p`, or `None` when its build loop never terminates. */
  function TableAsWritten(p: seq<byte>): Option<seq<int>>
  {
    if |p| == 0 then Some([]) else TableAsWrittenFrom(p, 1, 0, [0])
  }

  /**
   * The source's table builder, step for step: `resultTable` is filled in
   * place and `matches` falls back through `resultTable[matches]`. `stuck`
   * reports that the source would loop forever; the table is then
   * meaningless.
   */
  method BuildTableAsWritten(p: seq<byte>) returns (t: array<int>, stuck: bool)
    ensures fresh(t) && t.Length == |p|
    ensures stuck <==> TableAsWritten(p).None?
    ensures !stuck ==> TableAsWritten(p) == Some(t[..])
  {
    t := new int[|p|](_ => 0);
    stuck := false;
    if |p| == 0 {
      assert t[..] == [];
      return;
    }
    var matches := 0;
    var i := 1;
    assert t[..1] == [0];
    while i < |p|
      invariant 1 <= i <= |p|
      invariant 0 <= matches < i
      invariant EntriesBounded(t[..i])
      invariant TableAsWritten(p) == TableAsWrittenFrom(p, i, matches, t[..i])
    {
      ghost var done := t[..i];
      ghost var m0 := matches;
      while matches > 0 && p[matches] != p[i]
        invariant 0 <= matches <= m0
        invariant t[..i] == done
        invariant FallbackAsWritten(p, done, m0, p[i]) == FallbackAsWritten(p, done, matches, p[i])
        decreases matches
      {
        if t[matches] == matches {
          stuck := true;
          return;
        }
        matches := t[matches];
      }
      if p[matches] == p[i] {
        matches := matches + 1;
      }
      t[i] := matches;
      assert t[..i + 1] == done + [matches];
      i := i + 1;
    }
    assert t[..] == t[..i];
  }

  /** A finished table starts with 0 and keeps every entry `j` within `[0, j]`. */
  lemma {:induction false} TableAsWrittenFromBounds(p: seq<byte>, i: nat, m: int, t: seq<int>)
    requires 1 <= i == |t| <= |p| && 0 <= m < i && EntriesBounded(t)
    ensures TableAsWrittenFrom(p, i, m, t).Some? ==>
      var r := TableAsWrittenFrom(p, i, m, t).value;
      |r| == |p| && r[..i] == t && EntriesBounded(r)
    decreases |p| - i
  {
    if i < |p| {
      match FallbackAsWritten(p, t, m, p[i])
      case None =>
      case Some(m1) =>
        var m2 := if p[m1] == p[i] then m1 + 1 else m1;
        TableAsWrittenFromBounds(p, i + 1, m2, t + [m2]);
        if TableAsWrittenFrom(p, i + 1, m2, t + [m2]).Some? {
          var r := TableAsWrittenFrom(p, i + 1, m2, t + [m2]).value;
          assert r[..i] == r[..i + 1][..i];
        }
    }
  }

  /** When the source's build loop terminates, `resultTable[0] == 0` and `0 <= resultTable[j] <= j`. */
  lemma TableAsWrittenBounds(p: seq<byte>)
    ensures TableAsWritten(p).Some? ==>
      var r := TableAsWritten(p).value;
      |r| == |p| && (|p| > 0 ==> r[0] == 0) && EntriesBounded(r)
  {
    if |p| > 0 {
      TableAsWrittenFromBounds(p, 1, 0, [0]);
    }
  }

  /** `n` zeros. */
  function Zeros(n: nat): (z: seq<int>)
    ensures |z| == n && forall j :: 0 <= j < n ==> z[j] == 0
  {
    if n == 0 then [] else Zeros(n - 1) + [0]
  }

  /** The first byte of `p` occurs nowhere else in `p`. */
  predicate FirstByteUnique(p: seq<byte>)
  {
    forall j :: 0 < j < |p| ==> p[j] != p[0]
  }

  lemma {:induction false} TableAsWrittenFromUnique(p: seq<byte>, i: nat)
    requires FirstByteUnique(p) && 1 <= i <= |p|
    ensures TableAsWrittenFrom(p, i, 0, Zeros(i)) == Some(Zeros(|p|))
    decreases |p| - i
  {
    if i < |p| {
      assert Zeros(i) + [0] == Zeros(i + 1);
      TableAsWrittenFromUnique(p, i + 1);
    }
  }

  /** The longest proper border of every prefix of `p` is empty when `p[0]` does not recur. */
  lemma {:induction false} UniqueFirstBytePrefixFunction(p: seq<byte>)
    requires FirstByteUnique(p)
    ensures IsPrefixFunction(p, Zeros(|p|))
  {
    forall j | 0 <= j < |p| ensures TableEntry(p, Zeros(|p|), j) {
      var n := j + 1;
      assert Border(p, n, 0);
      forall k | 0 < k < n ensures !Border(p, n, k) {
        assert p[n - k + 0] != p[0];
      }
    }
  }

  /**
   * If `pattern[0]` does not recur, `matches` never leaves 0: the source's
   * build loop terminates with an all-zero table, and that table is the true
   * prefix function, so the source's search is then the correct one.
   */
  lemma TableAsWrittenUniqueFirstByte(p: seq<byte>)
    requires FirstByteUnique(p)
    ensures TableAsWritten(p) == Some(Zeros(|p|))
    ensures IsPrefixFunction(p, TableAsWritten(p).value)
  {
    if |p| > 0 {
      assert Zeros(1) == [0];
      TableAsWrittenFromUnique(p, 1);
    }
    UniqueFirstBytePrefixFunction(p);
  }

  /** The bytes of ".proto", the only pattern the program searches for. */
  const ProtoSuffix: seq<byte> := [0x2e, 0x70, 0x72, 0x6f, 0x74, 0x6f]

  /** For ".proto" the source's table builder terminates with the correct (all-zero) table. */
  lemma ProtoSuffixTable()
    ensures TableAsWritten(ProtoSuffix) == Some([0, 0, 0, 0, 0, 0])
    ensures IsPrefixFunction(ProtoSuffix, [0, 0, 0, 0, 0, 0])
  {
    TableAsWrittenUniqueFirstByte(ProtoSuffix);
    assert Zeros(6) == [0, 0, 0, 0, 0, 0];
  }

  /** For "aab" the source's build loop never terminates: `matches` sticks at 1. */
  lemma TableAsWrittenDivergesOnAab()
    ensures TableAsWritten([0x61, 0x61, 0x62]) == None
  {
    var p: seq<byte> := [0x61, 0x61, 0x62];
    assert FallbackAsWritten(p, [0], 0, p[1]) == Some(0);
    assert FallbackAsWritten(p, [0, 1], 1, p[2]) == None;
  }

  /**
   * For "ababb" the source's build loop terminates but sets entry 4 to 2,
   * although "ababb" ends in "bb" and has no proper border: the table is not
   * the prefix function.
   */
  lemma TableAsWrittenWrongOnAbabb()
    ensures TableAsWritten([0x61, 0x62, 0x61, 0x62, 0x62]) == Some([0, 0, 1, 2, 2])
    ensures !IsPrefixFunction([0x61, 0x62, 0x61, 0x62, 0x62], [0, 0, 1, 2, 2])
  {
    var p: seq<byte> := [0x61, 0x62, 0x61, 0x62, 0x62];
    assert TableAsWrittenFrom(p, 5, 2, [0, 0, 1, 2, 2]) == Some([0, 0, 1, 2, 2]);
    assert [0, 0, 1, 2] + [2] == [0, 0, 1, 2, 2];
    assert FallbackAsWritten(p, [0, 0, 1, 2], 2, p[4]) == Some(1);
    assert TableAsWrittenFrom(p, 4, 2, [0, 0, 1, 2]) == Some([0, 0, 1, 2, 2]);
    assert [0, 0, 1] + [2] == [0, 0, 1, 2];
    assert FallbackAsWritten(p, [0, 0, 1], 1, p[3]) == Some(1);
    assert TableAsWrittenFrom(p, 3, 1, [0, 0, 1]) == Some([0, 0, 1, 2, 2]);
    assert [0, 0] + [1] == [0, 0, 1];
    assert FallbackAsWritten(p, [0, 0], 0, p[2]) == Some(0);
    assert TableAsWrittenFrom(p, 2, 0, [0, 0]) == Some([0, 0, 1, 2, 2]);
    assert [0] + [0] == [0, 0];
    assert FallbackAsWritten(p, [0], 0, p[1]) == Some(0);
    assert TableAsWrittenFrom(p, 1, 0, [0]) == Some([0, 0, 1, 2, 2]);
    assert !Border(p, 5, 2) by {
      assert p[5 - 2 + 0] != p[0];
    }
    assert !TableEntry(p, [0, 0, 1, 2, 2], 4);
  }

  // ---------------------------------------------------------------------
  // The search
  // ---------------------------------------------------------------------

  /**
   * What one haystack byte does after the fall-back loop: the match grows or
   * stays, a full match is reported and replaced by the pattern's longest
   * proper border, and the reported offsets grow by exactly the occurrence
   * ending at `next`.
   */
  lemma SearchStep(h: seq<byte>, p: seq<byte>, t: seq<int>, i: int, m: int, next: int)
    requires IsPrefixFunction(p, t) && 0 < |p|
    requires 0 <= i < |h| && next == i + 1 && 0 <= m < |p|
    requires SuffixMatch(h, i, p, m)
    requires forall k :: m < k < |p| && SuffixMatch(h, i, p, k) ==> p[k] != h[i]
    requires m == 0 || p[m] == h[i]
    ensures var m1 := if p[m] == h[i] then m + 1 else m;
            var m2 := if m1 == |p| then t[|p| - 1] else m1;
            0 <= m2 < |p| && SuffixMatch(h, next, p, m2) &&
            (forall k :: m2 < k < |p| ==> !SuffixMatch(h, next, p, k)) &&
            OccurrencesUpTo(h, p, next) ==
              OccurrencesUpTo(h, p, i) + (if m1 == |p| then [next - |p|] else [])
  {
    AdvanceStep(h, i, p, m, |p|, next);
    var m1 := if p[m] == h[i] then m + 1 else m;
    StepOccurrence(h, p, next, m1);
    if m1 == |p| {
      ResetStep(h, next, p, t);
    }
  }

  /** A match of `m1` bytes ending at `n`, and no full one unless `m1` is full, reports exactly the full match. */
  lemma StepOccurrence(h: seq<byte>, p: seq<byte>, n: int, m1: int)
    requires 0 < |p| && 0 < n <= |h| && 0 <= m1 <= |p|
    requires SuffixMatch(h, n, p, m1) && (m1 < |p| ==> !SuffixMatch(h, n, p, |p|))
    ensures OccurrencesUpTo(h, p, n) == OccurrencesUpTo(h, p, n - 1) + (if m1 == |p| then [n - |p|] else [])
  {
    if |p| <= n {
      FullSuffixMatch(h, p, n);
    }
  }

  /**
   * The fall-back loop of the scan, `_matches = resultTable[_matches - 1]`
   * while the match is non-empty and `c` does not extend it, over any table
   * whose entries are bounded; it never climbs above where it started.
   */
  function ScanFallback(p: seq<byte>, t: seq<int>, m: int, c: byte): (r: int)
    requires 0 <= m < |p| == |t| && EntriesBounded(t)
    ensures 0 <= r <= m
    decreases m
  {
    if m > 0 && p[m] != c then ScanFallback(p, t, t[m - 1], c) else m
  }

  /**
   * What the generator yields from haystack position `i` with `m` bytes
   * matched, driven by the table `t` whatever its entries mean: fall back,
   * extend, and on a full match yield its offset and restart from
   * `t[size - 1]`.
   */
  function Scan(h: seq<byte>, p: seq<byte>, t: seq<int>, i: nat, m: int): seq<int>
    requires i <= |h| && 0 <= m < |p| == |t| && EntriesBounded(t)
    decreases |h| - i
  {
    if i == |h| then []
    else
      var f := ScanFallback(p, t, m, h[i]);
      var m1 := if p[f] == h[i] then f + 1 else f;
      if m1 == |p| then [i + 1 - |p|] + Scan(h, p, t, i + 1, t[|p| - 1])
      else Scan(h, p, t, i + 1, m1)
  }

  /**
   * The generator of the source, run to exhaustion over the table in `t`:
   * `i` only grows, and each haystack byte is handled once.
   */
  method Search(h: seq<byte>, p: seq<byte>, t: array<int>) returns (r: seq<int>)
    requires 0 < |p| == t.Length && EntriesBounded(t[..])
    ensures r == Scan(h, p, t[..], 0, 0)
  {
    var i := 0;
    var matches := 0;
    r := [];
    while i < |h|
      invariant 0 <= i <= |h| && 0 <= matches < |p|
      invariant r + Scan(h, p, t[..], i, matches) == Scan(h, p, t[..], 0, 0)
    {
      ghost var m0 := matches;
      while matches > 0 && p[matches] != h[i]
        invariant 0 <= matches <= m0
        invariant ScanFallback(p, t[..], matches, h[i]) == ScanFallback(p, t[..], m0, h[i])
        decreases matches
      {
        matches := t[matches - 1];
      }
      if p[matches] == h[i] {
        matches := matches + 1;
      }
      if matches == |p| {
        matches := t[matches - 1];
        i := i + 1;
        AppendAssoc(r, [i - |p|], Scan(h, p, t[..], i, matches));
        r := r + [i - |p|];
      } else {
        i := i + 1;
      }
    }
  }

  lemma AppendAssoc(a: seq<int>, b: seq<int>, c: seq<int>)
    ensures a + (b + c) == a + b + c
  {
  }

  /** Every entry of a prefix function lies in `[0, j]`. */
  lemma PrefixFunctionBounded(p: seq<byte>, t: seq<int>)
    requires IsPrefixFunction(p, t)
    ensures EntriesBounded(t)
  {
    forall j | 0 <= j < |t| ensures 0 <= t[j] <= j {
      assert TableEntry(p, t, j);
    }
  }

  /**
   * With a prefix function, the fall-back loop ends on the longest match
   * ending at `i` that `h[i]` extends, or at 0.
   */
  lemma {:induction false} ScanFallbackLongest(h: seq<byte>, p: seq<byte>, t: seq<int>, i: int, m: int)
    requires IsPrefixFunction(p, t) && EntriesBounded(t)
    requires 0 <= i < |h| && 0 <= m < |p|
    requires SuffixMatch(h, i, p, m)
    requires forall k :: m < k < |p| && SuffixMatch(h, i, p, k) ==> p[k] != h[i]
    ensures var f := ScanFallback(p, t, m, h[i]);
      SuffixMatch(h, i, p, f) &&
      (forall k :: f < k < |p| && SuffixMatch(h, i, p, k) ==> p[k] != h[i]) &&
      (f == 0 || p[f] == h[i])
    decreases m
  {
    if m > 0 && p[m] != h[i] {
      assert TableEntry(p, t, m - 1);
      FallbackStep(h, i, p, m, t[m - 1], |p|);
      ScanFallbackLongest(h, p, t, i, t[m - 1]);
    }
  }

  /**
   * With a prefix function and the longest match `m` ending at `i`, the
   * offsets the scan still yields are exactly the occurrences ending after `i`.
   */
  lemma {:induction false} ScanFindsRest(h: seq<byte>, p: seq<byte>, t: seq<int>, i: nat, m: int)
    requires IsPrefixFunction(p, t) && EntriesBounded(t) && 0 < |p|
    requires i <= |h| && 0 <= m < |p| && LongestMatch(h, i, p, m)
    ensures OccurrencesUpTo(h, p, i) + Scan(h, p, t, i, m) == Occurrences(h, p)
    decreases |h| - i
  {
    if i < |h| {
      var hit, m2 := ScanStep(h, p, t, i, m);
      ScanFindsRest(h, p, t, i + 1, m2);
      AppendAssoc(OccurrencesUpTo(h, p, i), hit, Scan(h, p, t, i + 1, m2));
    }
  }

  /**
   * One byte of the scan driven by a prefix function: it keeps the longest
   * match, and what it yields is exactly the occurrence ending at `h[i]`.
   */
  lemma ScanStep(h: seq<byte>, p: seq<byte>, t: seq<int>, i: nat, m: int) returns (hit: seq<int>, m2: int)
    requires IsPrefixFunction(p, t) && EntriesBounded(t) && 0 < |p|
    requires i < |h| && 0 <= m < |p| && LongestMatch(h, i, p, m)
    ensures 0 <= m2 < |p| && LongestMatch(h, i + 1, p, m2)
    ensures OccurrencesUpTo(h, p, i + 1) == OccurrencesUpTo(h, p, i) + hit
    ensures Scan(h, p, t, i, m) == hit + Scan(h, p, t, i + 1, m2)
  {
    ScanFallbackLongest(h, p, t, i, m);
    var f := ScanFallback(p, t, m, h[i]);
    SearchStep(h, p, t, i, f, i + 1);
    var m1 := if p[f] == h[i] then f + 1 else f;
    m2 := if m1 == |p| then t[|p| - 1] else m1;
    hit := if m1 == |p| then [i + 1 - |p|] else [];
    ScanUnfold(h, p, t, i, m);
  }

  /** One byte of the scan: what it yields at `h[i]`, followed by the rest. */
  lemma ScanUnfold(h: seq<byte>, p: seq<byte>, t: seq<int>, i: nat, m: int)
    requires i < |h| && 0 <= m < |p| == |t| && EntriesBounded(t)
    ensures var f := ScanFallback(p, t, m, h[i]);
      var m1 := if p[f] == h[i] then f + 1 else f;
      var m2 := if m1 == |p| then t[|p| - 1] else m1;
      Scan(h, p, t, i, m) == (if m1 == |p| then [i + 1 - |p|] else []) + Scan(h, p, t, i + 1, m2)
  {
    var f := ScanFallback(p, t, m, h[i]);
    var m1 := if p[f] == h[i] then f + 1 else f;
    if m1 != |p| {
      assert [] + Scan(h, p, t, i + 1, m1) == Scan(h, p, t, i + 1, m1);
    }
  }

  /** Driven by the prefix function, the scan yields exactly the occurrences of the pattern. */
  lemma ScanFindsOccurrences(h: seq<byte>, p: seq<byte>, t: seq<int>)
    requires IsPrefixFunction(p, t) && 0 < |p|
    ensures EntriesBounded(t) && Scan(h, p, t, 0, 0) == Occurrences(h, p)
  {
    PrefixFunctionBounded(p, t);
    assert SuffixMatch(h, 0, p, 0);
    ScanFindsRest(h, p, t, 0, 0);
  }

  /** The ascending indices `j < n` with `h[j] == b` (the one-byte filter of the source). */
  function IndicesOf(h: seq<byte>, b: byte, n: nat): seq<int>
    requires n <= |h|
  {
    if n == 0 then [] else IndicesOf(h, b, n - 1) + (if h[n - 1] == b then [n - 1] else [])
  }

  /** The one-byte filter reports exactly the occurrences of the one-byte pattern. */
  lemma {:induction false} IndicesOfAreOccurrences(h: seq<byte>, b: byte, n: nat)
    requires n <= |h|
    ensures IndicesOf(h, b, n) == OccurrencesUpTo(h, [b], n)
  {
    if n > 0 {
      IndicesOfAreOccurrences(h, b, n - 1);
      assert h[n - 1..n] == [h[n - 1]];
    }
  }

  /**
   * `ByteArray.occurrencesOf` with the corrected table: an empty haystack or
   * pattern yields nothing, a one-byte pattern filters the indices, and
   * longer patterns run the scan over the prefix function.
   */
  method OccurrencesOf(h: seq<byte>, p: seq<byte>) returns (r: seq<int>)
    ensures r == Occurrences(h, p)
  {
    if |h| == 0 || |p| == 0 {
      OccurrencesSpec(h, p);
      return [];
    }
    if |p| == 1 {
      IndicesOfAreOccurrences(h, p[0], |h|);
      assert [p[0]] == p;
      return IndicesOf(h, p[0], |h|);
    }
    var t := BuildTable(p);
    ScanFindsOccurrences(h, p, t[..]);
    r := Search(h, p, t);
  }

  /**
   * What the source's `occurrencesOf` yields, table loop as written
   * included: `None` when that loop never ends.
   */
  function SourceOccurrences(h: seq<byte>, p: seq<byte>): Option<seq<int>>
  {
    if |h| == 0 || |p| == 0 then Some([])
    else if |p| == 1 then Some(IndicesOf(h, p[0], |h|))
    else
      match TableAsWritten(p)
      case None => None
      case Some(t) =>
        TableAsWrittenBounds(p);
        Some(Scan(h, p, t, 0, 0))
  }

  /**
   * `ByteArray.occurrencesOf` as written: the shortcuts, then the table
   * built with the source's fall-back and the scan over it. `stuck` reports
   * that the table loop would never end.
   */
  method OccurrencesOfAsWritten(h: seq<byte>, p: seq<byte>) returns (r: seq<int>, stuck: bool)
    ensures stuck <==> SourceOccurrences(h, p).None?
    ensures !stuck ==> r == SourceOccurrences(h, p).value
    ensures FirstByteUnique(p) ==> !stuck && r == Occurrences(h, p)
  {
    SourceOccurrencesUniqueFirstByte(h, p);
    if |h| == 0 || |p| == 0 {
      return [], false;
    }
    if |p| == 1 {
      return IndicesOf(h, p[0], |h|), false;
    }
    var t;
    t, stuck := BuildTableAsWritten(p);
    if stuck {
      return [], true;
    }
    TableAsWrittenBounds(p);
    r := Search(h, p, t);
  }

  /**
   * When the first byte does not recur in the pattern, as for ".proto", the
   * source terminates and yields exactly the occurrences.
   */
  lemma SourceOccurrencesUniqueFirstByte(h: seq<byte>, p: seq<byte>)
    ensures FirstByteUnique(p) ==> SourceOccurrences(h, p) == Some(Occurrences(h, p))
  {
    if FirstByteUnique(p) {
      if |h| == 0 || |p| == 0 {
        OccurrencesSpec(h, p);
      } else if |p| == 1 {
        IndicesOfAreOccurrences(h, p[0], |h|);
        assert [p[0]] == p;
      } else {
        TableAsWrittenUniqueFirstByte(p);
        ScanFindsOccurrences(h, p, TableAsWritten(p).value);
      }
    }
  }

  /**
   * With the wrong table for "ababb", the source's scan of "ababbabb" yields
   * offset 3, where the pattern does not occur.
   */
  lemma SourceFalseMatchOnAbabb()
    ensures SourceOccurrences([0x61, 0x62, 0x61, 0x62, 0x62, 0x61, 0x62, 0x62], [0x61, 0x62, 0x61, 0x62, 0x62]) == Some([0, 3])
    ensures !MatchAt([0x61, 0x62, 0x61, 0x62, 0x62, 0x61, 0x62, 0x62], [0x61, 0x62, 0x61, 0x62, 0x62], 3)
  {
    var h: seq<byte> := [0x61, 0x62, 0x61, 0x62, 0x62, 0x61, 0x62, 0x62];
    var p: seq<byte> := [0x61, 0x62, 0x61, 0x62, 0x62];
    TableAsWrittenWrongOnAbabb();
    ScanAbabb();
    assert h[3] != p[0];
  }

  /** The scan over "ababbabb" with the as-written table of "ababb" reports offsets 0 and 3. */
  lemma ScanAbabb()
    ensures EntriesBounded([0, 0, 1, 2, 2])
    ensures Scan([0x61, 0x62, 0x61, 0x62, 0x62, 0x61, 0x62, 0x62], [0x61, 0x62, 0x61, 0x62, 0x62], [0, 0, 1, 2, 2], 0, 0) == [0, 3]
  {
    var h: seq<byte> := [0x61, 0x62, 0x61, 0x62, 0x62, 0x61, 0x62, 0x62];
    var p: seq<byte> := [0x61, 0x62, 0x61, 0x62, 0x62];
    var t := [0, 0, 1, 2, 2];
    ScanAbabbTail();
    assert Scan(h, p, t, 4, 4) == [0, 3];
    assert Scan(h, p, t, 3, 3) == [0, 3];
    assert Scan(h, p, t, 2, 2) == [0, 3];
    assert Scan(h, p, t, 1, 1) == [0, 3];
  }

  /** The last three bytes of that scan report offset 3. */
  lemma ScanAbabbTail()
    ensures EntriesBounded([0, 0, 1, 2, 2])
    ensures Scan([0x61, 0x62, 0x61, 0x62, 0x62, 0x61, 0x62, 0x62], [0x61, 0x62, 0x61, 0x62, 0x62], [0, 0, 1, 2, 2], 5, 2) == [3]
  {
    var h: seq<byte> := [0x61, 0x62, 0x61, 0x62, 0x62, 0x61, 0x62, 0x62];
    var p: seq<byte> := [0x61, 0x62, 0x61, 0x62, 0x62];
    var t := [0, 0, 1, 2, 2];
    assert EntriesBounded(t);
    assert Scan(h, p, t, 8, 2) == [];
    assert Scan(h, p, t, 7, 4) == [3];
    assert Scan(h, p, t, 6, 3) == [3];
  }
}
