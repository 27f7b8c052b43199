/** Scans for printable runs and for byte patterns: in sequence, in parallel chunks, and from a mask. */
module BulkScan {
  import opened Words
  import opened Sorting

  datatype Hit = Hit(offset: nat, length: nat)

  function Offset(h: Hit): int {
    h.offset
  }

  predicate Printable(c: byte) {
    0x20 <= c <= 0x7e || c == 9
  }

  /** Tab, and everything from space to tilde. */
  lemma PrintableCharacters(c: byte)
    ensures Printable(c) <==> c == '\t' as int || ' ' as int <= c <= '~' as int
  {
  }

  /** One flag a byte. */
  function Flags(hay: seq<byte>): (m: seq<bool>)
    ensures |m| == |hay|
  {
    seq(|hay|, i requires 0 <= i < |hay| => Printable(hay[i]))
  }

  // ----- what the scans are for -----

  /** The flag at `k` is set. */
  predicate On(m: seq<bool>, k: int) {
    0 <= k < |m| && m[k]
  }

  /** A stretch of set flags that can be extended on neither side. */
  ghost predicate IsRun(m: seq<bool>, h: Hit) {
    && 0 < h.length && h.offset + h.length <= |m|
    && (forall k :: h.offset <= k < h.offset + h.length ==> m[k])
    && (h.offset > 0 ==> !m[h.offset - 1])
    && (h.offset + h.length < |m| ==> !m[h.offset + h.length])
  }

  /** `hits` are the maximal runs that start in a range and are long enough: each once, in order. */
  ghost predicate AllRuns(hits: seq<Hit>, m: seq<bool>, lo: nat, hi: nat, minLen: nat) {
    StrictlySorted(hits, Offset) &&
    forall h: Hit :: h in hits <==> IsRun(m, h) && lo <= h.offset < hi && minLen <= h.length
  }

  lemma AllRunsUnique(a: seq<Hit>, b: seq<Hit>, m: seq<bool>, lo: nat, hi: nat, minLen: nat)
    requires AllRuns(a, m, lo, hi, minLen) && AllRuns(b, m, lo, hi, minLen)
    ensures a == b
  {
    StrictlySortedUnique(a, b, Offset);
  }

  // ----- the runs of a mask, from left to right -----

  /** The end of the run that begins at `i`, or `i` itself. */
  function RunEnd(m: seq<bool>, i: nat): (e: nat)
    requires i <= |m|
    ensures i <= e <= |m| && (i < |m| && m[i] ==> i < e)
    ensures forall k :: i <= k < e ==> m[k]
    ensures e < |m| ==> !m[e]
    decreases |m| - i
  {
    if i == |m| || !m[i] then i else RunEnd(m, i + 1)
  }

  function Runs(m: seq<bool>, i: nat, minLen: nat): seq<Hit>
    requires i <= |m|
    decreases |m| - i
  {
    if i == |m| then []
    else if !m[i] then Runs(m, i + 1, minLen)
    else
      var e := RunEnd(m, i);
      (if minLen <= e - i then [Hit(i, e - i)] else []) + Runs(m, e, minLen)
  }

  /** No run reaches over `i`. */
  predicate Between(m: seq<bool>, i: nat)
    requires i <= |m|
  {
    i == |m| || i == 0 || !m[i - 1] || !m[i]
  }

  ghost predicate NoRunStarts(m: seq<bool>, lo: nat, hi: nat) {
    forall h: Hit :: IsRun(m, h) ==> !(lo <= h.offset < hi)
  }

  /** Inside a stretch of set flags no run starts. */
  lemma NoneInside(m: seq<bool>, s: nat, e: nat)
    requires 0 < s <= e <= |m| && forall k :: s - 1 <= k < e ==> m[k]
    ensures NoRunStarts(m, s, e)
  {
  }

  /** A stretch bounded on both sides is a run, and the only one that starts in it. */
  lemma OnlyRun(m: seq<bool>, s: nat, e: nat, h: Hit)
    requires s < e <= |m| && (forall k :: s <= k < e ==> m[k]) && (s > 0 ==> !m[s - 1]) && (e < |m| ==> !m[e])
    ensures IsRun(m, Hit(s, e - s))
    ensures IsRun(m, h) && s <= h.offset < e ==> h == Hit(s, e - s)
  {
    assert IsRun(m, h) && s < h.offset < e ==> On(m, h.offset - 1);
    assert IsRun(m, h) && h.offset == s && h.length < e - s ==> On(m, s + h.length);
    assert IsRun(m, h) && h.offset == s && h.length > e - s ==> On(m, e);
  }

  lemma Prepended(h: Hit, rest: seq<Hit>)
    requires StrictlySorted(rest, Offset) && forall r :: r in rest ==> h.offset < r.offset
    ensures StrictlySorted([h] + rest, Offset)
  {
  }

  /** The left-to-right walk finds exactly the maximal runs, once each, in order. */
  lemma {:induction false} RunsAreAll(m: seq<bool>, i: nat, minLen: nat)
    requires i <= |m| && (i < |m| && m[i] ==> i == 0 || !m[i - 1])
    ensures AllRuns(Runs(m, i, minLen), m, i, |m|, minLen)
    decreases |m| - i
  {
    hide IsRun;
    if i == |m| {
    } else if !m[i] {
      RunsAreAll(m, i + 1, minLen);
      NoRunAt(m, i);
    } else {
      var e := RunEnd(m, i);
      RunsAreAll(m, e, minLen);
      forall h: Hit
        ensures IsRun(m, h) && i <= h.offset < e <==> h == Hit(i, e - i)
      {
        OnlyRun(m, i, e, h);
      }
      Prepended(Hit(i, e - i), Runs(m, e, minLen));
    }
  }

  lemma NoRunAt(m: seq<bool>, i: nat)
    requires i < |m| && !m[i]
    ensures NoRunStarts(m, i, i + 1)
  {
  }

  // ----- what each scan returns -----

  /** The oracle: nothing at all for a minimum length of zero. */
  function SeqScan(hay: seq<byte>, minLen: nat): seq<Hit> {
    if minLen == 0 then [] else Runs(Flags(hay), 0, minLen)
  }

  /** Mask and compact, except for short inputs. */
  function TiledScan(hay: seq<byte>, minLen: nat): seq<Hit> {
    if |hay| < 512 then SeqScan(hay, minLen) else Runs(Flags(hay), 0, minLen)
  }

  lemma SeqScanIsAll(hay: seq<byte>, minLen: nat)
    requires minLen > 0
    ensures AllRuns(SeqScan(hay, minLen), Flags(hay), 0, |hay|, minLen)
  {
    RunsAreAll(Flags(hay), 0, minLen);
  }

  lemma RunAround(m: seq<bool>, i: nat) returns (h: Hit)
    requires i < |m| && m[i]
    ensures IsRun(m, h)
  {
    var s := i;
    while s > 0 && m[s - 1]
      invariant 0 <= s <= i && forall k :: s <= k <= i ==> m[k]
    {
      s := s - 1;
    }
    h := Hit(s, RunEnd(m, s) - s);
    assert m[s];
  }

  /**
   * The tiled scan agrees with the oracle exactly when the minimum is positive, the input is short, or nothing is
   * printable.
   */
  lemma TiledAgreesIff(hay: seq<byte>, minLen: nat)
    ensures TiledScan(hay, minLen) == SeqScan(hay, minLen) <==>
            minLen > 0 || |hay| < 512 || forall i :: 0 <= i < |hay| ==> !Printable(hay[i])
  {
    if minLen == 0 && |hay| >= 512 {
      var m := Flags(hay);
      RunsAreAll(m, 0, 0);
      if i :| 0 <= i < |hay| && Printable(hay[i]) {
        var h := RunAround(m, i);
        assert h in Runs(m, 0, 0);
      } else {
        NothingOn(m);
        NoneYet(m, 0, |m|, 0);
        AllRunsUnique(Runs(m, 0, 0), [], m, 0, |m|, 0);
      }
    }
  }

  /** From 512 letters on, a minimum of zero makes them differ. */
  lemma TiledListsAtZero(hay: seq<byte>)
    requires |hay| >= 512 && hay[0] == 65
    ensures TiledScan(hay, 0) != SeqScan(hay, 0)
  {
    TiledAgreesIff(hay, 0);
    assert Printable(hay[0]);
  }

  lemma NothingOn(m: seq<bool>)
    requires forall k :: 0 <= k < |m| ==> !m[k]
    ensures NoRunStarts(m, 0, |m|)
  {
    forall h: Hit
      ensures IsRun(m, h) ==> On(m, h.offset)
    {
    }
  }

  // ----- the sequential loop over a range -----

  /** Advances over set flags. */
  method SkipRun(hay: seq<byte>, i: nat) returns (e: nat)
    requires i <= |hay|
    ensures e == RunEnd(Flags(hay), i)
  {
    e := i;
    while e < |hay| && Printable(hay[e])
      invariant i <= e <= |hay| && RunEnd(Flags(hay), i) == RunEnd(Flags(hay), e)
    {
      e := e + 1;
    }
  }

  /** One more run found at `i`, or none there. */
  lemma RunFound(out: seq<Hit>, m: seq<bool>, lo: nat, i: nat, minLen: nat)
    requires i < |m| && m[i] && Between(m, i) && lo <= i && AllRuns(out, m, lo, i, minLen)
    ensures var e := RunEnd(m, i);
            AllRuns(if minLen <= e - i then out + [Hit(i, e - i)] else out, m, lo, e, minLen) && Between(m, e)
  {
    hide IsRun;
    var e := RunEnd(m, i);
    forall h: Hit
      ensures IsRun(m, h) && i <= h.offset < e <==> h == Hit(i, e - i)
    {
      OnlyRun(m, i, e, h);
    }
    forall k | 0 <= k < |out|
      ensures out[k].offset < i
    {
      assert out[k] in out;
    }
  }

  lemma NothingFound(out: seq<Hit>, m: seq<bool>, lo: nat, i: nat, e: nat, minLen: nat)
    requires i <= e && AllRuns(out, m, lo, i, minLen) && NoRunStarts(m, i, e)
    ensures AllRuns(out, m, lo, e, minLen)
  {
    hide IsRun;
  }

  lemma CutAt(out: seq<Hit>, m: seq<bool>, lo: nat, hi: nat, i: nat, minLen: nat)
    requires hi <= i && AllRuns(out, m, lo, i, minLen) && NoRunStarts(m, hi, i)
    ensures AllRuns(out, m, lo, hi, minLen)
  {
    hide IsRun;
  }

  lemma NoneYet(m: seq<bool>, lo: nat, e: nat, minLen: nat)
    requires NoRunStarts(m, lo, e)
    ensures AllRuns([], m, lo, e, minLen)
  {
    hide IsRun;
  }

  /** The runs that start in `[rangeStart, rangeEnd)`, wherever they end. */
  method ScanRange(hay: seq<byte>, rangeStart: nat, rangeEnd: nat, minLen: nat) returns (out: seq<Hit>)
    ensures minLen == 0 || rangeStart >= |hay| || rangeStart >= rangeEnd ==> out == []
    ensures minLen > 0 ==> AllRuns(out, Flags(hay), rangeStart, if rangeEnd < |hay| then rangeEnd else |hay|, minLen)
  {
    hide IsRun, AllRuns, NoRunStarts;
    ghost var m := Flags(hay);
    if minLen == 0 || rangeStart >= |hay| || rangeStart >= rangeEnd {
      if minLen > 0 { EmptyRange(m, rangeStart, if rangeEnd < |hay| then rangeEnd else |hay|, minLen); }
      return [];
    }
    var end := if rangeEnd < |hay| then rangeEnd else |hay|;
    out := [];
    var i := rangeStart;
    if i > 0 && Printable(hay[i]) && Printable(hay[i - 1]) {
      i := SkipRun(hay, i);
      NoneInside(m, rangeStart, i);
    } else {
      NoneAtAll(m, rangeStart);
    }
    NoneYet(m, rangeStart, i, minLen);
    ghost var from := rangeStart;
    while i < end
      invariant rangeStart <= i <= |hay| && Between(m, i) && AllRuns(out, m, rangeStart, i, minLen)
      invariant 0 <= from <= end && NoRunStarts(m, from, i)
    {
      if Printable(hay[i]) {
        var start := i;
        i := SkipRun(hay, i);
        RunFound(out, m, rangeStart, start, minLen);
        NoneInside(m, start + 1, i);
        from := start + 1;
        if i - start >= minLen && start < end {
          out := out + [Hit(start, i - start)];
        }
      } else {
        NoRunAt(m, i);
        NothingFound(out, m, rangeStart, i, i + 1, minLen);
        i := i + 1;
        from := i;
        NoneAtAll(m, i);
      }
    }
    NarrowNone(m, from, end, i);
    CutAt(out, m, rangeStart, end, i, minLen);
  }

  lemma NoneAtAll(m: seq<bool>, i: nat)
    ensures NoRunStarts(m, i, i)
  {
  }

  lemma NarrowNone(m: seq<bool>, from: nat, end: nat, i: nat)
    requires from <= end && NoRunStarts(m, from, i)
    ensures NoRunStarts(m, end, i)
  {
    hide IsRun;
  }

  lemma EmptyRange(m: seq<bool>, lo: nat, hi: nat, minLen: nat)
    requires lo >= hi
    ensures AllRuns([], m, lo, hi, minLen)
  {
  }

  method ScanSeq(hay: seq<byte>, minLen: nat) returns (out: seq<Hit>)
    ensures out == SeqScan(hay, minLen)
  {
    hide AllRuns, Runs;
    out := ScanRange(hay, 0, |hay|, minLen);
    if minLen > 0 {
      SeqScanIsAll(hay, minLen);
      AllRunsUnique(out, SeqScan(hay, minLen), Flags(hay), 0, |hay|, minLen);
    }
  }

  // ----- mask and compact -----

  method Compact(mask: seq<bool>, minLen: nat) returns (hits: seq<Hit>)
    ensures hits == Runs(mask, 0, minLen)
  {
    hits := [];
    var i := 0;
    while i < |mask|
      invariant 0 <= i <= |mask| && hits + Runs(mask, i, minLen) == Runs(mask, 0, minLen)
      decreases |mask| - i
    {
      if mask[i] {
        var start := i;
        while i < |mask| && mask[i]
          invariant start <= i <= |mask| && RunEnd(mask, start) == RunEnd(mask, i)
          invariant i == start ==> mask[i]
        {
          i := i + 1;
        }
        if i - start >= minLen {
          hits := hits + [Hit(start, i - start)];
        }
      } else {
        i := i + 1;
      }
    }
  }

  // ----- chunks in parallel -----

  datatype Range = Range(lo: nat, hi: nat)

  predicate InRange(r: Range, o: int) {
    r.lo <= o < r.hi
  }

  /** Every offset lies in some range, and no range reaches past the end. They may overlap. */
  ghost predicate Covers(ranges: seq<Range>, n: nat) {
    (forall k :: 0 <= k < |ranges| ==> ranges[k].hi <= n) &&
    forall o :: 0 <= o < n ==> Covered(ranges, o)
  }

  ghost predicate Covered(ranges: seq<Range>, o: int) {
    exists k :: 0 <= k < |ranges| && InRange(ranges[k], o)
  }

  /** The numbers below `n`. */
  function Upto(n: nat): (s: set<nat>)
    ensures forall k: nat :: k in s <==> k < n
  {
    if n == 0 then {} else Upto(n - 1) + {n - 1}
  }

  /** Four chunks a thread, of equal length but perhaps the last. */
  method MakeRanges(len: nat, threads: nat) returns (ranges: seq<Range>)
    requires len > 0
    ensures Covers(ranges, len)
  {
    var most := 0xffff_ffff_ffff_ffff;
    var chunks := if threads == 0 then 1 else if 4 * threads > most then most else 4 * threads;
    var chunk := (len + chunks - 1) / chunks;
    ChunkPositive(len, chunks);
    ranges := [];
    var start := 0;
    while start < len
      invariant 0 <= start <= len && Covers(ranges, start)
      decreases len - start
    {
      var end := if start + chunk < len then start + chunk else len;
      CoversMore(ranges, start, end);
      ranges := ranges + [Range(start, end)];
      start := end;
    }
  }

  lemma ChunkPositive(len: nat, chunks: nat)
    requires len > 0 && chunks > 0
    ensures (len + chunks - 1) / chunks > 0
  {
    var q := (len + chunks - 1) / chunks;
    assert len + chunks - 1 == q * chunks + (len + chunks - 1) % chunks;
  }

  lemma CoversMore(ranges: seq<Range>, start: nat, end: nat)
    requires Covers(ranges, start) && start <= end
    ensures Covers(ranges + [Range(start, end)], end)
  {
    var more := ranges + [Range(start, end)];
    forall o | 0 <= o < end
      ensures Covered(more, o)
    {
      if o < start {
        assert Covered(ranges, o);
        var k :| 0 <= k < |ranges| && InRange(ranges[k], o);
        assert InRange(more[k], o);
      } else {
        assert InRange(more[|ranges|], o);
      }
    }
  }

  /** Only runs were collected, and every run that starts in a range already scanned was. */
  ghost predicate Collected(hits: seq<Hit>, m: seq<bool>, ranges: seq<Range>, todo: set<nat>, minLen: nat) {
    (forall h :: h in hits ==> IsRun(m, h) && minLen <= h.length) &&
    forall h: Hit, k: nat ::
      IsRun(m, h) && minLen <= h.length && k < |ranges| && k !in todo && InRange(ranges[k], h.offset) ==> h in hits
  }

  lemma CollectedMore(hits: seq<Hit>, local: seq<Hit>, m: seq<bool>, ranges: seq<Range>, todo: set<nat>, k: nat,
                      minLen: nat)
    requires Collected(hits, m, ranges, todo, minLen) && k < |ranges| && ranges[k].hi <= |m|
    requires AllRuns(local, m, ranges[k].lo, ranges[k].hi, minLen)
    ensures Collected(hits + local, m, ranges, todo - {k}, minLen)
  {
    hide IsRun;
  }

  lemma SameRun(m: seq<bool>, g: Hit, h: Hit)
    requires IsRun(m, g) && IsRun(m, h) && g.offset == h.offset
    ensures g == h
  {
    OnlyRun(m, g.offset, g.offset + g.length, h);
  }

  lemma AnyRunCollected(hits: seq<Hit>, m: seq<bool>, ranges: seq<Range>, minLen: nat, h: Hit)
    requires Collected(hits, m, ranges, {}, minLen) && Covers(ranges, |m|)
    ensures h in hits <==> IsRun(m, h) && minLen <= h.length
    ensures IsRun(m, h) ==> h.offset < |m|
  {
    if IsRun(m, h) && minLen <= h.length {
      assert Covered(ranges, h.offset);
      var k :| 0 <= k < |ranges| && InRange(ranges[k], h.offset);
    }
  }

  /** Sorted and deduplicated, what was collected over a cover is all runs. */
  lemma CollectedAll(hits: seq<Hit>, m: seq<bool>, ranges: seq<Range>, minLen: nat)
    requires Collected(hits, m, ranges, {}, minLen) && Covers(ranges, |m|)
    ensures AllRuns(DedupBy(SortBy(hits, Offset), Offset), m, 0, |m|, minLen)
  {
    hide IsRun, Covers, Collected, SortBy, DedupBy;
    var sorted := SortBy(hits, Offset);
    SortBySorted(hits, Offset);
    forall h: Hit
      ensures h in sorted <==> IsRun(m, h) && minLen <= h.length
      ensures IsRun(m, h) ==> h.offset < |m|
    {
      SameElements(hits, Offset, h);
      AnyRunCollected(hits, m, ranges, minLen, h);
    }
    forall g, h | g in sorted && h in sorted && Offset(g) == Offset(h)
      ensures g == h
    {
      SameRun(m, g, h);
    }
    DedupSorted(sorted, Offset);
  }

  /** Chunks scanned in any order, then sorted and deduplicated, give what the oracle gives. */
  method ScanParallel(hay: seq<byte>, minLen: nat, threads: nat) returns (hits: seq<Hit>)
    ensures hits == SeqScan(hay, minLen)
  {
    hide AllRuns, Collected, Runs, SortBy, DedupBy, IsRun;
    if |hay| < 4096 || threads <= 1 {
      hits := ScanSeq(hay, minLen);
      return;
    }
    var ranges := MakeRanges(|hay|, threads);
    ghost var m := Flags(hay);
    var todo := Upto(|ranges|);
    hits := [];
    NoneCollected(m, ranges, minLen);
    while todo != {}
      invariant todo <= Upto(|ranges|)
      invariant minLen > 0 ==> Collected(hits, m, ranges, todo, minLen)
      invariant minLen == 0 ==> hits == []
      decreases |todo|
    {
      var k :| k in todo;
      var local := ScanRange(hay, ranges[k].lo, ranges[k].hi, minLen);
      if minLen > 0 { CollectedMore(hits, local, m, ranges, todo, k, minLen); }
      hits := hits + local;
      todo := todo - {k};
    }
    if minLen > 0 {
      CollectedAll(hits, m, ranges, minLen);
      SeqScanIsAll(hay, minLen);
      AllRunsUnique(DedupBy(SortBy(hits, Offset), Offset), SeqScan(hay, minLen), m, 0, |hay|, minLen);
    } else {
      SortEmpty();
    }
    hits := DedupBy(SortBy(hits, Offset), Offset);
  }

  lemma SortEmpty()
    ensures DedupBy(SortBy([], Offset), Offset) == []
  {
  }

  lemma NoneCollected(m: seq<bool>, ranges: seq<Range>, minLen: nat)
    ensures Collected([], m, ranges, Upto(|ranges|), minLen)
  {
  }

  // ----- tiles -----

  /** Classifies one tile of at most 256 bytes. */
  method MarkTile(hay: seq<byte>, mask: array<bool>, tile: nat)
    requires mask.Length == |hay|
    modifies mask
    ensures forall i :: 0 <= i < |hay| ==> mask[i] == if i / 256 == tile then Printable(hay[i]) else old(mask[i])
  {
    var end := if 256 * tile + 256 < |hay| then 256 * tile + 256 else |hay|;
    var i := 256 * tile;
    while i < end
      invariant 256 * tile <= i && (i <= end || end < 256 * tile)
      invariant forall k :: 0 <= k < |hay| ==>
        mask[k] == if 256 * tile <= k < i then Printable(hay[k]) else old(mask[k])
    {
      mask[i] := Printable(hay[i]);
      i := i + 1;
    }
    forall i | 0 <= i < |hay|
      ensures i / 256 == tile <==> 256 * tile <= i < 256 * tile + 256
    {
    }
  }

  /** A mask filled tile by tile in any order, then compacted. */
  method ScanTiled(hay: seq<byte>, minLen: nat) returns (hits: seq<Hit>)
    ensures hits == TiledScan(hay, minLen)
  {
    hide Runs;
    if |hay| < 512 {
      hits := ScanSeq(hay, minLen);
      return;
    }
    var mask := new bool[|hay|](_ => false);
    var todo := Upto((|hay| + 255) / 256);
    while todo != {}
      invariant forall i :: 0 <= i < |hay| ==> mask[i] == (i / 256 !in todo && Printable(hay[i]))
      decreases |todo|
    {
      var t :| t in todo;
      MarkTile(hay, mask, t);
      todo := todo - {t};
    }
    assert mask[..] == Flags(hay);
    hits := Compact(mask[..], minLen);
  }

  // ----- patterns -----

  predicate MatchAt(hay: seq<byte>, needle: seq<byte>, i: nat) {
    i + |needle| <= |hay| && hay[i..i + |needle|] == needle
  }

  function Id(i: nat): int {
    i
  }

  /** Every match that starts in a range, once, in order. */
  ghost predicate AllMatches(out: seq<nat>, hay: seq<byte>, needle: seq<byte>, lo: nat, hi: nat) {
    StrictlySorted(out, Id) && forall i: nat :: i in out <==> lo <= i < hi && MatchAt(hay, needle, i)
  }

  /** The oracle: the matches from left to right. */
  function Matches(hay: seq<byte>, needle: seq<byte>, n: nat): seq<nat> {
    if n == 0 then []
    else Matches(hay, needle, n - 1) + if MatchAt(hay, needle, n - 1) then [n - 1] else []
  }

  function PatternScan(hay: seq<byte>, needle: seq<byte>): seq<nat> {
    if needle == [] || |hay| < |needle| then [] else Matches(hay, needle, |hay| - |needle| + 1)
  }

  lemma {:induction false} MatchesAreAll(hay: seq<byte>, needle: seq<byte>, n: nat)
    ensures AllMatches(Matches(hay, needle, n), hay, needle, 0, n)
  {
    hide MatchAt;
    if n > 0 {
      MatchesAreAll(hay, needle, n - 1);
      var before := Matches(hay, needle, n - 1);
      forall k | 0 <= k < |before|
        ensures before[k] < n - 1
      {
        assert before[k] in before;
      }
    }
  }

  /** The oracle lists exactly the matches, once each, in order. */
  lemma PatternScanIsAll(hay: seq<byte>, needle: seq<byte>)
    ensures needle == [] ==> PatternScan(hay, needle) == []
    ensures needle != [] ==> AllMatches(PatternScan(hay, needle), hay, needle, 0, |hay|)
  {
    hide Matches;
    var out := PatternScan(hay, needle);
    if |hay| < |needle| {
      assert out == [];
    } else if needle != [] {
      var n := |hay| - |needle| + 1;
      MatchesAreAll(hay, needle, n);
      WiderRange(out, hay, needle, n);
    }
  }

  /** No match starts where the needle no longer fits. */
  lemma WiderRange(out: seq<nat>, hay: seq<byte>, needle: seq<byte>, n: nat)
    requires 0 < |needle| <= |hay| && n == |hay| - |needle| + 1 && AllMatches(out, hay, needle, 0, n)
    ensures AllMatches(out, hay, needle, 0, |hay|)
  {
  }

  /** The matches that start in a range, in the loop both pattern scans run. */
  method PatternRange(hay: seq<byte>, needle: seq<byte>, lo: nat, hi: nat) returns (out: seq<nat>)
    requires hi + |needle| <= |hay| + 1
    ensures AllMatches(out, hay, needle, lo, hi)
  {
    hide MatchAt;
    out := [];
    var i := lo;
    while i < hi
      invariant lo <= i && (i <= hi || i == lo) && AllMatches(out, hay, needle, lo, i)
    {
      PatternStep(out, hay, needle, lo, i);
      if hay[i..i + |needle|] == needle {
        out := out + [i];
      }
      i := i + 1;
    }
  }

  lemma PatternStep(out: seq<nat>, hay: seq<byte>, needle: seq<byte>, lo: nat, i: nat)
    requires lo <= i && i + |needle| <= |hay| && AllMatches(out, hay, needle, lo, i)
    ensures AllMatches(if hay[i..i + |needle|] == needle then out + [i] else out, hay, needle, lo, i + 1)
  {
    forall k | 0 <= k < |out|
      ensures out[k] < i
    {
      assert out[k] in out;
    }
  }

  lemma MatchesUnique(a: seq<nat>, b: seq<nat>, hay: seq<byte>, needle: seq<byte>, lo: nat, hi: nat)
    requires AllMatches(a, hay, needle, lo, hi) && AllMatches(b, hay, needle, lo, hi)
    ensures a == b
  {
    hide MatchAt;
    StrictlySortedUnique(a, b, Id);
  }

  method PatternSeq(hay: seq<byte>, needle: seq<byte>) returns (out: seq<nat>)
    ensures out == PatternScan(hay, needle)
  {
    hide AllMatches, MatchAt;
    if needle == [] || |hay| < |needle| { return []; }
    out := PatternRange(hay, needle, 0, |hay| - |needle| + 1);
    MatchesAreAll(hay, needle, |hay| - |needle| + 1);
    MatchesUnique(out, PatternScan(hay, needle), hay, needle, 0, |hay| - |needle| + 1);
  }

  ghost predicate Gathered(hits: seq<nat>, hay: seq<byte>, needle: seq<byte>, ranges: seq<Range>, todo: set<nat>) {
    (forall i :: i in hits ==> MatchAt(hay, needle, i)) &&
    forall i: nat, k: nat :: MatchAt(hay, needle, i) && k < |ranges| && k !in todo && InRange(ranges[k], i) ==>
      i in hits
  }

  lemma GatheredMore(hits: seq<nat>, local: seq<nat>, hay: seq<byte>, needle: seq<byte>, ranges: seq<Range>,
                     todo: set<nat>, k: nat, end: nat)
    requires Gathered(hits, hay, needle, ranges, todo) && k < |ranges| && |needle| <= |hay|
    requires end == if ranges[k].hi < |hay| - |needle| + 1 then ranges[k].hi else |hay| - |needle| + 1
    requires AllMatches(local, hay, needle, ranges[k].lo, end)
    ensures Gathered(hits + local, hay, needle, ranges, todo - {k})
  {
  }

  lemma GatheredAll(hits: seq<nat>, hay: seq<byte>, needle: seq<byte>, ranges: seq<Range>)
    requires needle != [] && Gathered(hits, hay, needle, ranges, {}) && Covers(ranges, |hay|)
    ensures AllMatches(DedupBy(SortBy(hits, Id), Id), hay, needle, 0, |hay|)
  {
    var sorted := SortBy(hits, Id);
    SortBySorted(hits, Id);
    forall i: nat
      ensures i in sorted <==> i < |hay| && MatchAt(hay, needle, i)
    {
      SameElements(hits, Id, i);
      if MatchAt(hay, needle, i) {
        assert Covered(ranges, i);
        var k :| 0 <= k < |ranges| && InRange(ranges[k], i);
      }
    }
    DedupSorted(sorted, Id);
  }

  lemma NoneGathered(hay: seq<byte>, needle: seq<byte>, ranges: seq<Range>)
    ensures Gathered([], hay, needle, ranges, Upto(|ranges|))
  {
  }

  /** Chunks searched in any order, then sorted and deduplicated, give what the oracle gives. */
  method PatternParallel(hay: seq<byte>, needle: seq<byte>, threads: nat) returns (hits: seq<nat>)
    ensures hits == PatternScan(hay, needle)
  {
    hide AllMatches, Gathered, SortBy, DedupBy, MatchAt, Matches;
    if needle == [] { return []; }
    if |hay| < 4096 || threads <= 1 || |hay| < |needle| {
      hits := PatternSeq(hay, needle);
      return;
    }
    var ranges := MakeRanges(|hay|, threads);
    var todo := Upto(|ranges|);
    hits := [];
    NoneGathered(hay, needle, ranges);
    while todo != {}
      invariant todo <= Upto(|ranges|)
      invariant Gathered(hits, hay, needle, ranges, todo)
      decreases |todo|
    {
      var k :| k in todo;
      var end := if ranges[k].hi < |hay| - |needle| + 1 then ranges[k].hi else |hay| - |needle| + 1;
      var local := PatternRange(hay, needle, ranges[k].lo, end);
      GatheredMore(hits, local, hay, needle, ranges, todo, k, end);
      hits := hits + local;
      todo := todo - {k};
    }
    GatheredAll(hits, hay, needle, ranges);
    PatternScanIsAll(hay, needle);
    hits := DedupBy(SortBy(hits, Id), Id);
    MatchesUnique(hits, PatternScan(hay, needle), hay, needle, 0, |hay|);
  }
}
