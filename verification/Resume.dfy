/**
 Resume negotiation (transfer.cpp): the receiver lists the parts of its incomplete
 chunks, merges ranges until the list fits, splits it over datagrams; the sender puts
 the parts together, sorts and checks them. What it ends up sending is exactly that list.
 */
module Resume {
  import opened Basics
  import opened Tiling
  import opened LaneSender
  import opened Word64
  import Control
  import Modular

  const MAX_OFF: nat := 0x7FFF_FFFF_FFFF_FFFF
  const RANGES_PER_PART: nat := 64
  const MAX_RANGES: nat := 4096
  const FIRST_CHUNK: nat := 65536
  const MAX_CHUNKS: nat := 8 * 1024 * 1024

  // ----- Chunks -----

  function ChunkCount(total: nat, chunk: nat): nat
    requires chunk >= 1
  {
    (total + chunk - 1) / chunk
  }

  function ChunkLen(i: nat, chunk: nat, total: nat): nat
    requires i * chunk <= total
  {
    Min(chunk, total - i * chunk)
  }

  lemma ChunkStarts(i: nat, chunk: nat, total: nat)
    requires chunk >= 1 && i < ChunkCount(total, chunk)
    ensures i * chunk < total && ChunkLen(i, chunk, total) >= 1
  {
    var n := ChunkCount(total, chunk);
    assert total + chunk - 1 == n * chunk + (total + chunk - 1) % chunk;
    Modular.MulStep(i, n, chunk);
  }

  /** Byte `o` lies in chunk `o / chunk`, and nowhere else. */
  lemma ChunkOf(o: nat, chunk: nat, total: nat)
    requires chunk >= 1 && o < total
    ensures o / chunk < ChunkCount(total, chunk)
    ensures o / chunk * chunk <= o < o / chunk * chunk + chunk
  {
    var c := o / chunk;
    assert o == c * chunk + o % chunk;
    Modular.DivAtLeast(total + chunk - 1, chunk, c + 1);
  }

  /** The smallest doubling of 64 KiB that keeps the chunk map under its limit. */
  method ChooseChunk(total: nat) returns (chunk: nat, ghost k: nat)
    ensures chunk == FIRST_CHUNK * Pow2(k) && chunk >= 1 && total / chunk <= MAX_CHUNKS
    ensures forall j: nat | j < k :: Pow2(j) >= 1 && total / (FIRST_CHUNK * Pow2(j)) > MAX_CHUNKS
  {
    chunk, k := FIRST_CHUNK, 0;
    while total / chunk > MAX_CHUNKS
      invariant chunk == FIRST_CHUNK * Pow2(k) && chunk >= 1
      invariant forall j: nat | j < k :: Pow2(j) >= 1 && total / (FIRST_CHUNK * Pow2(j)) > MAX_CHUNKS
      decreases total - chunk
    {
      DivPositive(total, chunk);
      chunk, k := chunk * 2, k + 1;
    }
  }

  lemma DivPositive(total: nat, chunk: nat)
    requires chunk >= 1 && total / chunk > 0
    ensures chunk <= total
  {}

  // ----- Which bytes are asked for -----

  /** Ascending, non-empty, and never touching one another. */
  ghost predicate Apart(r: seq<Range>) {
    && (forall i | 0 <= i < |r| :: r[i].length > 0)
    && (forall i, j | 0 <= i < j < |r| :: r[i].End() < r[j].offset)
  }

  ghost predicate Asked(r: seq<Range>, o: nat) {
    exists i :: 0 <= i < |r| && r[i].offset <= o < r[i].End()
  }

  /** The resume state `missing` looks at: bytes counted per chunk. */
  datatype Progress = Progress(chunk: nat, total: nat, counters: seq<nat>)
  {
    ghost predicate Ok() { chunk >= 1 && |counters| == ChunkCount(total, chunk) }

    predicate Complete(c: nat)
      requires c < |counters| && c * chunk <= total
    {
      counters[c] >= ChunkLen(c, chunk, total)
    }

    /** Byte `o` belongs to a chunk that is not complete. */
    ghost predicate Needs(o: nat) {
      && chunk >= 1 && o < total
      && o / chunk < |counters| && (ChunkFloor(o, chunk); !Complete(o / chunk))
    }
  }

  lemma ChunkFloor(o: nat, chunk: nat)
    requires chunk >= 1
    ensures o / chunk * chunk <= o
  {}

  /** `r` is the part of `[begin, upto)` that lies in incomplete chunks. */
  ghost predicate Lists(p: Progress, begin: nat, upto: nat, r: seq<Range>) {
    && Apart(r) && (r != [] ==> r[|r| - 1].End() <= upto)
    && forall o: nat :: Asked(r, o) <==> begin <= o < upto && p.Needs(o)
  }

  lemma AskedSnoc(r: seq<Range>, x: Range, o: nat)
    ensures Asked(r + [x], o) <==> Asked(r, o) || x.offset <= o < x.End()
  {
    if Asked(r, o) {
      var i :| 0 <= i < |r| && r[i].offset <= o < r[i].End();
      assert (r + [x])[i] == r[i];
    }
    if x.offset <= o < x.End() { assert (r + [x])[|r|] == x; }
  }

  lemma AskedAppend(r: seq<Range>, x: Range)
    ensures forall o: nat :: Asked(r + [x], o) <==> Asked(r, o) || x.offset <= o < x.End()
  {
    hide Asked;
    forall o: nat ensures Asked(r + [x], o) <==> Asked(r, o) || x.offset <= o < x.End() { AskedSnoc(r, x, o); }
  }

  /** One more stretch of needed bytes, joined to the last range when they touch. */
  function Push(r: seq<Range>, a: nat, b: nat): seq<Range>
    requires a < b
  {
    if r != [] && r[|r| - 1].End() == a then r[..|r| - 1] + [Range(r[|r| - 1].offset, b - r[|r| - 1].offset)]
    else r + [Range(a, b - a)]
  }

  lemma PushAsks(r: seq<Range>, a: nat, b: nat)
    requires Apart(r) && a < b && (r != [] ==> r[|r| - 1].End() <= a)
    ensures Apart(Push(r, a, b)) && Push(r, a, b)[|Push(r, a, b)| - 1].End() == b
    ensures forall o: nat :: Asked(Push(r, a, b), o) <==> Asked(r, o) || a <= o < b
  {
    hide Asked, Apart;
    PushApart(r, a, b);
    forall o: nat ensures Asked(Push(r, a, b), o) <==> Asked(r, o) || a <= o < b { PushAsksAt(r, a, b, o); }
  }

  lemma PushApart(r: seq<Range>, a: nat, b: nat)
    requires Apart(r) && a < b && (r != [] ==> r[|r| - 1].End() <= a)
    ensures Apart(Push(r, a, b)) && Push(r, a, b)[|Push(r, a, b)| - 1].End() == b
  {}

  lemma PushAsksAt(r: seq<Range>, a: nat, b: nat, o: nat)
    requires Apart(r) && a < b
    ensures Asked(Push(r, a, b), o) <==> Asked(r, o) || a <= o < b
  {
    hide Asked;
    if r != [] && r[|r| - 1].End() == a {
      var n := |r| - 1;
      AskedSnoc(r[..n], Range(r[n].offset, b - r[n].offset), o);
      AskedSnoc(r[..n], r[n], o);
      assert r[..n] + [r[n]] == r;
    } else {
      AskedSnoc(r, Range(a, b - a), o);
    }
  }

  /** Where the scan has got to once the chunks below `c` are done. */
  function Scanned(begin: nat, end: nat, chunk: nat, c: nat): nat { Max(begin, Min(end, c * chunk)) }

  lemma InChunk(o: nat, c: nat, chunk: nat)
    requires chunk >= 1
    ensures o / chunk == c <==> c * chunk <= o < (c + 1) * chunk
  {
    assert (c + 1) * chunk == c * chunk + chunk;
    if c * chunk <= o < (c + 1) * chunk { Modular.DivModUnique(o, chunk, c, o - c * chunk); }
  }

  lemma NeedsInChunk(p: Progress, c: nat, o: nat)
    requires p.Ok() && c < |p.counters| && c * p.chunk <= o < (c + 1) * p.chunk && o < p.total
    ensures p.Needs(o) <==> !p.Complete(c)
  {
    InChunk(o, c, p.chunk);
  }

  lemma ScanOne(p: Progress, begin: nat, end: nat, c: nat, r: seq<Range>)
    requires p.Ok() && begin < end <= p.total && c < |p.counters|
    requires begin < (c + 1) * p.chunk && c * p.chunk < end && c * p.chunk <= p.total
    requires Lists(p, begin, Scanned(begin, end, p.chunk, c), r)
    ensures var a, b := Max(begin, c * p.chunk), Min(end, Min(p.total, (c + 1) * p.chunk));
            && a == Scanned(begin, end, p.chunk, c) && b == Scanned(begin, end, p.chunk, c + 1) && a < b
            && Lists(p, begin, b, if p.Complete(c) then r else Push(r, a, b))
  {
    var a, b := Max(begin, c * p.chunk), Min(end, Min(p.total, (c + 1) * p.chunk));
    assert (c + 1) * p.chunk == c * p.chunk + p.chunk;
    forall o: nat | a <= o < b ensures p.Needs(o) <==> !p.Complete(c) { NeedsInChunk(p, c, o); }
    if !p.Complete(c) { PushAsks(r, a, b); }
    hide Progress.Needs, Asked, Apart, Push;
  }

  /**
   `FileSink::missing`: the whole of `[begin, end)` for a fresh file; for a resumed one exactly
   its bytes in incomplete chunks, as ascending ranges that never touch.
   */
  method Missing(p: Progress, resumed: bool, begin: nat, end: nat) returns (out: seq<Range>)
    requires p.Ok() && end <= p.total
    ensures Apart(out)
    ensures forall o: nat :: Asked(out, o) <==> begin <= o < end && (resumed ==> p.Needs(o))
    ensures forall r <- out :: begin <= r.offset && r.End() <= end
  {
    hide Asked, Push, Progress.Needs;
    out := [];
    NothingAsked();
    if end <= begin { return; }
    if !resumed {
      AskedAppend([], Range(begin, end - begin));
      out := [] + [Range(begin, end - begin)];
      return;
    }
    out := MissingChunks(p, begin, end);
    RangesWithin(p, begin, end, out);
  }

  /** Chunk `c` is one that `[begin, end)` reaches into, or the one just after them. */
  ghost predicate Reached(p: Progress, begin: nat, end: nat, c: nat)
    requires p.chunk >= 1
  {
    begin < (c + 1) * p.chunk && (c <= (end - 1) / p.chunk ==> c * p.chunk < end)
  }

  lemma ReachedFirst(p: Progress, begin: nat, end: nat)
    requires p.chunk >= 1 && begin < end
    ensures Reached(p, begin, end, begin / p.chunk) && begin / p.chunk <= (end - 1) / p.chunk
    ensures Scanned(begin, end, p.chunk, begin / p.chunk) == begin
  {
    InChunk(begin, begin / p.chunk, p.chunk);
    Modular.DivAtLeast(end - 1, p.chunk, begin / p.chunk);
  }

  lemma ReachedNext(p: Progress, begin: nat, end: nat, c: nat)
    requires p.chunk >= 1 && begin < end && Reached(p, begin, end, c) && c <= (end - 1) / p.chunk
    ensures Reached(p, begin, end, c + 1)
    ensures c == (end - 1) / p.chunk ==> Scanned(begin, end, p.chunk, c + 1) == end
  {
    InChunk(end - 1, (end - 1) / p.chunk, p.chunk);
    assert (c + 2) * p.chunk == (c + 1) * p.chunk + p.chunk;
    LastChunkStarts(c + 1, Max(c + 1, (end - 1) / p.chunk), p.chunk);
  }

  method MissingChunks(p: Progress, begin: nat, end: nat) returns (out: seq<Range>)
    requires p.Ok() && begin < end <= p.total
    ensures Lists(p, begin, end, out)
  {
    ChunkOf(end - 1, p.chunk, p.total);
    ReachedFirst(p, begin, end);
    hide Asked, Push, Progress.Needs, Reached, Scanned, ChunkCount, Apart;
    out := [];
    NothingAsked();
    var c := begin / p.chunk;
    while c <= (end - 1) / p.chunk && c < |p.counters|
      invariant c <= (end - 1) / p.chunk + 1 <= |p.counters|
      invariant Reached(p, begin, end, c)
      invariant Lists(p, begin, Scanned(begin, end, p.chunk, c), out)
      invariant c == (end - 1) / p.chunk + 1 ==> Scanned(begin, end, p.chunk, c) == end
    {
      hide Lists;
      var a, b := MissingHere(p, begin, end, c, out);
      ReachedNext(p, begin, end, c);
      if p.counters[c] < ChunkLen(c, p.chunk, p.total) { out := Push(out, a, b); }
      c := c + 1;
    }
  }

  /** The part of `[begin, end)` in chunk `c`. */
  method MissingHere(p: Progress, begin: nat, end: nat, c: nat, ghost r: seq<Range>) returns (a: nat, b: nat)
    requires p.Ok() && begin < end <= p.total && c < |p.counters| && c <= (end - 1) / p.chunk && Reached(p, begin, end, c)
    requires Lists(p, begin, Scanned(begin, end, p.chunk, c), r)
    ensures a < b && c * p.chunk <= p.total && b == Scanned(begin, end, p.chunk, c + 1)
    ensures Lists(p, begin, b, if p.Complete(c) then r else Push(r, a, b))
  {
    ScanOne(p, begin, end, c, r);
    a, b := Max(begin, c * p.chunk), Min(end, Min(p.total, (c + 1) * p.chunk));
  }

  lemma NothingAsked()
    ensures forall o: nat :: !Asked([], o)
  {}

  lemma LastChunkStarts(c: nat, last: nat, chunk: nat)
    requires c <= last
    ensures c * chunk <= last * chunk
  {}

  lemma RangesWithin(p: Progress, begin: nat, end: nat, r: seq<Range>)
    requires Lists(p, begin, end, r)
    ensures forall x <- r :: begin <= x.offset && x.End() <= end
  {
    forall x <- r ensures begin <= x.offset && x.End() <= end {
      var i :| 0 <= i < |r| && r[i] == x;
      assert r[i].length > 0;
      assert Asked(r, x.offset);
      assert i < |r| - 1 ==> r[i].End() < r[|r| - 1].offset;
    }
  }

  // ----- Fewer ranges -----

  function Gap(r: seq<Range>, i: nat): int
    requires 1 <= i < |r|
  {
    r[i].offset - r[i - 1].End()
  }

  /** The next range: joined to the last one so far, or put after it. */
  function Tack(f: seq<Range>, x: Range, close: bool): (out: seq<Range>)
    requires f != []
    ensures |out| == if close then |f| else |f| + 1
  {
    var k := |f| - 1;
    if close then f[..k] + [Range(f[k].offset, Max(x.End(), f[k].offset) - f[k].offset)] else f + [x]
  }

  /** The first `n` ranges, those no more than `m` bytes apart joined, the others kept apart. */
  function Merged(r: seq<Range>, m: nat, n: nat): (out: seq<Range>)
    requires 1 <= n <= |r|
    ensures 1 <= |out|
  {
    if n == 1 then [r[0]] else Tack(Merged(r, m, n - 1), r[n - 1], Gap(r, n - 1) <= m)
  }

  /** What a pass leaves: still in order, over the same stretch, every remaining gap wider than `m`. */
  ghost predicate Joined(r: seq<Range>, m: nat, n: nat, out: seq<Range>) {
    && 1 <= |out| <= n <= |r| && Usable(out)
    && out[0].offset == r[0].offset && out[|out| - 1].End() == r[n - 1].End()
    && out[|out| - 1].offset <= r[n - 1].offset
    && (forall i | 1 <= i < |out| :: Gap(out, i) > m)
    && (|out| == n ==> forall i | 1 <= i < n :: Gap(r, i) > m)
  }

  lemma UsableFront(r: seq<Range>)
    requires Usable(r) && r != []
    ensures Usable(r[..|r| - 1]) && r[|r| - 1].length > 0
  {
    assert r[|r| - 1] in r;
    forall x <- r[..|r| - 1] ensures x.length > 0 { assert x in r; }
  }

  lemma UsableAppend(f: seq<Range>, x: Range)
    requires Usable(f) && x.length > 0 && (f != [] ==> f[|f| - 1].End() <= x.offset)
    ensures Usable(f + [x])
  {
    forall i, j | 0 <= i < j < |f| + 1 ensures (f + [x])[i].End() <= (f + [x])[j].offset {
      if j == |f| && i < |f| - 1 { assert f[|f| - 1] in f; }
    }
  }

  lemma UsableAt(r: seq<Range>, i: nat)
    requires Usable(r) && 1 <= i < |r|
    ensures 0 <= Gap(r, i) && r[i].length > 0 && r[i].End() <= r[|r| - 1].End()
  {
    assert r[|r| - 1] in r && r[i] in r;
  }

  lemma TackJoins(r: seq<Range>, m: nat, n: nat, f: seq<Range>)
    requires Usable(r) && 1 <= n < |r| && Joined(r, m, n, f)
    ensures Joined(r, m, n + 1, Tack(f, r[n], Gap(r, n) <= m))
    ensures f[|f| - 1].End() == r[n - 1].End() && f[|f| - 1].offset < r[n].End()
  {
    var k := |f| - 1;
    var out := Tack(f, r[n], Gap(r, n) <= m);
    UsableAt(r, n);
    UsableFront(f);
    if Gap(r, n) <= m { UsableAppend(f[..k], out[k]); } else { UsableAppend(f, r[n]); }
    hide Usable;
    forall i | 1 <= i < |out| ensures Gap(out, i) > m { if i < |f| { assert Gap(out, i) == Gap(f, i); } }
  }

  lemma {:induction false} MergedJoins(r: seq<Range>, m: nat, n: nat)
    requires Usable(r) && 1 <= n <= |r|
    ensures Joined(r, m, n, Merged(r, m, n))
  {
    if n == 1 {
      assert r[0] in r;
    } else {
      MergedJoins(r, m, n - 1);
      hide Usable, Joined;
      TackJoins(r, m, n - 1, Merged(r, m, n - 1));
    }
  }

  /** Byte `o` is in one of the first `n` ranges, or in a gap between two of them that gets closed. */
  ghost predicate Spanned(r: seq<Range>, m: nat, n: nat, o: nat)
    requires n <= |r|
  {
    exists i | 0 <= i < n :: Reaches(r, m, i, o)
  }

  /** Byte `o` is in range `i`, or in a closed gap just before it. */
  ghost predicate Reaches(r: seq<Range>, m: nat, i: nat, o: nat)
    requires i < |r|
  {
    (if i > 0 && Gap(r, i) <= m then r[i - 1].End() else r[i].offset) <= o < r[i].End()
  }

  lemma SpannedNext(r: seq<Range>, m: nat, n: nat, o: nat)
    requires n < |r|
    ensures Spanned(r, m, n + 1, o) <==> Spanned(r, m, n, o) || Reaches(r, m, n, o)
  {
    hide Reaches;
  }

  lemma TackAsks(f: seq<Range>, x: Range, close: bool, o: nat)
    requires f != [] && f[|f| - 1].offset <= f[|f| - 1].End() <= x.offset
    ensures Asked(Tack(f, x, close), o) <==> Asked(f, o) || (if close then f[|f| - 1].End() else x.offset) <= o < x.End()
  {
    var k := |f| - 1;
    hide Asked;
    AskedSnoc(f[..k], f[k], o);
    assert f[..k] + [f[k]] == f;
    if close { AskedSnoc(f[..k], Tack(f, x, close)[k], o); } else { AskedSnoc(f, x, o); }
  }

  /** A pass asks for exactly what was asked for before and the gaps it closed. */
  lemma {:induction false} MergedAsks(r: seq<Range>, m: nat, n: nat, o: nat)
    requires Usable(r) && 1 <= n <= |r|
    ensures Asked(Merged(r, m, n), o) <==> Spanned(r, m, n, o)
  {
    hide Asked, Spanned, Usable, Joined, Tack, Merged;
    MergedUnfold(r, m, n);
    if n == 1 {
      MergedOneAsks(r, m, o);
    } else {
      MergedAsks(r, m, n - 1, o);
      MergedJoins(r, m, n - 1);
      TackJoins(r, m, n - 1, Merged(r, m, n - 1));
      UsableAt(r, n - 1);
      SpannedNext(r, m, n - 1, o);
      TackAsks(Merged(r, m, n - 1), r[n - 1], Gap(r, n - 1) <= m, o);
    }
  }

  lemma MergedOneAsks(r: seq<Range>, m: nat, o: nat)
    requires r != []
    ensures Asked([r[0]], o) <==> Spanned(r, m, 1, o)
  {
    assert [r[0]][0] == r[0];
    SpannedNext(r, m, 0, o);
  }

  method MinGap(r: seq<Range>) returns (g: nat)
    requires Usable(r) && |r| >= 2 && r[|r| - 1].End() <= MAX_OFF
    ensures g <= MAX_OFF && (exists i | 1 <= i < |r| :: Gap(r, i) == g)
    ensures forall i | 1 <= i < |r| :: g <= Gap(r, i)
  {
    g := TWO64 - 1;
    for i := 1 to |r|
      invariant forall k | 1 <= k < i :: g <= Gap(r, k)
      invariant if i == 1 then g == TWO64 - 1 else exists k | 1 <= k < i :: Gap(r, k) == g
    {
      hide Usable;
      UsableAt(r, i);
      var gap := r[i].offset - (r[i - 1].offset + r[i - 1].length);
      assert gap == Gap(r, i);
      if gap < g { g := gap; }
    }
    var k :| 1 <= k < |r| && Gap(r, k) == g;
    UsableAt(r, k);
  }

  lemma MergedUnfold(r: seq<Range>, m: nat, n: nat)
    requires 1 <= n <= |r|
    ensures Merged(r, m, n) == if n == 1 then [r[0]] else Tack(Merged(r, m, n - 1), r[n - 1], Gap(r, n - 1) <= m)
  {}

  /** One pass of the merging loop. */
  method MergeClose(r: seq<Range>, m: nat) returns (out: seq<Range>)
    requires Usable(r) && |r| >= 1
    ensures out == Merged(r, m, |r|)
  {
    hide Joined, Usable, Merged;
    MergedUnfold(r, m, 1);
    out := [r[0]];
    for i := 1 to |r|
      invariant out == Merged(r, m, i) && |out| >= 1
    {
      MergedUnfold(r, m, i + 1);
      var last := out[|out| - 1];
      MergedJoins(r, m, i);
      TackJoins(r, m, i, out);
      if r[i].offset - (last.offset + last.length) <= m {
        out := out[..|out| - 1] + [Range(last.offset, r[i].offset + r[i].length - last.offset)];
      } else {
        out := out + [r[i]];
      }
    }
  }

  /** `out` asks for at least what `r` asks for, and for nothing outside its stretch. */
  ghost predicate Covers(r: seq<Range>, out: seq<Range>) {
    && Usable(out) && |out| <= |r| && (r == [] <==> out == [])
    && (r != [] ==> out[0].offset == r[0].offset && out[|out| - 1].End() == r[|r| - 1].End())
    && forall o: nat | Asked(r, o) :: Asked(out, o)
  }

  lemma AskedIsSpanned(r: seq<Range>, m: nat, o: nat)
    requires Usable(r) && Asked(r, o)
    ensures Spanned(r, m, |r|, o)
  {
    var i :| 0 <= i < |r| && r[i].offset <= o < r[i].End();
    if i > 0 { UsableAt(r, i); }
    assert Reaches(r, m, i, o);
  }

  lemma MergedCovers(r0: seq<Range>, r: seq<Range>, m: nat)
    requires Covers(r0, r) && r != [] && exists i | 1 <= i < |r| :: Gap(r, i) <= m
    ensures Covers(r0, Merged(r, m, |r|)) && |Merged(r, m, |r|)| < |r|
  {
    MergedJoins(r, m, |r|);
    forall o: nat | Asked(r, o) ensures Asked(Merged(r, m, |r|), o) {
      AskedIsSpanned(r, m, o);
      MergedAsks(r, m, |r|, o);
    }
    hide Asked, Usable, Merged;
  }

  // ----- How much more a coarser list asks for -----

  /** How many of the gaps between the first `n` ranges are at least `g` wide. */
  function Wide(r: seq<Range>, g: int, n: nat): nat
    requires n <= |r|
  {
    if n <= 1 then 0 else Wide(r, g, n - 1) + if Gap(r, n - 1) >= g then 1 else 0
  }

  /** A pass leaves one range more than there are gaps too wide for it. */
  lemma {:induction false} MergedCount(r: seq<Range>, m: nat, n: nat)
    requires 1 <= n <= |r|
    ensures |Merged(r, m, n)| == 1 + Wide(r, m + 1, n)
  {
    MergedUnfold(r, m, n);
    hide Merged, Tack;
    if n > 1 { MergedCount(r, m, n - 1); }
  }

  lemma {:induction false} WideSame(r: seq<Range>, a: int, b: int, n: nat)
    requires n <= |r| && forall i | 1 <= i < n :: Gap(r, i) >= a <==> Gap(r, i) >= b
    ensures Wide(r, a, n) == Wide(r, b, n)
  {
    hide Gap;
    if n > 1 { WideSame(r, a, b, n - 1); }
  }

  lemma {:induction false} AllWide(r: seq<Range>, n: nat)
    requires Usable(r) && 1 <= n <= |r|
    ensures Wide(r, 0, n) == n - 1
  {
    if n > 1 {
      UsableAt(r, n - 1);
      hide Usable, Gap;
      AllWide(r, n - 1);
    }
  }

  /** The last range made to end at `e`. */
  function Stretch(q: seq<Range>, e: nat): seq<Range>
    requires q != []
  {
    var k := |q| - 1;
    q[..k] + [Range(q[k].offset, Max(e, q[k].offset) - q[k].offset)]
  }

  lemma {:induction false} MergedPrefix(r: seq<Range>, s: seq<Range>, m: nat, n: nat)
    requires 1 <= n <= |r| && n <= |s| && forall i | 0 <= i < n :: r[i] == s[i]
    ensures Merged(r, m, n) == Merged(s, m, n)
  {
    MergedUnfold(r, m, n);
    MergedUnfold(s, m, n);
    hide Merged, Tack;
    if n > 1 { MergedPrefix(r, s, m, n - 1); }
  }

  /** Stretching the last range before a pass or after it is the same. */
  lemma MergedStretch(f: seq<Range>, m: nat, e: nat)
    requires Usable(f) && f != [] && e >= f[|f| - 1].End()
    ensures Merged(Stretch(f, e), m, |f|) == Stretch(Merged(f, m, |f|), e)
  {
    hide Merged, Joined, Usable;
    var k, g := |f| - 1, Stretch(f, e);
    assert forall i | 0 <= i < k :: g[i] == f[i];
    MergedUnfold(f, m, |f|);
    MergedUnfold(g, m, |f|);
    if k > 0 {
      MergedPrefix(f, g, m, k);
      UsableAt(f, k);
      assert Gap(f, k) == Gap(g, k);
      TackStretch(Merged(f, m, k), f[k], g[k], Gap(f, k) <= m, e);
    }
  }

  lemma TackStretch(q: seq<Range>, x: Range, y: Range, close: bool, e: nat)
    requires q != [] && y == Range(x.offset, Max(e, x.offset) - x.offset) && e >= x.End()
    ensures Tack(q, y, close) == Stretch(Tack(q, x, close), e)
  {
    var a, b := Tack(q, y, close), Stretch(Tack(q, x, close), e);
    assert |a| == |b|;
    assert a[|a| - 1] == b[|a| - 1];
    assert a[..|a| - 1] == b[..|a| - 1];
  }

  lemma MergedEnd(r: seq<Range>, m: nat, n: nat)
    requires Usable(r) && 1 <= n <= |r|
    ensures var q := Merged(r, m, n); Usable(q) && q != [] && q[|q| - 1].End() == r[n - 1].End()
  {
    MergedJoins(r, m, n);
    hide Merged;
  }

  /** Closing the gaps up to `a`, then those up to `b`, is closing those up to `b` at once. */
  lemma {:induction false} MergedTwice(r: seq<Range>, a: nat, b: nat, n: nat)
    requires Usable(r) && 1 <= n <= |r| && a <= b
    ensures var q := Merged(r, a, n); Merged(q, b, |q|) == Merged(r, b, n)
  {
    hide Merged, Usable, Tack;
    MergedUnfold(r, a, n);
    MergedUnfold(r, b, n);
    if n == 1 {
      MergedUnfold([r[0]], b, 1);
    } else {
      MergedTwice(r, a, b, n - 1);
      MergedEnd(r, a, n - 1);
      MergedEnd(r, b, n - 1);
      UsableAt(r, n - 1);
      TwiceStep(r, a, b, n - 1, Merged(r, a, n - 1));
    }
  }

  lemma TwiceStep(r: seq<Range>, a: nat, b: nat, n: nat, q: seq<Range>)
    requires 1 <= n < |r| && a <= b && Usable(q) && q != [] && q[|q| - 1].End() == r[n - 1].End() && 0 <= Gap(r, n)
    requires |Merged(q, b, |q|)| > 0
    ensures var q' := Tack(q, r[n], Gap(r, n) <= a);
            Merged(q', b, |q'|) == Tack(Merged(q, b, |q|), r[n], Gap(r, n) <= b)
  {
    hide Merged, Usable;
    if Gap(r, n) <= a {
      MergedStretch(q, b, r[n].End());
      assert Tack(q, r[n], true) == Stretch(q, r[n].End());
      assert Tack(Merged(q, b, |q|), r[n], true) == Stretch(Merged(q, b, |q|), r[n].End());
    } else {
      var q' := q + [r[n]];
      assert Tack(q, r[n], false) == q';
      MergedPrefix(q, q', b, |q|);
      MergedUnfold(q', b, |q'|);
      assert Gap(q', |q|) == Gap(r, n);
    }
  }

  /** A gap too wide for a pass is still there after it. */
  lemma {:induction false} WideGapStays(r: seq<Range>, m: nat, n: nat, i: nat)
    requires Usable(r) && 1 <= i < n <= |r| && Gap(r, i) > m
    ensures exists j: nat :: 1 <= j < |Merged(r, m, n)| && Gap(Merged(r, m, n), j) == Gap(r, i)
    decreases n
  {
    hide Merged, Usable;
    MergedUnfold(r, m, n);
    MergedEnd(r, m, n - 1);
    var f, q := Merged(r, m, n - 1), Merged(r, m, n);
    if i == n - 1 {
      assert Gap(q, |f|) == Gap(r, i);
    } else {
      WideGapStays(r, m, n - 1, i);
      var j: nat :| 1 <= j < |f| && Gap(f, j) == Gap(r, i);
      assert Gap(q, j) == Gap(f, j);
    }
  }

  /** What the loop has done so far: nothing (`m` is -1), or closed exactly the gaps of `r0` up to `m`. */
  ghost predicate ClosedUpTo(r0: seq<Range>, m: int, r: seq<Range>) {
    && m >= -1 && (m == -1 ==> r == r0) && (m >= 0 ==> r0 != [] && r == Merged(r0, m, |r0|))
    && (r0 != [] ==> |r| == 1 + Wide(r0, m + 1, |r0|))
  }

  /** `out` is `r0` with exactly its gaps up to `2 g + 1` closed, closing only those below `g` being too few. */
  ghost predicate Narrowed(r0: seq<Range>, limit: nat, g: nat, out: seq<Range>) {
    r0 != [] && 1 + Wide(r0, g, |r0|) > limit && out == Merged(r0, 2 * g + 1, |r0|)
  }

  /** The gaps still open are those of `r0` wider than `m`, so the least of them bounds them all. */
  lemma LeastIsNext(r0: seq<Range>, m: int, r: seq<Range>, g: nat)
    requires Usable(r0) && r0 != [] && ClosedUpTo(r0, m, r) && |r| >= 2
    requires exists i | 1 <= i < |r| :: Gap(r, i) == g
    requires forall i | 1 <= i < |r| :: g <= Gap(r, i)
    ensures g > m && Wide(r0, m + 1, |r0|) == Wide(r0, g, |r0|)
  {
    hide Merged, Usable, Wide;
    if m >= 0 { MergedJoins(r0, m, |r0|); }
    var k :| 1 <= k < |r| && Gap(r, k) == g;
    assert g > m by { if m == -1 { UsableAt(r0, k); } }
    forall i | 1 <= i < |r0| ensures Gap(r0, i) >= m + 1 <==> Gap(r0, i) >= g {
      if Gap(r0, i) >= m + 1 && m >= 0 {
        WideGapStays(r0, m, |r0|, i);
      }
    }
    WideSame(r0, m + 1, g, |r0|);
  }

  lemma PassCloses(r0: seq<Range>, m: int, r: seq<Range>, limit: nat, g: nat)
    requires Usable(r0) && r0 != [] && ClosedUpTo(r0, m, r) && |r| > limit && |r| >= 2
    requires exists i | 1 <= i < |r| :: Gap(r, i) == g
    requires forall i | 1 <= i < |r| :: g <= Gap(r, i)
    ensures var out := Merged(r, 2 * g + 1, |r|); ClosedUpTo(r0, 2 * g + 1, out) && Narrowed(r0, limit, g, out)
  {
    hide Merged, Usable, Wide;
    LeastIsNext(r0, m, r, g);
    if m >= 0 { MergedTwice(r0, m, 2 * g + 1, |r0|); }
    MergedCount(r0, 2 * g + 1, |r0|);
  }

  lemma NothingClosed(r0: seq<Range>)
    requires Usable(r0)
    ensures ClosedUpTo(r0, -1, r0)
  {
    if r0 != [] { AllWide(r0, |r0|); }
  }

  /**
   `coarsen_ranges`: ends, because every pass closes the narrowest gap; leaves at most `limit`
   ranges, in order, asking for no less than before, and for no more than it must to within a
   factor of two: what is closed is exactly the gaps up to `2 g + 1`, for a `g` such that closing
   the gaps below `g` would not have been enough. Twice the gap plus one stays in 64 bits.
   */
  method Coarsen(r0: seq<Range>, limit: nat) returns (r: seq<Range>, ghost g: nat)
    requires Usable(r0) && limit >= 1 && (r0 != [] ==> r0[|r0| - 1].End() <= MAX_OFF)
    ensures Covers(r0, r) && |r| <= limit
    ensures if |r0| <= limit then r == r0 else Narrowed(r0, limit, g, r)
  {
    hide Usable, Narrowed, ClosedUpTo, Merged;
    r, g := r0, 0;
    ghost var m: int := -1;
    NothingClosed(r0);
    while |r| > limit
      invariant Covers(r0, r) && ClosedUpTo(r0, m, r)
      invariant if m == -1 then r == r0 else |r0| > limit && Narrowed(r0, limit, g, r)
      decreases |r|
    {
      var minGap := MinGap(r);
      var mergeBelow := minGap * 2 + 1;
      assert mergeBelow < TWO64;
      MergedCovers(r0, r, mergeBelow);
      PassCloses(r0, m, r, limit, minGap);
      r := MergeClose(r, mergeBelow);
      m, g := mergeBelow, minGap;
    }
  }

  // ----- Over the wire -----

  function PartCount(want: seq<Range>): nat { Max(1, (|want| + RANGES_PER_PART - 1) / RANGES_PER_PART) }

  function Part(want: seq<Range>, p: nat): seq<Range> {
    want[Min(p * RANGES_PER_PART, |want|)..Min((p + 1) * RANGES_PER_PART, |want|)]
  }

  datatype Answer = Answer(part: nat, parts: nat, ranges: seq<Range>)

  /** `encode_resume_answer`: at least one part, each at most 64 ranges. */
  method SplitAnswer(want: seq<Range>) returns (msgs: seq<Answer>)
    ensures |msgs| == PartCount(want)
    ensures forall p | 0 <= p < |msgs| :: msgs[p] == Answer(p, PartCount(want), Part(want, p)) && |msgs[p].ranges| <= RANGES_PER_PART
  {
    var parts := Max(1, (|want| + RANGES_PER_PART - 1) / RANGES_PER_PART);
    msgs := [];
    for part := 0 to parts
      invariant |msgs| == part
      invariant forall p | 0 <= p < part :: msgs[p] == Answer(p, PartCount(want), Part(want, p)) && |msgs[p].ranges| <= RANGES_PER_PART
    {
      var first := part * RANGES_PER_PART;
      var count := Min(RANGES_PER_PART, |want| - Min(first, |want|));
      msgs := msgs + [Answer(part, parts, if count == 0 then [] else want[first..first + count])];
    }
  }

  /** The sender's side: what has arrived, part by part. */
  datatype Gathered = Gathered(parts: nat, have: map<nat, seq<Range>>)
  {
    /** `parts == 0` until the first part tells how many there are. */
    function Arrive(a: Answer): Gathered {
      var n := if parts == 0 then a.parts else parts;
      if a.parts == n && a.part !in have then Gathered(n, have[a.part := a.ranges]) else Gathered(n, have)
    }

    predicate Complete() { parts != 0 && forall p: nat | p < parts :: p in have }
  }

  const NOTHING := Gathered(0, map[])

  function ArriveAll(g: Gathered, arrivals: seq<Answer>): Gathered {
    if arrivals == [] then g else ArriveAll(g, arrivals[..|arrivals| - 1]).Arrive(arrivals[|arrivals| - 1])
  }

  function Flat(g: Gathered, n: nat): seq<Range>
    requires forall p: nat | p < n :: p in g.have
  {
    if n == 0 then [] else Flat(g, n - 1) + g.have[n - 1]
  }

  lemma {:induction false} PartsFlat(want: seq<Range>, g: Gathered, n: nat)
    requires forall p: nat | p < n :: p in g.have && g.have[p] == Part(want, p)
    ensures Flat(g, n) == want[..Min(n * RANGES_PER_PART, |want|)]
  {
    if n > 0 {
      PartsFlat(want, g, n - 1);
      SliceJoin(want, Min((n - 1) * RANGES_PER_PART, |want|), Min(n * RANGES_PER_PART, |want|));
      assert g.have[n - 1] == Part(want, n - 1);
    }
  }

  lemma SliceJoin<T>(s: seq<T>, a: nat, b: nat)
    requires a <= b <= |s|
    ensures s[..a] + s[a..b] == s[..b]
  {}

  lemma {:induction false} ArrivedAreParts(want: seq<Range>, arrivals: seq<Answer>)
    requires forall a <- arrivals :: a.part < PartCount(want) && a == Answer(a.part, PartCount(want), Part(want, a.part))
    ensures var g := ArriveAll(NOTHING, arrivals);
            && (g.parts == 0 || g.parts == PartCount(want)) && (g.parts == 0 ==> g.have == map[])
            && forall p <- g.have.Keys :: g.have[p] == Part(want, p)
  {
    if arrivals != [] {
      var n := |arrivals| - 1;
      assert forall a <- arrivals[..n] :: a in arrivals;
      ArrivedAreParts(want, arrivals[..n]);
      assert arrivals[n] in arrivals;
    }
  }

  /** However the parts were reordered, repeated or delayed: once all are there, they are the list. */
  lemma ReassembledIsSplit(want: seq<Range>, arrivals: seq<Answer>)
    requires forall a <- arrivals :: a.part < PartCount(want) && a == Answer(a.part, PartCount(want), Part(want, a.part))
    requires ArriveAll(NOTHING, arrivals).Complete()
    ensures ArriveAll(NOTHING, arrivals).parts == PartCount(want)
    ensures Flat(ArriveAll(NOTHING, arrivals), PartCount(want)) == want
  {
    ArrivedAreParts(want, arrivals);
    PartsFlat(want, ArriveAll(NOTHING, arrivals), PartCount(want));
  }

  // ----- What the sender makes of it -----

  function NonEmpty(r: seq<Range>): seq<Range> {
    if r == [] then []
    else NonEmpty(r[..|r| - 1]) + (if r[|r| - 1].length != 0 then [r[|r| - 1]] else [])
  }

  ghost predicate ByOffset(q: seq<Range>) {
    forall i, j | 0 <= i < j < |q| :: q[i].offset <= q[j].offset
  }

  /** `q` is what sorting `r` by offset may give; ranges with equal offsets may come in any order. */
  ghost predicate SortOf(r: seq<Range>, q: seq<Range>) {
    multiset(r) == multiset(q) && ByOffset(q)
  }

  lemma {:induction false} NonEmptyOfUsable(r: seq<Range>)
    requires Usable(r)
    ensures NonEmpty(r) == r
  {
    if r != [] {
      UsableFront(r);
      NonEmptyOfUsable(r[..|r| - 1]);
    }
  }

  lemma {:induction false} NonEmptyHasLength(r: seq<Range>)
    ensures forall x <- NonEmpty(r) :: x.length > 0
  {
    if r != [] { NonEmptyHasLength(r[..|r| - 1]); }
  }

  lemma LastIsHighest(r: seq<Range>, x: Range)
    requires Usable(r) && r != [] && x in r && x.offset >= r[|r| - 1].offset
    ensures x == r[|r| - 1]
  {
    var i :| 0 <= i < |r| && r[i] == x;
    assert r[i] in r;
  }

  lemma SortLast(r: seq<Range>, q: seq<Range>)
    requires Usable(r) && SortOf(r, q) && r != []
    ensures |q| == |r| && q[|q| - 1] == r[|r| - 1]
  {
    assert |r| == |multiset(r)| == |multiset(q)| == |q|;
    var n := |r| - 1;
    assert r[n] in multiset(q) && q[n] in multiset(r);
    var i :| 0 <= i < |q| && q[i] == r[n];
    LastIsHighest(r, q[n]);
  }

  lemma SortFronts(r: seq<Range>, q: seq<Range>)
    requires |r| == |q| > 0 && SortOf(r, q) && q[|q| - 1] == r[|r| - 1]
    ensures SortOf(r[..|r| - 1], q[..|r| - 1])
  {
    FrontMultiset(r);
    FrontMultiset(q);
  }

  lemma FrontMultiset(r: seq<Range>)
    requires r != []
    ensures multiset(r[..|r| - 1]) == multiset(r) - multiset{r[|r| - 1]}
  {
    assert r == r[..|r| - 1] + [r[|r| - 1]];
  }

  /** A list already in order is the only result of sorting it. */
  lemma {:induction false} SortKeepsOrder(r: seq<Range>, q: seq<Range>)
    requires Usable(r) && SortOf(r, q)
    ensures q == r
  {
    if r == [] {
      assert |q| == |multiset(q)| == 0;
    } else {
      SortLast(r, q);
      SortFronts(r, q);
      UsableFront(r);
      hide Usable, SortOf;
      SortKeepsOrder(r[..|r| - 1], q[..|r| - 1]);
      assert r == r[..|r| - 1] + [r[|r| - 1]] && q == q[..|r| - 1] + [q[|r| - 1]];
    }
  }

  /** In order, without overlap, inside the lane. */
  ghost predicate InLane(q: seq<Range>, shard: nat) {
    && (forall i | 0 <= i < |q| :: q[i].offset <= shard && q[i].End() <= shard)
    && (forall i | 1 <= i < |q| :: q[i - 1].End() <= q[i].offset)
  }

  function WholeLane(shard: nat): seq<Range> { if shard > 0 then [Range(0, shard)] else [] }

  function TotalLength(q: seq<Range>): nat {
    if q == [] then 0 else TotalLength(q[..|q| - 1]) + q[|q| - 1].length
  }

  /** The sender's check of a sorted answer: used as it is if it holds together, else the whole lane. */
  method Choose(q: seq<Range>, shard: nat) returns (ranges: seq<Range>, sessionBytes: nat)
    ensures ranges == if InLane(q, shard) then q else WholeLane(shard)
    ensures sessionBytes == TotalLength(ranges)
  {
    var prevEnd, valid := 0, true;
    sessionBytes := 0;
    ranges := q;
    var i := 0;
    while i < |q|
      invariant 0 <= i <= |q| && valid && ranges == q && InLane(q[..i], shard)
      invariant prevEnd == if i == 0 then 0 else q[i - 1].End()
      invariant sessionBytes == TotalLength(q[..i])
    {
      if q[i].offset < prevEnd || q[i].offset > shard || q[i].length > shard - q[i].offset {
        valid := false;
        break;
      }
      assert q[..i + 1][..i] == q[..i];
      prevEnd := q[i].offset + q[i].length;
      sessionBytes := sessionBytes + q[i].length;
      i := i + 1;
    }
    assert valid ==> q[..i] == q;
    if !valid {
      ranges := [];
      if shard > 0 { ranges := ranges + [Range(0, shard)]; }
      sessionBytes := shard;
      assert [Range(0, shard)][..0] == [];
    }
  }

  lemma {:induction false} InLaneAscends(q: seq<Range>, shard: nat, i: nat, j: nat)
    requires InLane(q, shard) && i < j < |q|
    ensures q[i].End() <= q[j].offset
    decreases j
  {
    if i < j - 1 { InLaneAscends(q, shard, i, j - 1); }
  }

  /** Whatever the answer was, the lane it leaves is one the sender can send. */
  lemma AnyAnswerIsSafe(data: seq<byte>, window: nat, answer: seq<Range>, q: seq<Range>)
    requires 1 <= window <= Control.MAX_WINDOW && SortOf(NonEmpty(answer), q)
    ensures Lane(data, if InLane(q, |data|) then q else WholeLane(|data|), window).Ok()
  {
    NonEmptyHasLength(answer);
    forall x <- q ensures x.length > 0 { assert x in multiset(NonEmpty(answer)); }
    hide NonEmpty, SortOf;
    if InLane(q, |data|) { InLaneUsable(q, |data|); }
  }

  lemma InLaneUsable(q: seq<Range>, shard: nat)
    requires InLane(q, shard) && forall x <- q :: x.length > 0
    ensures Usable(q) && forall x <- q :: x.End() <= shard
  {
    forall i, j | 0 <= i < j < |q| ensures q[i].End() <= q[j].offset { InLaneAscends(q, shard, i, j); }
  }

  lemma UsableInLane(r: seq<Range>, shard: nat)
    requires Usable(r) && (r != [] ==> r[|r| - 1].End() <= shard)
    ensures InLane(r, shard)
  {
    forall i | 0 <= i < |r| ensures r[i].End() <= shard {
      assert r[|r| - 1] in r;
    }
  }

  /**
   What the receiver asks for is what the sender sends: split, shuffled, repeated, put together,
   sorted by any sort and checked, the list comes out as it went in and passes the check.
   */
  lemma SenderUsesTheList(want: seq<Range>, shard: nat, arrivals: seq<Answer>, q: seq<Range>)
    requires Usable(want) && (want != [] ==> want[|want| - 1].End() <= shard)
    requires forall a <- arrivals :: a.part < PartCount(want) && a == Answer(a.part, PartCount(want), Part(want, a.part))
    requires ArriveAll(NOTHING, arrivals).Complete()
    requires SortOf(NonEmpty(Flat(ArriveAll(NOTHING, arrivals), ArriveAll(NOTHING, arrivals).parts)), q)
    ensures q == want && InLane(q, shard)
  {
    ReassembledIsSplit(want, arrivals);
    NonEmptyOfUsable(want);
    SortKeepsOrder(want, q);
    UsableInLane(want, shard);
  }

  // ----- The receiver's side as a whole -----

  /** Offsets counted from the start of the lane instead of the start of the file. */
  function Relative(r: seq<Range>, base: nat): (out: seq<Range>)
    requires forall x <- r :: base <= x.offset
    ensures |out| == |r|
    ensures forall i | 0 <= i < |r| :: r[i].offset >= base && out[i] == Range(r[i].offset - base, r[i].length)
  {
    if r == [] then [] else [assert r[0] in r; Range(r[0].offset - base, r[0].length)] + Relative(r[1..], base)
  }

  lemma RelativeAsks(r: seq<Range>, base: nat, o: nat)
    requires forall x <- r :: base <= x.offset
    ensures Asked(Relative(r, base), o) <==> Asked(r, base + o)
  {
    var out := Relative(r, base);
    if Asked(r, base + o) {
      var i :| 0 <= i < |r| && r[i].offset <= base + o < r[i].End();
      assert out[i].offset <= o < out[i].End();
    }
    if Asked(out, o) {
      var i :| 0 <= i < |out| && out[i].offset <= o < out[i].End();
      assert r[i].offset <= base + o < r[i].End();
    }
  }

  lemma RelativeUsable(r: seq<Range>, base: nat, shard: nat)
    requires Apart(r) && forall x <- r :: base <= x.offset && x.End() <= base + shard
    ensures Usable(Relative(r, base)) && forall x <- Relative(r, base) :: x.End() <= shard
  {
    var out := Relative(r, base);
    forall x <- out ensures x.length > 0 && x.End() <= shard {
      var i :| 0 <= i < |out| && out[i] == x;
      assert r[i] in r;
    }
  }

  /**
   What a lane asks for: at most `limit` ranges in order, inside the lane, and every byte of it
   that lies in an incomplete chunk (every byte at all, if nothing is being resumed).
   */
  ghost predicate Wanted(p: Progress, resumed: bool, base: nat, shard: nat, limit: nat, want: seq<Range>) {
    && Usable(want) && |want| <= limit && (want != [] ==> want[|want| - 1].End() <= shard)
    && forall o: nat | o < shard && (resumed ==> p.Needs(base + o)) :: Asked(want, o)
  }

  /** `exact` is in order and asks for just the bytes of the lane in incomplete chunks. */
  ghost predicate Exact(p: Progress, resumed: bool, base: nat, shard: nat, exact: seq<Range>) {
    Usable(exact) && forall o: nat :: Asked(exact, o) <==> o < shard && (resumed ==> p.Needs(base + o))
  }

  /** And no more is asked for than that, unless it takes too many ranges to say; then just the narrowest gaps are closed. */
  method Want(p: Progress, resumed: bool, base: nat, shard: nat, limit: nat) returns (want: seq<Range>, ghost exact: seq<Range>, ghost g: nat)
    requires p.Ok() && base + shard <= p.total <= MAX_OFF && limit >= 1
    ensures Wanted(p, resumed, base, shard, limit, want)
    ensures Exact(p, resumed, base, shard, exact)
    ensures if |exact| <= limit then want == exact else Narrowed(exact, limit, g, want)
  {
    hide Progress.Needs, Asked, Apart, Usable, Covers, Relative, Progress.Ok, Narrowed;
    var out := Missing(p, resumed, base, base + shard);
    RelativeUsable(out, base, shard);
    var r := Relative(out, base);
    LastInside(r, shard);
    want, g := Coarsen(r, limit);
    exact := r;
    forall o: nat ensures Asked(r, o) <==> o < shard && (resumed ==> p.Needs(base + o)) { RelativeAsks(out, base, o); }
    CoversShape(r, want);
    forall o: nat | o < shard && (resumed ==> p.Needs(base + o)) ensures Asked(want, o) {
      RelativeAsks(out, base, o);
      CoversAt(r, want, o);
    }
  }

  lemma LastInside(r: seq<Range>, shard: nat)
    requires forall x <- r :: x.End() <= shard
    ensures r != [] ==> r[|r| - 1].End() <= shard
  {}

  lemma CoversShape(r: seq<Range>, out: seq<Range>)
    requires Covers(r, out)
    ensures Usable(out) && (r == [] <==> out == []) && (r != [] ==> out[|out| - 1].End() == r[|r| - 1].End())
  {}

  lemma CoversAt(r: seq<Range>, out: seq<Range>, o: nat)
    requires Covers(r, out) && Asked(r, o)
    ensures Asked(out, o)
  {}

  /** Both ends count the same number of session bytes: the number of byte positions asked for. */
  lemma {:induction false} SessionBytes(r: seq<Range>)
    ensures TotalLength(r) == |RangeBytes(r)|
  {
    if r != [] {
      SessionBytes(r[1..]);
      TotalFromFront(r);
    }
  }

  lemma {:induction false} TotalFromFront(r: seq<Range>)
    requires r != []
    ensures TotalLength(r) == r[0].length + TotalLength(r[1..])
  {
    if |r| == 1 {
      assert r[..0] == [] && r[1..] == [];
    } else {
      TotalFromFront(r[..|r| - 1]);
      assert r[1..][..|r| - 2] == r[..|r| - 1][1..];
    }
  }

  lemma AskedIsSent(r: seq<Range>, o: nat)
    ensures Asked(r, o) <==> o in RangeBytes(r)
  {
    RangeBytesMember(r, o);
  }
}
