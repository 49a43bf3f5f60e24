/**
 How a sender lane cuts the requested byte ranges into blocks (the packing loop of
 `send_lane`, transfer.cpp): the block size may change at any time, and still the
 blocks partition the requested bytes, in order, with one last block at the end.
 */
module Tiling {
  import Basics

  datatype Range = Range(offset: nat, length: nat)
  {
    function End(): nat { offset + length }
  }

  /** One block of the lane: where it lies and whether it carries the LastBlock flag. */
  datatype Tile = Tile(offset: nat, length: nat, last: bool)
  {
    ghost predicate Covers(o: nat) { offset <= o < offset + length }
  }

  /** `ri` and `next_offset` of the sender. */
  datatype Cursor = Cursor(ri: nat, off: nat)

  /** Ranges as the sender uses them: none empty, ascending, no overlap. */
  ghost predicate Usable(ranges: seq<Range>) {
    && (forall r <- ranges :: r.length > 0)
    && (forall i, j | 0 <= i < j < |ranges| :: ranges[i].End() <= ranges[j].offset)
  }

  function Offsets(off: nat, n: nat): (r: seq<nat>)
    ensures |r| == n && forall i | 0 <= i < n :: r[i] == off + i
  {
    seq(n, i => off + i)
  }

  /** Every requested byte position, in order. */
  function RangeBytes(ranges: seq<Range>): seq<nat> {
    if ranges == [] then [] else Offsets(ranges[0].offset, ranges[0].length) + RangeBytes(ranges[1..])
  }

  /** Every byte position the blocks carry, in order of emission. */
  function TileBytes(tiles: seq<Tile>): seq<nat> {
    if tiles == [] then []
    else TileBytes(tiles[..|tiles| - 1]) + Offsets(tiles[|tiles| - 1].offset, tiles[|tiles| - 1].length)
  }

  function Start(ranges: seq<Range>): Cursor {
    Cursor(0, if ranges == [] then 0 else ranges[0].offset)
  }

  ghost predicate CursorOk(ranges: seq<Range>, c: Cursor) {
    && c.ri <= |ranges|
    && (c.ri < |ranges| ==> ranges[c.ri].offset <= c.off < ranges[c.ri].End())
  }

  /** The byte positions still to be sent. */
  ghost function Remaining(ranges: seq<Range>, c: Cursor): seq<nat>
    requires CursorOk(ranges, c)
  {
    if c.ri == |ranges| then []
    else Offsets(c.off, ranges[c.ri].End() - c.off) + RangeBytes(ranges[c.ri + 1..])
  }

  /** The next block, of at most `size` bytes; an empty lane sends one empty last block. */
  function Cut(ranges: seq<Range>, c: Cursor, size: nat): Tile
    requires CursorOk(ranges, c)
  {
    if c.ri == |ranges| then Tile(c.off, 0, true)
    else
      var left := ranges[c.ri].End() - c.off;
      var length := if size < left then size else left;
      Tile(c.off, length, c.ri + 1 >= |ranges| && length >= left)
  }

  /** Where the sender stands after a block: at the next range once this one is used up. */
  function Advance(ranges: seq<Range>, c: Cursor, t: Tile): Cursor {
    if c.ri >= |ranges| || c.off + t.length < ranges[c.ri].End() then Cursor(c.ri, c.off + t.length)
    else Cursor(c.ri + 1, if c.ri + 1 < |ranges| then ranges[c.ri + 1].offset else c.off + t.length)
  }

  lemma OffsetsSplit(off: nat, a: nat, b: nat)
    ensures Offsets(off, a) + Offsets(off + a, b) == Offsets(off, a + b)
  {}

  ghost predicate EndsRange(ranges: seq<Range>, t: Tile) { exists r <- ranges :: t.offset + t.length == r.End() }

  /**
   One cut: its bytes come off the front of what remains, it is as long as allowed or ends its
   range, and it is last exactly if nothing then remains.
   */
  lemma CutTakesFront(ranges: seq<Range>, c: Cursor, size: nat)
    requires Usable(ranges) && CursorOk(ranges, c) && size > 0
    ensures var t := Cut(ranges, c, size);
            var d := Advance(ranges, c, t);
            && CursorOk(ranges, d)
            && t.length <= size && (c.ri < |ranges| ==> 0 < t.length)
            && (t.length == size || EndsRange(ranges, t) || c.ri == |ranges|)
            && Offsets(t.offset, t.length) + Remaining(ranges, d) == Remaining(ranges, c)
            && (t.last <==> d.ri == |ranges|)
  {
    if c.ri < |ranges| {
      var t := Cut(ranges, c, size);
      var d := Advance(ranges, c, t);
      var left := ranges[c.ri].End() - c.off;
      OffsetsSplit(c.off, t.length, left - t.length);
      if d.ri > c.ri {
        assert ranges[c.ri] in ranges;
        if d.ri < |ranges| {
          assert ranges[d.ri] in ranges;
          assert ranges[d.ri..][0] == ranges[d.ri] && ranges[d.ri..][1..] == ranges[d.ri + 1..];
        }
      }
    }
  }

  lemma StartRemaining(ranges: seq<Range>)
    requires Usable(ranges)
    ensures CursorOk(ranges, Start(ranges)) && Remaining(ranges, Start(ranges)) == RangeBytes(ranges)
  {
    hide RangeBytes;
    if ranges != [] {
      assert ranges[0] in ranges;
      assert ranges[0 + 1..] == ranges[1..];
    }
    RangeBytesUnfold(ranges);
  }

  lemma RangeBytesUnfold(ranges: seq<Range>)
    ensures RangeBytes(ranges)
            == if ranges == [] then [] else Offsets(ranges[0].offset, ranges[0].length) + RangeBytes(ranges[1..])
  {}

  lemma TileBytesAppend(tiles: seq<Tile>, t: Tile)
    ensures TileBytes(tiles + [t]) == TileBytes(tiles) + Offsets(t.offset, t.length)
  {
    assert (tiles + [t])[..|tiles|] == tiles;
  }

  // ----- Properties of the whole list -----

  ghost predicate Increasing(s: seq<nat>) {
    forall i, j | 0 <= i < j < |s| :: s[i] < s[j]
  }

  lemma {:induction false} RangeBytesIncreasing(ranges: seq<Range>)
    requires Usable(ranges)
    ensures Increasing(RangeBytes(ranges))
    ensures forall o <- RangeBytes(ranges) :: ranges != [] && ranges[0].offset <= o
  {
    if ranges != [] {
      assert ranges[0] in ranges;
      var rest := ranges[1..];
      assert forall r <- rest :: r in ranges;
      RangeBytesIncreasing(rest);
      var tail := RangeBytes(rest);
      assert forall k | 0 <= k < |tail| :: tail[k] in tail;
      if rest != [] { assert ranges[0].End() <= ranges[1].offset; }
    }
  }

  /** A byte position lies in the ranges exactly if one of them covers it. */
  lemma {:induction false} RangeBytesMember(ranges: seq<Range>, o: nat)
    ensures o in RangeBytes(ranges) <==> exists i :: 0 <= i < |ranges| && ranges[i].offset <= o < ranges[i].End()
  {
    if ranges != [] {
      var rest := ranges[1..];
      RangeBytesMember(rest, o);
      var head := Offsets(ranges[0].offset, ranges[0].length);
      assert o in RangeBytes(ranges) <==> o in head || o in RangeBytes(rest);
      assert o in head <==> ranges[0].offset <= o < ranges[0].End() by {
        if ranges[0].offset <= o < ranges[0].End() { assert head[o - ranges[0].offset] == o; }
      }
      assert forall i | 0 <= i < |rest| :: rest[i] == ranges[i + 1];
      if i :| 0 <= i < |ranges| && ranges[i].offset <= o < ranges[i].End() {
        if i > 0 { assert rest[i - 1] == ranges[i]; }
      }
    }
  }

  lemma OffsetsMember(off: nat, n: nat, o: nat)
    ensures o in Offsets(off, n) <==> off <= o < off + n
  {
    if off <= o < off + n { assert Offsets(off, n)[o - off] == o; }
  }

  lemma {:induction false} TileBytesMember(tiles: seq<Tile>, o: nat)
    ensures o in TileBytes(tiles) <==> exists s :: 0 <= s < |tiles| && tiles[s].Covers(o)
  {
    if tiles != [] {
      var n := |tiles| - 1;
      TileBytesMember(tiles[..n], o);
      var end := Offsets(tiles[n].offset, tiles[n].length);
      assert o in end <==> tiles[n].Covers(o) by {
        if tiles[n].Covers(o) { assert end[o - tiles[n].offset] == o; }
      }
      if s :| 0 <= s < |tiles| && tiles[s].Covers(o) {
        if s < n { assert tiles[..n][s].Covers(o); }
      }
      if s :| 0 <= s < n && tiles[..n][s].Covers(o) { assert tiles[s].Covers(o); }
    }
  }

  /** Blocks whose bytes come in increasing order share none. */
  lemma {:induction false} TilesDisjoint(tiles: seq<Tile>, s: nat, t: nat, o: nat)
    requires Increasing(TileBytes(tiles)) && s < t < |tiles| && tiles[s].Covers(o)
    ensures !tiles[t].Covers(o)
  {
    var n := |tiles| - 1;
    var front := TileBytes(tiles[..n]);
    assert TileBytes(tiles)[..|front|] == front;
    if t < n {
      assert forall i, j | 0 <= i < j < |front| :: TileBytes(tiles)[i] < TileBytes(tiles)[j];
      TilesDisjoint(tiles[..n], s, t, o);
    } else {
      assert tiles[..n][s].Covers(o);
      TileBytesMember(tiles[..n], o);
      var i :| 0 <= i < |front| && front[i] == o;
      var last := Offsets(tiles[n].offset, tiles[n].length);
      assert TileBytes(tiles) == front + last;
      OffsetsMember(tiles[n].offset, tiles[n].length, o);
      assert forall k | 0 <= k < |last| :: TileBytes(tiles)[i] < TileBytes(tiles)[|front| + k] == last[k];
    }
  }

  // ----- Whole sessions -----

  ghost predicate AllPositive(sizes: seq<nat>) {
    forall i | 0 <= i < |sizes| :: sizes[i] > 0
  }

  /**
   The blocks emitted for a list of size limits, one per block: the size may change
   before every block, which includes every way of changing it between batches.
   */
  function Emit(ranges: seq<Range>, c: Cursor, sizes: seq<nat>): seq<Tile>
    requires Usable(ranges) && CursorOk(ranges, c) && AllPositive(sizes)
    decreases |sizes|
  {
    if sizes == [] || c.ri == |ranges| then []
    else
      var t := Cut(ranges, c, sizes[0]);
      CutTakesFront(ranges, c, sizes[0]);
      [t] + Emit(ranges, Advance(ranges, c, t), sizes[1..])
  }

  lemma {:induction false} TileBytesCons(t: Tile, tiles: seq<Tile>)
    ensures TileBytes([t] + tiles) == Offsets(t.offset, t.length) + TileBytes(tiles)
  {
    if tiles == [] {
      assert [t] + tiles == [t] && [t][..0] == [];
    } else {
      var n := |tiles| - 1;
      TileBytesCons(t, tiles[..n]);
      TileBytesAppend(tiles[..n], tiles[n]);
      TileBytesAppend([t] + tiles[..n], tiles[n]);
      hide TileBytes, Offsets;
      assert tiles == tiles[..n] + [tiles[n]];
      assert [t] + tiles == [t] + tiles[..n] + [tiles[n]];
      Basics.SeqAssoc(Offsets(t.offset, t.length), TileBytes(tiles[..n]), Offsets(tiles[n].offset, tiles[n].length));
    }
  }

  ghost predicate Partitions(tiles: seq<Tile>, sizes: seq<nat>, remaining: seq<nat>) {
    var done := TileBytes(tiles) == remaining;
    && |tiles| <= |sizes|
    && (forall i | 0 <= i < |tiles| :: 0 < tiles[i].length <= sizes[i])
    && TileBytes(tiles) <= remaining
    && (forall i | 0 <= i < |tiles| :: tiles[i].last <==> done && i == |tiles| - 1)
    && (|tiles| < |sizes| ==> done)
  }

  lemma PartitionsCons(t: Tile, z: nat, tiles: seq<Tile>, sizes: seq<nat>, remaining: seq<nat>)
    requires Partitions(tiles, sizes, remaining) && 0 < t.length <= z
    requires t.last <==> tiles == [] && remaining == []
    ensures Partitions([t] + tiles, [z] + sizes, Offsets(t.offset, t.length) + remaining)
  {
    TileBytesCons(t, tiles);
    PrefixCons(Offsets(t.offset, t.length), TileBytes(tiles), remaining);
  }

  /**
   Whatever the sizes: the blocks carry the requested bytes from the front, each once and in
   order, none empty and none longer than its limit; only the final block is last, and it is
   so exactly when every requested byte has been carried.
   */
  lemma {:induction false} BlocksPartitionRanges(ranges: seq<Range>, c: Cursor, sizes: seq<nat>)
    requires Usable(ranges) && CursorOk(ranges, c) && AllPositive(sizes)
    ensures Partitions(Emit(ranges, c, sizes), sizes, Remaining(ranges, c))
    decreases |sizes|
  {
    if sizes != [] && c.ri < |ranges| {
      var t := Cut(ranges, c, sizes[0]);
      CutTakesFront(ranges, c, sizes[0]);
      var d := Advance(ranges, c, t);
      assert d.ri < |ranges| ==> |Remaining(ranges, d)| > 0;
      assert [sizes[0]] + sizes[1..] == sizes;
      EmitUnfold(ranges, c, sizes);
      hide Cut, Advance, Remaining, TileBytes, Usable, Emit, CursorOk;
      BlocksPartitionRanges(ranges, d, sizes[1..]);
      LastIffDone(Emit(ranges, d, sizes[1..]), sizes[1..], Remaining(ranges, d), t.last);
      hide Partitions;
      PartitionsCons(t, sizes[0], Emit(ranges, d, sizes[1..]), sizes[1..], Remaining(ranges, d));
    } else {
      NothingEmitted(ranges, c, sizes);
    }
  }

  lemma EmitUnfold(ranges: seq<Range>, c: Cursor, sizes: seq<nat>)
    requires Usable(ranges) && CursorOk(ranges, c) && AllPositive(sizes) && sizes != [] && c.ri < |ranges|
    ensures var t := Cut(ranges, c, sizes[0]); var d := Advance(ranges, c, t);
            CursorOk(ranges, d) && Emit(ranges, c, sizes) == [t] + Emit(ranges, d, sizes[1..])
  {
    CutTakesFront(ranges, c, sizes[0]);
    hide Cut, Advance, Usable;
  }

  /** No block is cut shorter than the size of the moment, except at the end of a range. */
  lemma {:induction false} BlocksAreFull(ranges: seq<Range>, c: Cursor, sizes: seq<nat>, i: nat)
    requires Usable(ranges) && CursorOk(ranges, c) && AllPositive(sizes) && i < |Emit(ranges, c, sizes)|
    ensures i < |sizes| && (Emit(ranges, c, sizes)[i].length == sizes[i] || EndsRange(ranges, Emit(ranges, c, sizes)[i]))
    decreases |sizes|
  {
    CutTakesFront(ranges, c, sizes[0]);
    EmitUnfold(ranges, c, sizes);
    hide Cut, Advance, Usable, EndsRange, Remaining;
    if i > 0 { BlocksAreFull(ranges, Advance(ranges, c, Cut(ranges, c, sizes[0])), sizes[1..], i - 1); }
  }

  lemma NothingEmitted(ranges: seq<Range>, c: Cursor, sizes: seq<nat>)
    requires Usable(ranges) && CursorOk(ranges, c) && AllPositive(sizes) && (sizes == [] || c.ri == |ranges|)
    ensures Partitions(Emit(ranges, c, sizes), sizes, Remaining(ranges, c))
  {}

  lemma LastIffDone(tiles: seq<Tile>, sizes: seq<nat>, remaining: seq<nat>, last: bool)
    requires Partitions(tiles, sizes, remaining) && (last <==> remaining == [])
    ensures last <==> tiles == [] && remaining == []
  {
    if tiles != [] {
      assert tiles[|tiles| - 1].length > 0;
      assert |TileBytes(tiles)| > 0;
    }
  }

  lemma PrefixCons(front: seq<nat>, a: seq<nat>, b: seq<nat>)
    requires a <= b
    ensures front + a <= front + b && (front + a == front + b <==> a == b)
  {
    if front + a == front + b { assert a == (front + a)[|front|..] == (front + b)[|front|..] == b; }
  }
}
