/**
 Crash-consistent resume (`FileSink`, transfer.cpp): writers, a checkpoint that runs beside
 them, and a crash at any moment that loses any subset of the bytes not yet synced, one by
 one. A crash image that a later session adopts marks only chunks whose bytes are the
 source's, through any number of crashed sessions.
 */
module CrashResume {
  import opened Word64
  import opened Basics
  import opened ReceiverWindow
  import opened Wire
  import opened Resume
  import opened Trailer
  import Modular

  /** The file as programs see it, and for each byte every value a crash now might leave there. */
  datatype Disk = Disk(cur: seq<byte>, maybe: seq<set<byte>>)

  function Lay(d: Disk, off: nat, b: seq<byte>): (r: Disk)
    requires |d.cur| == |d.maybe| && off + |b| <= |d.cur|
    ensures |r.cur| == |r.maybe| == |d.cur|
    ensures forall o | 0 <= o < |d.cur| ::
              && r.cur[o] == (if off <= o < off + |b| then b[o - off] else d.cur[o])
              && r.maybe[o] == (if off <= o < off + |b| then d.maybe[o] + {b[o - off]} else d.maybe[o])
  {
    Disk(Splice(d.cur, off, b),
         seq(|d.maybe|, o requires 0 <= o < |d.maybe| => if off <= o < off + |b| then d.maybe[o] + {b[o - off]} else d.maybe[o]))
  }

  function Synced(s: seq<byte>): (r: Disk)
    ensures r.cur == s && |r.maybe| == |s| && forall o | 0 <= o < |s| :: r.maybe[o] == {s[o]}
  {
    Disk(s, seq(|s|, o requires 0 <= o < |s| => {s[o]}))
  }

  /** `f` is what a crash may leave: any length up to the present one, each byte a value it may have. */
  ghost predicate Leaves(d: Disk, f: seq<byte>) {
    |f| <= |d.maybe| && forall o | 0 <= o < |f| :: f[o] in d.maybe[o]
  }

  /** Where the checkpoint stands: between two, taking its snapshot, data synced, trailer written. */
  datatype Check = Resting | Snapping(bits: seq<bool>) | Claiming(bits: seq<bool>) | Claimed

  /** `owed` bytes are written but not counted yet; `kept` chunks came complete from an earlier session. */
  datatype State = State(disk: Disk, counters: seq<nat>, owed: set<nat>, counted: set<nat>, kept: set<nat>, check: Check)

  datatype Step =
    | Scribble(off: nat, len: nat)      // a write that fails part way: source bytes, never counted
    | Block(off: nat, len: nat)         // a block written in full
    | Count(lo: nat, hi: nat)           // the counter of one chunk, for a piece of a written block
    | Begin                             // checkpoint: start one
    | Look                              // checkpoint: read the next counter
    | SyncData                          // checkpoint: first fdatasync
    | PutTrailer(marks: seq<byte>, k: nat)  // checkpoint: the trailer, or only its first k bytes
    | SyncTrailer                       // checkpoint: second fdatasync
    | GiveUp                            // checkpoint: a call failed

  function ChunkNo(chunk: nat, o: nat): nat
    requires chunk >= 1
  {
    o / chunk
  }

  /** The bytes of chunk `i`. */
  ghost function ChunkSet(file: File, i: nat): set<nat>
    requires file.chunk >= 1
  {
    set o: nat | 0 <= o < file.Total() && ChunkNo(file.chunk, o) == i
  }

  ghost predicate Enabled(file: File, s: State, step: Step)
    requires file.Ok()
  {
    match step
    case Scribble(off, len) => off + len <= file.Total()
    case Block(off, len) => off + len <= file.Total() && Span(off, off + len) !! (s.owed + s.counted)
    case Count(lo, hi) => Piece(file, s, lo, hi)
    case Begin => s.check.Resting?
    case Look => s.check.Snapping? && |s.check.bits| < |s.counters|
    case SyncData => s.check.Snapping? && |s.check.bits| == |s.counters|
    case PutTrailer(marks, k) =>
      s.check.Claiming? && |marks| == file.MapLen() && MapsTo(marks, s.check.bits) && k <= |marks| + FOOTER_LEN
    case SyncTrailer => s.check.Claimed?
    case GiveUp => true
  }

  ghost predicate Shaped(file: File, s: State)
    requires file.Ok()
  {
    && |s.disk.cur| == |s.disk.maybe| == file.Full() && |s.counters| == file.Chunks()
    && forall o | 0 <= o < |s.disk.cur| :: s.disk.cur[o] in s.disk.maybe[o]
  }

  function Counted(file: File, s: State, lo: nat, hi: nat): State
    requires file.chunk >= 1 && lo <= hi && ChunkNo(file.chunk, lo) < |s.counters|
  {
    var c := ChunkNo(file.chunk, lo);
    s.(counters := s.counters[c := s.counters[c] + (hi - lo)],
       owed := s.owed - Span(lo, hi), counted := s.counted + Span(lo, hi))
  }

  function IsFull(file: File, counters: seq<nat>, i: nat): bool
    requires file.chunk >= 1 && i < |counters| == file.Chunks()
  {
    ChunkStarts(i, file.chunk, file.Total());
    counters[i] >= ChunkLen(i, file.chunk, file.Total())
  }

  ghost function Next(file: File, hash: Hash, s: State, step: Step): State
    requires file.Ok() && Shaped(file, s) && Enabled(file, s, step)
  {
    match step
    case Scribble(off, len) => s.(disk := Lay(s.disk, off, file.data[off..off + len]))
    case Block(off, len) => s.(disk := Lay(s.disk, off, file.data[off..off + len]), owed := s.owed + Span(off, off + len))
    case Count(lo, hi) => Counted(file, s, lo, hi)
    case Begin => s.(check := Snapping([]))
    case Look => s.(check := Snapping(s.check.bits + [IsFull(file, s.counters, |s.check.bits|)]))
    case SyncData => s.(disk := Synced(s.disk.cur), check := Claiming(s.check.bits))
    case PutTrailer(marks, k) =>
      s.(disk := Lay(s.disk, file.Total(), TrailerBytes(file, marks, hash)[..k]),
         check := if k == |marks| + FOOTER_LEN then Claimed else Resting)
    case SyncTrailer => s.(disk := Synced(s.disk.cur), check := Resting)
    case GiveUp => s.(check := Resting)
  }

  ghost predicate OwedInside(file: File, s: State) {
    && s.owed !! s.counted
    && (forall o <- s.owed + s.counted :: o < file.Total())
  }

  lemma CountedChunk(file: File, s: State, lo: nat, hi: nat)
    requires file.Ok() && OwedInside(file, s) && lo < hi && Span(lo, hi) <= s.owed
    ensures ChunkNo(file.chunk, lo) < file.Chunks()
  {
    assert lo in Span(lo, hi) && lo in s.owed + s.counted;
    ChunkOf(lo, file.chunk, file.Total());
  }

  // ----- What every step keeps -----

  ghost predicate Right(file: File, d: Disk, i: nat)
    requires file.Ok() && |d.cur| == file.Full()
  {
    forall o <- ChunkSet(file, i) :: d.cur[o] == file.data[o]
  }

  /** No crash can take chunk `i` away any more. */
  ghost predicate Durable(file: File, d: Disk, i: nat)
    requires file.Ok() && |d.cur| == |d.maybe| == file.Full()
  {
    forall o <- ChunkSet(file, i) :: d.cur[o] == file.data[o] && d.maybe[o] == {file.data[o]}
  }

  /** Each counter counts bytes of its chunk that are there, each once; kept chunks start out full. */
  ghost predicate Ledger(file: File, s: State)
    requires file.Ok() && Shaped(file, s)
  {
    && OwedInside(file, s)
    && (forall o <- s.owed + s.counted :: o < file.Total() ==> s.disk.cur[o] == file.data[o])
    && (forall c | 0 <= c < file.Chunks() :: Tallied(file, s.counters, s.kept, s.counted, c))
  }

  /** How many bytes of chunk `c` have been counted. */
  ghost function Tally(file: File, counted: set<nat>, c: nat): nat
    requires file.chunk >= 1
  {
    |counted * ChunkSet(file, c)|
  }

  ghost function Kept(file: File, kept: set<nat>, c: nat): nat
    requires file.chunk >= 1
  {
    if c in kept then |ChunkSet(file, c)| else 0
  }

  ghost predicate KeptOk(file: File, s: State)
    requires file.Ok() && Shaped(file, s)
  {
    forall i <- s.kept :: i < file.Chunks() && Durable(file, s.disk, i)
  }

  /** Any mark a crash might leave in the bitmap is of a chunk no crash can take away. */
  ghost predicate MarksOk(file: File, d: Disk)
    requires file.Ok() && |d.cur| == |d.maybe| == file.Full()
  {
    forall i: nat | i < file.Chunks() && MayMark(file, d, i) :: Durable(file, d, i)
  }

  /** A crash might leave chunk `i` marked. */
  ghost predicate MayMark(file: File, d: Disk, i: nat)
    requires file.Ok() && i < file.Chunks() && |d.maybe| == file.Full()
  {
    MapByteInside(file, i);
    exists v <- d.maybe[file.Total() + i / 8] :: Bit(v, i % 8)
  }

  ghost predicate CheckOk(file: File, s: State)
    requires file.Ok() && Shaped(file, s)
  {
    match s.check
    case Snapping(bits) => |bits| <= file.Chunks() && forall i | 0 <= i < |bits| :: bits[i] ==> Right(file, s.disk, i)
    case Claiming(bits) => |bits| == file.Chunks() && forall i | 0 <= i < |bits| :: bits[i] ==> Durable(file, s.disk, i)
    case _ => true
  }

  ghost predicate Inv(file: File, s: State) {
    file.Ok() && Shaped(file, s) && Ledger(file, s) && KeptOk(file, s) && MarksOk(file, s.disk) && CheckOk(file, s)
  }

  // ----- Writing -----

  /** Source bytes laid over source bytes: what was right stays right, what was safe stays safe. */
  lemma LayKeeps(file: File, d: Disk, off: nat, len: nat, i: nat)
    requires file.Ok() && |d.cur| == |d.maybe| == file.Full() && off + len <= file.Total()
    ensures var after := Lay(d, off, file.data[off..off + len]);
            (Right(file, d, i) ==> Right(file, after, i)) && (Durable(file, d, i) ==> Durable(file, after, i))
  {}

  lemma LayKeepsMarks(file: File, d: Disk, off: nat, len: nat)
    requires file.Ok() && |d.cur| == |d.maybe| == file.Full() && off + len <= file.Total() && MarksOk(file, d)
    ensures MarksOk(file, Lay(d, off, file.data[off..off + len]))
  {
    var after := Lay(d, off, file.data[off..off + len]);
    forall i: nat | i < file.Chunks() ensures MayMark(file, after, i) == MayMark(file, d, i) { MapByteInside(file, i); }
    hide Durable, MayMark, Lay, File.Chunks;
    forall i: nat | i < file.Chunks() && MayMark(file, after, i) ensures Durable(file, after, i) {
      LayKeeps(file, d, off, len, i);
    }
  }

  lemma MapByteInside(file: File, i: nat)
    requires file.Ok() && i < file.Chunks()
    ensures i / 8 < file.MapLen()
  {}

  lemma LayKeepsCheck(file: File, s: State, off: nat, len: nat)
    requires file.Ok() && Shaped(file, s) && off + len <= file.Total() && CheckOk(file, s) && KeptOk(file, s)
    ensures var after := s.(disk := Lay(s.disk, off, file.data[off..off + len]));
            Shaped(file, after) && CheckOk(file, after) && KeptOk(file, after)
  {
    var after := s.(disk := Lay(s.disk, off, file.data[off..off + len]));
    assert Shaped(file, after);
    hide Durable, Right, Shaped, Lay;
    forall i: nat ensures (Right(file, s.disk, i) ==> Right(file, after.disk, i)) && (Durable(file, s.disk, i) ==> Durable(file, after.disk, i)) {
      LayKeeps(file, s.disk, off, len, i);
    }
  }

  lemma LayKeepsLedger(file: File, s: State, off: nat, len: nat)
    requires file.Ok() && Shaped(file, s) && Ledger(file, s) && off + len <= file.Total()
    ensures var after := s.(disk := Lay(s.disk, off, file.data[off..off + len]));
            Shaped(file, after) && Ledger(file, after)
  {
    hide Tallied, ChunkCount, Span;
  }

  lemma ScribbleStep(file: File, hash: Hash, s: State, off: nat, len: nat)
    requires Inv(file, s) && Enabled(file, s, Scribble(off, len))
    ensures Inv(file, Next(file, hash, s, Scribble(off, len)))
  {
    assert off + len <= file.Total() <= file.Full() == |s.disk.cur| == |s.disk.maybe|;
    hide MarksOk, CheckOk, KeptOk, Ledger, Lay, File.Chunks, File.Full, Shaped;
    LayKeepsMarks(file, s.disk, off, len);
    LayKeepsCheck(file, s, off, len);
    LayKeepsLedger(file, s, off, len);
  }

  lemma BlockStep(file: File, hash: Hash, s: State, off: nat, len: nat)
    requires Inv(file, s) && Enabled(file, s, Block(off, len))
    ensures Inv(file, Next(file, hash, s, Block(off, len)))
  {
    ScribbleStep(file, hash, s, off, len);
    var mid := Next(file, hash, s, Scribble(off, len));
    var after := Next(file, hash, s, Block(off, len));
    assert after == mid.(owed := after.owed);
    OwedKeeps(file, mid, after);
    hide ChunkSet, MarksOk;
  }

  /** Only `owed` differs. */
  lemma OwedKeeps(file: File, a: State, b: State)
    requires Inv(file, a) && b == a.(owed := b.owed) && OwedInside(file, b)
    requires forall o <- b.owed :: o < file.Total() ==> a.disk.cur[o] == file.data[o]
    ensures Inv(file, b)
  {
    hide MarksOk, ChunkSet, Durable, Right;
  }

  // ----- Counting -----

  lemma PieceInChunk(file: File, lo: nat, hi: nat, o: nat)
    requires file.Ok() && lo < hi && ChunkNo(file.chunk, lo) == ChunkNo(file.chunk, hi - 1) && lo <= o < hi
    ensures ChunkNo(file.chunk, o) == ChunkNo(file.chunk, lo)
  {
    Modular.DivMono(lo, o, file.chunk);
    Modular.DivMono(o, hi - 1, file.chunk);
  }

  /** The piece adds its own length to its chunk's bytes and nothing to any other chunk's. */
  lemma CountAdds(file: File, s: State, lo: nat, hi: nat, c: nat)
    requires file.Ok() && OwedInside(file, s) && lo < hi && Span(lo, hi) <= s.owed
    requires ChunkNo(file.chunk, lo) == ChunkNo(file.chunk, hi - 1)
    ensures var piece := Span(lo, hi);
            Tally(file, s.counted + piece, c) == Tally(file, s.counted, c) + if c == ChunkNo(file.chunk, lo) then hi - lo else 0
  {
    var piece, mine := Span(lo, hi), ChunkSet(file, c);
    forall o <- piece ensures o in mine <==> c == ChunkNo(file.chunk, lo) {
      PieceInChunk(file, lo, hi, o);
      assert o in s.owed + s.counted;
    }
    hide ChunkNo;
    SpanSize(lo, hi);
    if c == ChunkNo(file.chunk, lo) {
      assert (s.counted + piece) * mine == s.counted * mine + piece;
      assert s.counted * mine !! piece;
    } else {
      assert (s.counted + piece) * mine == s.counted * mine;
    }
  }

  /** A piece of a written block, in one chunk, not counted yet. */
  ghost predicate Piece(file: File, s: State, lo: nat, hi: nat)
    requires file.chunk >= 1
  {
    lo < hi && Span(lo, hi) <= s.owed && ChunkNo(file.chunk, lo) == ChunkNo(file.chunk, hi - 1) < |s.counters|
  }

  lemma CountKeepsOwed(file: File, s: State, lo: nat, hi: nat)
    requires file.Ok() && OwedInside(file, s) && Piece(file, s, lo, hi)
    ensures var after := Counted(file, s, lo, hi);
            OwedInside(file, after) && after.owed + after.counted == s.owed + s.counted
  {
    hide ChunkNo, File.Full;
    var after := Counted(file, s, lo, hi);
    assert after.owed + after.counted == s.owed + s.counted;
  }

  /** Counter `c` says how many bytes of its chunk are there. */
  ghost predicate Tallied(file: File, counters: seq<nat>, kept: set<nat>, counted: set<nat>, c: nat)
    requires file.chunk >= 1 && c < |counters|
  {
    counters[c] == Kept(file, kept, c) + Tally(file, counted, c)
  }

  lemma CountKeepsTally(file: File, s: State, lo: nat, hi: nat, c: nat)
    requires file.Ok() && OwedInside(file, s) && Piece(file, s, lo, hi) && c < |s.counters| && Tallied(file, s.counters, s.kept, s.counted, c)
    ensures var after := Counted(file, s, lo, hi); Tallied(file, after.counters, after.kept, after.counted, c)
  {
    hide ChunkNo, Tally, Kept, OwedInside, Span, File.Full;
    CountAdds(file, s, lo, hi, c);
  }

  lemma CountKeepsLedger(file: File, s: State, lo: nat, hi: nat)
    requires file.Ok() && Shaped(file, s) && Ledger(file, s) && Piece(file, s, lo, hi)
    ensures Ledger(file, Counted(file, s, lo, hi))
  {
    CountKeepsOwed(file, s, lo, hi);
    assert |s.counters| == file.Chunks();
    hide ChunkNo, Tallied, File.Chunks, File.Full, OwedInside, Span;
    var after := Counted(file, s, lo, hi);
    forall c | 0 <= c < file.Chunks() ensures Tallied(file, after.counters, after.kept, after.counted, c) { CountKeepsTally(file, s, lo, hi, c); }
  }

  lemma CountStep(file: File, hash: Hash, s: State, lo: nat, hi: nat)
    requires Inv(file, s) && Enabled(file, s, Count(lo, hi))
    ensures Inv(file, Next(file, hash, s, Count(lo, hi)))
  {
    hide MarksOk, Durable, Right, Ledger, Span, ChunkNo, File.Chunks, File.Full;
    CountKeepsLedger(file, s, lo, hi);
  }

  // ----- The checkpoint -----

  /** The bytes of a chunk number `ChunkLen`. */
  lemma ChunkSetSize(file: File, i: nat)
    requires file.Ok() && i < file.Chunks()
    ensures i * file.chunk <= file.Total() && |ChunkSet(file, i)| == ChunkLen(i, file.chunk, file.Total())
  {
    ChunkStarts(i, file.chunk, file.Total());
    var hi := Min((i + 1) * file.chunk, file.Total());
    assert (i + 1) * file.chunk == i * file.chunk + file.chunk;
    forall o: nat ensures o in ChunkSet(file, i) <==> o in Span(i * file.chunk, hi) { InChunk(o, i, file.chunk); }
    assert ChunkSet(file, i) == Span(i * file.chunk, hi);
    SpanSize(i * file.chunk, hi);
  }

  /** A full counter means that every byte of the chunk is there. */
  lemma FullIsRight(file: File, s: State, i: nat)
    requires Inv(file, s) && i < file.Chunks() && IsFull(file, s.counters, i)
    ensures Right(file, s.disk, i)
  {
    ChunkSetSize(file, i);
    assert Tallied(file, s.counters, s.kept, s.counted, i);
    hide MarksOk, CheckOk, ChunkLen, File.Full;
    if i in s.kept {
      assert Durable(file, s.disk, i);
    } else {
      SubsetSize(s.counted * ChunkSet(file, i), ChunkSet(file, i));
      forall o <- ChunkSet(file, i) ensures s.disk.cur[o] == file.data[o] {
        assert o in s.counted * ChunkSet(file, i);
        assert o in s.owed + s.counted;
      }
    }
  }

  lemma LookStep(file: File, hash: Hash, s: State)
    requires Inv(file, s) && Enabled(file, s, Look)
    ensures Inv(file, Next(file, hash, s, Look))
  {
    hide MarksOk, Tallied, Right, Durable;
    var i := |s.check.bits|;
    if IsFull(file, s.counters, i) { FullIsRight(file, s, i); }
  }

  /** After a sync whatever is right is durable. */
  lemma SyncMakesDurable(file: File, d: Disk, i: nat)
    requires file.Ok() && |d.cur| == |d.maybe| == file.Full() && (Right(file, d, i) || Durable(file, d, i))
    ensures Durable(file, Synced(d.cur), i)
  {}

  lemma SyncMarksLess(file: File, d: Disk, i: nat)
    requires file.Ok() && |d.cur| == |d.maybe| == file.Full() && i < file.Chunks()
    requires forall o | 0 <= o < |d.cur| :: d.cur[o] in d.maybe[o]
    ensures MayMark(file, Synced(d.cur), i) ==> MayMark(file, d, i)
  {
    MapByteInside(file, i);
    hide Bit;
  }

  lemma SyncKeepsMarks(file: File, d: Disk)
    requires file.Ok() && |d.cur| == |d.maybe| == file.Full() && MarksOk(file, d)
    requires forall o | 0 <= o < |d.cur| :: d.cur[o] in d.maybe[o]
    ensures MarksOk(file, Synced(d.cur))
  {
    hide Durable, MayMark, File.Chunks;
    forall i: nat | i < file.Chunks() && MayMark(file, Synced(d.cur), i) ensures Durable(file, Synced(d.cur), i) {
      SyncMarksLess(file, d, i);
      SyncMakesDurable(file, d, i);
    }
  }

  lemma SyncStep(file: File, hash: Hash, s: State, step: Step)
    requires Inv(file, s) && Enabled(file, s, step) && (step.SyncData? || step.SyncTrailer?)
    ensures Inv(file, Next(file, hash, s, step))
  {
    var after := Next(file, hash, s, step);
    SyncKeepsMarks(file, s.disk);
    hide MarksOk, Durable, Right, ChunkSet;
    forall i <- s.kept ensures Durable(file, after.disk, i) { SyncMakesDurable(file, s.disk, i); }
    if step.SyncData? {
      forall i | 0 <= i < |s.check.bits| ensures s.check.bits[i] ==> Durable(file, after.disk, i) {
        if s.check.bits[i] { SyncMakesDurable(file, s.disk, i); }
      }
    }
  }

  /** Bytes laid behind the data leave every chunk as it was. */
  lemma TrailerKeeps(file: File, d: Disk, b: seq<byte>, i: nat)
    requires file.Ok() && |d.cur| == |d.maybe| == file.Full() && file.Total() + |b| <= file.Full()
    ensures var after := Lay(d, file.Total(), b);
            (Right(file, d, i) <==> Right(file, after, i)) && (Durable(file, d, i) <==> Durable(file, after, i))
  {}

  /** A mark that was not possible before is one the snapshot asked for. */
  lemma TrailerMarks(file: File, hash: Hash, d: Disk, marks: seq<byte>, k: nat, i: nat)
    requires file.Ok() && |d.cur| == |d.maybe| == file.Full() && i < file.Chunks()
    requires |marks| == file.MapLen() && k <= |marks| + FOOTER_LEN
    ensures MayMark(file, Lay(d, file.Total(), TrailerBytes(file, marks, hash)[..k]), i)
            ==> MayMark(file, d, i) || Marked(marks, i)
  {
    MapByteInside(file, i);
    var b := TrailerBytes(file, marks, hash)[..k];
    var after := Lay(d, file.Total(), b);
    assert i / 8 < k ==> b[i / 8] == marks[i / 8];
    hide Bit, TrailerBytes;
    assert after.maybe[file.Total() + i / 8] <= d.maybe[file.Total() + i / 8] + {marks[i / 8]};
  }

  lemma TrailerKeepsMarks(file: File, hash: Hash, s: State, marks: seq<byte>, k: nat)
    requires Inv(file, s) && Enabled(file, s, PutTrailer(marks, k))
    ensures MarksOk(file, Lay(s.disk, file.Total(), TrailerBytes(file, marks, hash)[..k]))
  {
    var b := TrailerBytes(file, marks, hash)[..k];
    var after := Lay(s.disk, file.Total(), b);
    hide Durable, MayMark, File.Chunks, Ledger, KeptOk, TrailerBytes, Lay, Marked;
    forall i: nat | i < file.Chunks() && MayMark(file, after, i) ensures Durable(file, after, i) {
      TrailerMarks(file, hash, s.disk, marks, k, i);
      TrailerKeeps(file, s.disk, b, i);
    }
  }

  lemma TrailerStep(file: File, hash: Hash, s: State, marks: seq<byte>, k: nat)
    requires Inv(file, s) && Enabled(file, s, PutTrailer(marks, k))
    ensures Inv(file, Next(file, hash, s, PutTrailer(marks, k)))
  {
    TrailerKeepsMarks(file, hash, s, marks, k);
    var b := TrailerBytes(file, marks, hash)[..k];
    assert file.Total() + |b| <= file.Full();
    hide MarksOk, Durable, Right, ChunkSet, File.Chunks, TrailerBytes, MapsTo;
    var after := Next(file, hash, s, PutTrailer(marks, k));
    forall i: nat ensures Durable(file, s.disk, i) <==> Durable(file, after.disk, i) { TrailerKeeps(file, s.disk, b, i); }
  }

  lemma StepKeepsInv(file: File, hash: Hash, s: State, step: Step)
    requires Inv(file, s) && Enabled(file, s, step)
    ensures Inv(file, Next(file, hash, s, step))
  {
    match step
    case Scribble(off, len) => ScribbleStep(file, hash, s, off, len);
    case Block(off, len) => BlockStep(file, hash, s, off, len);
    case Count(lo, hi) => CountStep(file, hash, s, lo, hi);
    case Begin => BeginStep(file, hash, s);
    case Look => LookStep(file, hash, s);
    case SyncData => SyncStep(file, hash, s, step);
    case PutTrailer(marks, k) => TrailerStep(file, hash, s, marks, k);
    case SyncTrailer => SyncStep(file, hash, s, step);
    case GiveUp => GiveUpStep(file, hash, s);
  }

  lemma BeginStep(file: File, hash: Hash, s: State)
    requires Inv(file, s) && Enabled(file, s, Begin)
    ensures Inv(file, Next(file, hash, s, Begin))
  {
    hide MarksOk, Durable, Right, ChunkSet, File.Chunks;
  }

  lemma GiveUpStep(file: File, hash: Hash, s: State)
    requires Inv(file, s)
    ensures Inv(file, Next(file, hash, s, GiveUp))
  {
    hide MarksOk, Durable, Right, ChunkSet, File.Chunks;
  }

  // ----- Sessions -----

  /** Chunk `i` is marked in the image. */
  ghost predicate MarkedIn(file: File, f: seq<byte>, i: nat)
    requires file.Ok() && |f| == file.Full() && i < file.Chunks()
  {
    MapByteInside(file, i);
    Bit(f[file.Total() + i / 8], i % 8)
  }

  ghost predicate Matches(file: File, f: seq<byte>, i: nat)
    requires file.Ok() && |f| == file.Full()
  {
    forall o <- ChunkSet(file, i) :: f[o] == file.data[o]
  }

  /** What an adopted image says is true. */
  ghost predicate Honest(file: File, f: seq<byte>)
    requires file.Ok()
  {
    |f| == file.Full() && forall i: nat | i < file.Chunks() && MarkedIn(file, f, i) :: Matches(file, f, i)
  }

  /** An image is safe to start from if adopting it would be right. */
  ghost predicate Trustworthy(file: File, f: seq<byte>, hash: Hash)
    requires file.Ok()
  {
    Adopts(file, f, hash) ==> Honest(file, f)
  }

  ghost function MarkedChunks(file: File, f: seq<byte>): set<nat>
    requires file.Ok() && |f| == file.Full()
  {
    set i: nat | 0 <= i < file.Chunks() && MarkedIn(file, f, i)
  }

  /** `prepare` on an image it adopts; what was not durable before is not durable now. */
  ghost function Resumed(file: File, d: Disk): State
    requires file.Ok() && |d.cur| == file.Full()
  {
    var kept := MarkedChunks(file, d.cur);
    State(d, seq(file.Chunks(), i requires 0 <= i => Kept(file, kept, i)), {}, {}, kept, Resting)
  }

  /** `prepare` on anything else: the file is cut to nothing and grown again. */
  ghost function Fresh(file: File): State
    requires file.Ok()
  {
    State(Synced(seq(file.Full(), _ => 0)), seq(file.Chunks(), _ => 0), {}, {}, {}, Resting)
  }

  ghost function Begun(file: File, d: Disk, hash: Hash): State
    requires file.Ok()
  {
    if Adopts(file, d.cur, hash) then AdoptedShape(file, d.cur, hash); Resumed(file, d) else Fresh(file)
  }

  /** The bitmap that `prepare` reads is the one the image carries, so `Restore` sets these counters. */
  lemma RestoreIsKept(file: File, d: Disk, hash: Hash, i: nat, count: nat)
    requires file.Ok() && Adopts(file, d.cur, hash) && i < file.Chunks()
    requires RestoredAt(file, Load(d.cur, hash).value.marks, i, count)
    ensures |d.cur| == file.Full() && count == Resumed(file, d).counters[i]
  {
    var f := d.cur;
    AdoptedShape(file, f, hash);
    ChunkSetSize(file, i);
    MarkedInMap(file, f, i);
    hide Load, Adopts, Marked, MarkedIn, ChunkSet, ChunkLen, File.Chunks;
  }

  lemma MarkedInMap(file: File, f: seq<byte>, i: nat)
    requires file.Ok() && |f| == file.Full() && i < file.Chunks()
    ensures Marked(f[file.Total()..file.Total() + file.MapLen()], i) <==> MarkedIn(file, f, i)
  {
    MapByteInside(file, i);
    hide Bit;
    assert f[file.Total()..file.Total() + file.MapLen()][i / 8] == f[file.Total() + i / 8];
  }

  lemma NothingTallied(file: File, c: nat)
    requires file.Ok()
    ensures Tally(file, {}, c) == 0
  {
    assert {} * ChunkSet(file, c) == {};
  }

  lemma FreshMarks(file: File)
    requires file.Ok()
    ensures MarksOk(file, Fresh(file).disk)
  {
    forall i: nat | i < file.Chunks() ensures !MayMark(file, Fresh(file).disk, i) {
      MapByteInside(file, i);
      BitZero(i % 8);
    }
  }

  lemma FreshInv(file: File)
    requires file.Ok()
    ensures Inv(file, Fresh(file))
  {
    FreshMarks(file);
    hide MarksOk, Tally, File.Chunks;
    forall c | 0 <= c < file.Chunks() ensures Tally(file, {}, c) == 0 { NothingTallied(file, c); }
  }

  /** What the disk holds may be what a crash leaves: a mark seen now is a mark a crash might leave. */
  lemma SeenMark(file: File, d: Disk, i: nat)
    requires file.Ok() && |d.cur| == |d.maybe| == file.Full() && i < file.Chunks()
    requires forall o | 0 <= o < |d.cur| :: d.cur[o] in d.maybe[o]
    ensures MarkedIn(file, d.cur, i) ==> MayMark(file, d, i)
    ensures Durable(file, d, i) ==> Matches(file, d.cur, i)
  {
    MapByteInside(file, i);
    hide Bit;
  }

  lemma ResumedInv(file: File, d: Disk)
    requires file.Ok() && |d.cur| == |d.maybe| == file.Full() && MarksOk(file, d)
    requires forall o | 0 <= o < |d.cur| :: d.cur[o] in d.maybe[o]
    ensures Inv(file, Resumed(file, d))
  {
    hide ChunkSet, Tally, File.Chunks, MayMark, MarkedIn, Matches, Durable;
    var s := Resumed(file, d);
    forall i <- s.kept ensures i < file.Chunks() && Durable(file, d, i) { SeenMark(file, d, i); }
    forall c | 0 <= c < file.Chunks() ensures Tally(file, {}, c) == 0 { NothingTallied(file, c); }
  }

  /** A session from its start: any steps of the writers and the checkpoint. */
  ghost predicate Runs(file: File, hash: Hash, s: State, steps: seq<Step>, end: State)
    requires file.Ok()
    decreases |steps|
  {
    if steps == [] then s == end
    else Shaped(file, s) && Enabled(file, s, steps[0]) && Runs(file, hash, Next(file, hash, s, steps[0]), steps[1..], end)
  }

  lemma {:induction false} RunKeepsInv(file: File, hash: Hash, s: State, steps: seq<Step>, end: State)
    requires Inv(file, s) && Runs(file, hash, s, steps, end)
    ensures Inv(file, end)
    decreases |steps|
  {
    if steps != [] {
      hide Inv, Next, Enabled;
      StepKeepsInv(file, hash, s, steps[0]);
      RunKeepsInv(file, hash, Next(file, hash, s, steps[0]), steps[1..], end);
    }
  }

  lemma CrashMatches(file: File, d: Disk, f: seq<byte>, i: nat)
    requires file.Ok() && |d.cur| == |d.maybe| == |f| == file.Full() && i < file.Chunks() && Leaves(d, f)
    ensures MarkedIn(file, f, i) ==> MayMark(file, d, i)
    ensures Durable(file, d, i) ==> Matches(file, f, i)
  {
    MapByteInside(file, i);
    hide Bit;
  }

  /** Whatever a crash leaves of a sound state, adopting it is right. */
  lemma CrashIsTrustworthy(file: File, hash: Hash, s: State, f: seq<byte>)
    requires Inv(file, s) && Leaves(s.disk, f)
    ensures Trustworthy(file, f, hash)
  {
    if Adopts(file, f, hash) {
      AdoptedShape(file, f, hash);
      hide Adopts, Ledger, CheckOk, KeptOk, File.Chunks, MayMark, MarkedIn, Matches, Durable, Leaves;
      forall i: nat | i < file.Chunks() && MarkedIn(file, f, i) ensures Matches(file, f, i) {
        CrashMatches(file, s.disk, f, i);
      }
    }
  }

  /**
   What a session leaves to the next one. Either the machine crashed, and what is left is durable;
   or only the process ended, and the next one reads what is there, all of it or its front part,
   while bytes that were never synced can still be lost.
   */
  ghost predicate Passes(d: Disk, next: Disk) {
    || (Leaves(d, next.cur) && next == Synced(next.cur))
    || (next.cur <= d.cur && next.maybe <= d.maybe && |next.cur| == |next.maybe|)
  }

  /** Safe to start from: if it is adopted, whatever a crash might still leave marked is there for good. */
  ghost predicate Sound(file: File, d: Disk, hash: Hash)
    requires file.Ok()
  {
    && |d.cur| == |d.maybe| && (forall o | 0 <= o < |d.cur| :: d.cur[o] in d.maybe[o])
    && (Adopts(file, d.cur, hash) ==> |d.cur| == file.Full() && MarksOk(file, d))
  }

  /** A durable image is safe to start from exactly if adopting it would be right. */
  lemma SoundIsTrustworthy(file: File, f: seq<byte>, hash: Hash)
    requires file.Ok()
    ensures Sound(file, Synced(f), hash) <==> Trustworthy(file, f, hash)
  {
    if Adopts(file, f, hash) {
      AdoptedShape(file, f, hash);
      hide Adopts, MayMark, MarkedIn, Matches, Durable, File.Chunks;
      forall i: nat | i < file.Chunks()
        ensures MayMark(file, Synced(f), i) <==> MarkedIn(file, f, i)
        ensures Durable(file, Synced(f), i) <==> Matches(file, f, i)
      {
        SyncedMarks(file, f, i);
      }
    }
  }

  lemma SyncedMarks(file: File, f: seq<byte>, i: nat)
    requires file.Ok() && |f| == file.Full() && i < file.Chunks()
    ensures MayMark(file, Synced(f), i) <==> MarkedIn(file, f, i)
    ensures Durable(file, Synced(f), i) <==> Matches(file, f, i)
  {
    MapByteInside(file, i);
    hide Bit;
  }

  /** What the next session reads of a safe image, whether or not all of it is durable, is true. */
  lemma SoundReadsTrue(file: File, d: Disk, hash: Hash)
    requires file.Ok() && Sound(file, d, hash)
    ensures Trustworthy(file, d.cur, hash)
  {
    if Adopts(file, d.cur, hash) {
      hide Adopts, MayMark, MarkedIn, Matches, Durable, File.Chunks;
      forall i: nat | i < file.Chunks() && MarkedIn(file, d.cur, i) ensures Matches(file, d.cur, i) { SeenMark(file, d, i); }
    }
  }

  /** However a session ends, what it leaves is safe to start from. */
  lemma PassedIsSound(file: File, hash: Hash, s: State, next: Disk)
    requires Inv(file, s) && Passes(s.disk, next)
    ensures Sound(file, next, hash)
  {
    if Leaves(s.disk, next.cur) && next == Synced(next.cur) {
      CrashIsTrustworthy(file, hash, s, next.cur);
      SoundIsTrustworthy(file, next.cur, hash);
    } else {
      if Adopts(file, next.cur, hash) {
        AdoptedShape(file, next.cur, hash);
        assert next == s.disk;
      }
    }
  }

  /** One session after another, each from what the one before it left. */
  ghost predicate Chain(file: File, hash: Hash, images: seq<Disk>, runs: seq<seq<Step>>, ends: seq<State>)
    requires file.Ok()
  {
    && |images| == |runs| + 1 && |ends| == |runs|
    && forall k | 0 <= k < |runs| ::
         Runs(file, hash, Begun(file, images[k], hash), runs[k], ends[k]) && Passes(ends[k].disk, images[k + 1])
  }

  /**
   Crash-consistent resume, for any number of sessions: if the first image is safe to start from,
   so is every image that any interleaving of writers and checkpoints leaves behind, cut off at any
   point by a crash of the machine or by the end of the process.
   */
  lemma {:induction false} EverySessionIsTrustworthy(file: File, hash: Hash, images: seq<Disk>, runs: seq<seq<Step>>, ends: seq<State>, k: nat)
    requires file.Ok() && Chain(file, hash, images, runs, ends) && k < |images|
    requires Sound(file, images[0], hash)
    ensures Sound(file, images[k], hash) && Trustworthy(file, images[k].cur, hash)
  {
    hide Inv, Runs, Trustworthy, Sound, Passes;
    if k > 0 {
      EverySessionIsTrustworthy(file, hash, images, runs, ends, k - 1);
      BegunInv(file, images[k - 1], hash);
      RunKeepsInv(file, hash, Begun(file, images[k - 1], hash), runs[k - 1], ends[k - 1]);
      PassedIsSound(file, hash, ends[k - 1], images[k]);
    }
    SoundReadsTrue(file, images[k], hash);
  }

  lemma BegunInv(file: File, d: Disk, hash: Hash)
    requires file.Ok() && Sound(file, d, hash)
    ensures Inv(file, Begun(file, d, hash))
  {
    if Adopts(file, d.cur, hash) {
      AdoptedShape(file, d.cur, hash);
      ResumedInv(file, d);
    } else {
      FreshInv(file);
    }
  }

  // ----- Which first images are safe -----

  ghost predicate MarksNothing(file: File, f: seq<byte>)
    requires file.Ok()
  {
    |f| == file.Full() ==> forall i: nat | i < file.Chunks() :: !MarkedIn(file, f, i)
  }

  /** The same file as far as identity and sizes go, with other contents. */
  function Other(file: File, data: seq<byte>): File { File(file.id, data, file.chunk) }

  lemma OtherLooksSame(file: File, data: seq<byte>, f: seq<byte>, hash: Hash)
    requires file.Ok() && |data| == file.Total()
    ensures Other(file, data).Ok() && Adopts(Other(file, data), f, hash) == Adopts(file, f, hash)
    ensures MarksNothing(Other(file, data), f) == MarksNothing(file, f)
  {
    var other := Other(file, data);
    assert other.Full() == file.Full() && other.Chunks() == file.Chunks() && other.Total() == file.Total();
    hide Load, Bit, File.Chunks, File.Full;
    assert |f| == file.Full() ==> forall i: nat | i < file.Chunks() :: MarkedIn(other, f, i) == MarkedIn(file, f, i);
  }

  /** Contents that differ from `f` in the first byte of chunk `i`. */
  lemma SomeContentDiffers(file: File, f: seq<byte>, i: nat, hash: Hash) returns (data: seq<byte>)
    requires file.Ok() && Adopts(file, f, hash) && |f| == file.Full() && i < file.Chunks() && MarkedIn(file, f, i)
    ensures |data| == file.Total() && Other(file, data).Ok() && !Trustworthy(Other(file, data), f, hash)
  {
    var x := FirstByte(file, i);
    hide Adopts, MarkedIn, ChunkNo, File.Chunks, File.Full, Trustworthy;
    data := file.data[x := if f[x] == 0 then 1 else 0];
    OtherLooksSame(file, data, f, hash);
    OtherMarksSame(file, data, f, i);
    Disbelieved(Other(file, data), f, i, x, hash);
  }

  lemma OtherMarksSame(file: File, data: seq<byte>, f: seq<byte>, i: nat)
    requires file.Ok() && |data| == file.Total() && |f| == file.Full() && i < file.Chunks()
    ensures var other := Other(file, data);
            other.Ok() && other.Full() == file.Full() && i < other.Chunks() && MarkedIn(other, f, i) == MarkedIn(file, f, i)
  {}

  lemma Disbelieved(file: File, f: seq<byte>, i: nat, x: nat, hash: Hash)
    requires file.Ok() && Adopts(file, f, hash) && |f| == file.Full() && i < file.Chunks() && MarkedIn(file, f, i)
    requires x < file.Total() && ChunkNo(file.chunk, x) == i && f[x] != file.data[x]
    ensures !Trustworthy(file, f, hash)
  {
    hide Adopts, MarkedIn;
    assert x in ChunkSet(file, i);
    assert !Matches(file, f, i);
  }

  lemma FirstByte(file: File, i: nat) returns (x: nat)
    requires file.Ok() && i < file.Chunks()
    ensures x < file.Total() <= file.Full() && ChunkNo(file.chunk, x) == i
  {
    ChunkStarts(i, file.chunk, file.Total());
    x := i * file.chunk;
    InChunk(x, i, file.chunk);
    assert (i + 1) * file.chunk == i * file.chunk + file.chunk;
  }

  /**
   Which images a session can start from whatever the sender's bytes are, as the image itself
   shows it: exactly those that are not adopted, or are adopted and mark no chunk.
   */
  lemma SafeForEveryContent(file: File, f: seq<byte>, hash: Hash)
    requires file.Ok()
    ensures (forall data: seq<byte> | |data| == file.Total() :: Other(file, data).Ok() && Sound(Other(file, data), Synced(f), hash))
            <==> !Adopts(file, f, hash) || MarksNothing(file, f)
  {
    hide MarksNothing, Sound, Trustworthy, Adopts;
    if Adopts(file, f, hash) && !MarksNothing(file, f) {
      AdoptedShape(file, f, hash);
      var i := SomeMark(file, f);
      var data := SomeContentDiffers(file, f, i, hash);
      SoundIsTrustworthy(Other(file, data), f, hash);
    } else {
      forall data: seq<byte> | |data| == file.Total() ensures Other(file, data).Ok() && Sound(Other(file, data), Synced(f), hash) {
        OtherLooksSame(file, data, f, hash);
        NothingToBelieve(Other(file, data), f, hash);
      }
    }
  }

  lemma SomeMark(file: File, f: seq<byte>) returns (i: nat)
    requires file.Ok() && !MarksNothing(file, f)
    ensures |f| == file.Full() && i < file.Chunks() && MarkedIn(file, f, i)
  {
    i :| i < file.Chunks() && MarkedIn(file, f, i);
  }

  lemma NothingToBelieve(file: File, f: seq<byte>, hash: Hash)
    requires file.Ok() && (!Adopts(file, f, hash) || MarksNothing(file, f))
    ensures Sound(file, Synced(f), hash)
  {
    if Adopts(file, f, hash) { AdoptedShape(file, f, hash); }
    hide Adopts, MarkedIn;
    SoundIsTrustworthy(file, f, hash);
  }

  /** With no partial file there at first, every session is safe, whatever the file and its contents. */
  lemma FromNothing(file: File, hash: Hash, images: seq<Disk>, runs: seq<seq<Step>>, ends: seq<State>, k: nat)
    requires file.Ok() && Chain(file, hash, images, runs, ends) && k < |images|
    requires images[0] == Synced([])
    ensures Sound(file, images[k], hash) && Trustworthy(file, images[k].cur, hash)
  {
    NothingToBelieve(file, [], hash);
    hide Sound, Trustworthy, Chain;
    EverySessionIsTrustworthy(file, hash, images, runs, ends, k);
  }

  // ----- Sessions of different files over one partial file -----

  lemma PassedShape(file: File, s: State, next: Disk)
    requires Inv(file, s) && Passes(s.disk, next)
    ensures |next.cur| == |next.maybe| && forall o | 0 <= o < |next.cur| :: next.cur[o] in next.maybe[o]
  {
    hide Ledger, KeptOk, MarksOk, CheckOk;
  }

  /**
   What a session of one file leaves is safe for a session of another, if it ends in the first one's
   trailer, which the second refuses by identity or size, or is not adopted by the second anyway.
   */
  lemma SwitchIsSound(a: File, b: File, hash: Hash, s: State, next: Disk)
    requires Inv(a, s) && Passes(s.disk, next) && b.Ok() && !SameKey(a, b)
    requires Adopts(a, next.cur, hash) || !Adopts(b, next.cur, hash)
    ensures Sound(b, next, hash)
  {
    PassedShape(a, s, next);
    hide Load, Inv;
  }

  /** No crash can leave a mark of `file` in the image. */
  ghost predicate NeverMarks(file: File, d: Disk)
    requires file.Ok() && |d.maybe| == file.Full()
  {
    forall i: nat | i < file.Chunks() :: !MayMark(file, d, i)
  }

  lemma OtherMayMark(file: File, data: seq<byte>, d: Disk, i: nat)
    requires file.Ok() && |data| == file.Total() && |d.maybe| == file.Full() && i < file.Chunks()
    ensures var other := Other(file, data);
            other.Ok() && other.Full() == file.Full() && other.Chunks() == file.Chunks() && MayMark(other, d, i) == MayMark(file, d, i)
  {}

  lemma SomeContentIsLost(file: File, d: Disk, i: nat, hash: Hash) returns (data: seq<byte>)
    requires file.Ok() && Adopts(file, d.cur, hash) && |d.cur| == |d.maybe| == file.Full() && i < file.Chunks() && MayMark(file, d, i)
    ensures |data| == file.Total() && Other(file, data).Ok() && !Sound(Other(file, data), d, hash)
  {
    var x := FirstByte(file, i);
    hide Adopts, MayMark, MarksNothing, ChunkNo, File.Chunks, File.Full;
    data := file.data[x := if d.cur[x] == 0 then 1 else 0];
    OtherLooksSame(file, data, d.cur, hash);
    OtherMayMark(file, data, d, i);
    assert x in ChunkSet(Other(file, data), i);
    assert !Durable(Other(file, data), d, i);
  }

  lemma NothingToLose(file: File, data: seq<byte>, d: Disk, hash: Hash)
    requires file.Ok() && |data| == file.Total()
    requires |d.cur| == |d.maybe| && (forall o | 0 <= o < |d.cur| :: d.cur[o] in d.maybe[o])
    requires Adopts(file, d.cur, hash) ==> |d.cur| == file.Full() && NeverMarks(file, d)
    ensures Other(file, data).Ok() && Sound(Other(file, data), d, hash)
  {
    OtherSizes(file, data);
    OtherLooksSame(file, data, d.cur, hash);
    hide Adopts, MayMark, MarksNothing, File.Chunks, File.Full, File.Ok, Durable;
    if Adopts(file, d.cur, hash) {
      forall i: nat | i < Other(file, data).Chunks() ensures !MayMark(Other(file, data), d, i) { OtherMayMark(file, data, d, i); }
    }
  }

  lemma OtherSizes(file: File, data: seq<byte>)
    requires file.Ok() && |data| == file.Total()
    ensures var other := Other(file, data); other.Ok() && other.Full() == file.Full() && other.Chunks() == file.Chunks()
  {}

  /**
   And exactly when it is safe whatever the second file contains: if the second does not adopt it,
   or no crash could leave a mark in it. Ending in the first file's trailer is a reason for the former.
   */
  lemma SafeSwitches(a: File, b: File, hash: Hash, s: State, next: Disk)
    requires Inv(a, s) && Passes(s.disk, next) && b.Ok()
    ensures (forall data: seq<byte> | |data| == b.Total() :: Other(b, data).Ok() && Sound(Other(b, data), next, hash))
            <==> (Adopts(b, next.cur, hash) ==> |next.maybe| == b.Full() && NeverMarks(b, next))
    ensures Adopts(a, next.cur, hash) && !SameKey(a, b) ==> !Adopts(b, next.cur, hash)
  {
    PassedShape(a, s, next);
    assert Adopts(a, next.cur, hash) && !SameKey(a, b) ==> !Adopts(b, next.cur, hash) by { hide Load, Inv; }
    hide Inv, Passes, Adopts, Sound, MayMark;
    if Adopts(b, next.cur, hash) {
      AdoptedShape(b, next.cur, hash);
      if i: nat :| i < b.Chunks() && MayMark(b, next, i) {
        var data := SomeContentIsLost(b, next, i, hash);
      }
    }
    if Adopts(b, next.cur, hash) ==> |next.maybe| == b.Full() && NeverMarks(b, next) {
      forall data: seq<byte> | |data| == b.Total() ensures Other(b, data).Ok() && Sound(Other(b, data), next, hash) {
        NothingToLose(b, data, next, hash);
      }
    }
  }

  /**
   One of the two has to hold: a file whose own last bytes are a trailer of the other (a copy of
   its partial file, say), received to the end and cut off before its first checkpoint, is adopted.
   */
  lemma StrayTrailerInData(hash: Hash) returns (a: File, b: File, s: State)
    ensures a.Ok() && b.Ok() && !SameKey(a, b) && Runs(a, hash, Fresh(a), [Block(0, a.Total())], s)
    ensures Passes(s.disk, Synced(a.data)) && Adopts(b, a.data, hash) && !Sound(b, Synced(a.data), hash)
  {
    b := File(2, [7], 1);
    a := File(1, [0] + TrailerBytes(b, [1], hash), 1000);
    assert a.Total() == 50 && a.Chunks() == 1;
    hide Adopts, TrailerBytes, Sound, Runs, Leaves, Trustworthy, Honest;
    ForgedImageFor(2, hash);
    SoundIsTrustworthy(b, a.data, hash);
    Disbelief(b, a.data, hash);
    s := WrittenWhole(a, hash);
  }

  lemma Disbelief(file: File, f: seq<byte>, hash: Hash)
    requires file.Ok() && Adopts(file, f, hash) && !Honest(file, f)
    ensures !Trustworthy(file, f, hash)
  {}

  /** A fresh session that writes everything may be cut off with exactly the data left. */
  lemma WrittenWhole(file: File, hash: Hash) returns (s: State)
    requires file.Ok()
    ensures Runs(file, hash, Fresh(file), [Block(0, file.Total())], s) && Leaves(s.disk, file.data)
  {
    FreshInv(file);
    assert file.data[0..file.Total()] == file.data;
    s := Next(file, hash, Fresh(file), Block(0, file.Total()));
    assert [Block(0, file.Total())][1..] == [];
    hide Inv, MarksOk, Ledger, ChunkCount;
  }

  /** Sessions one after the other, each for its own file, over the same partial file. */
  ghost predicate MixedChain(files: seq<File>, hash: Hash, images: seq<Disk>, runs: seq<seq<Step>>, ends: seq<State>) {
    && |images| == |files| == |runs| == |ends| && (forall k | 0 <= k < |files| :: files[k].Ok())
    && (forall k | 0 <= k < |files| :: Runs(files[k], hash, Begun(files[k], images[k], hash), runs[k], ends[k]))
    && (forall k | 1 <= k < |files| :: Passes(ends[k - 1].disk, images[k]) && Switches(files[k - 1], files[k], hash, images[k]))
  }

  /** The same file again, or one that a trailer can tell from it and that finds no stray trailer of its own. */
  ghost predicate Switches(a: File, b: File, hash: Hash, image: Disk)
    requires a.Ok() && b.Ok()
  {
    a == b || (!SameKey(a, b) && (Adopts(a, image.cur, hash) || !Adopts(b, image.cur, hash)))
  }

  /** Resume stays safe when transfers of different files take turns: each one only ever takes over its own. */
  lemma {:induction false} EverySwitchIsTrustworthy(files: seq<File>, hash: Hash, images: seq<Disk>, runs: seq<seq<Step>>, ends: seq<State>, k: nat)
    requires MixedChain(files, hash, images, runs, ends) && k < |files| && Sound(files[0], images[0], hash)
    ensures Sound(files[k], images[k], hash) && Inv(files[k], ends[k]) && Trustworthy(files[k], images[k].cur, hash)
  {
    hide Inv, Runs, Trustworthy, Sound, Passes, Adopts;
    if k > 0 {
      EverySwitchIsTrustworthy(files, hash, images, runs, ends, k - 1);
      if files[k - 1] == files[k] {
        PassedIsSound(files[k], hash, ends[k - 1], images[k]);
      } else {
        SwitchIsSound(files[k - 1], files[k], hash, ends[k - 1], images[k]);
      }
    }
    SoundReadsTrue(files[k], images[k], hash);
    BegunInv(files[k], images[k], hash);
    RunKeepsInv(files[k], hash, Begun(files[k], images[k], hash), runs[k], ends[k]);
  }

  // ----- Resuming gets somewhere, and what it rests on -----

  lemma ImageIsWhole(d: Disk, f: seq<byte>, s: seq<byte>)
    requires d == Synced(s) && |f| == |s| && forall o | 0 <= o < |f| :: f[o] in d.maybe[o]
    ensures f == s
  {}

  /**
   A checkpoint that ran to its end takes: the image a crash then leaves, if it kept its length, is
   adopted by the next session and marks exactly the chunks that the snapshot found complete.
   */
  lemma CheckpointTakes(file: File, hash: Hash, s: State, marks: seq<byte>, f: seq<byte>, i: nat)
    requires Inv(file, s) && s.check.Claiming? && i < file.Chunks()
    requires |marks| == file.MapLen() && MapsTo(marks, s.check.bits)
    requires var put := Lay(s.disk, file.Total(), TrailerBytes(file, marks, hash));
             Leaves(Synced(put.cur), f) && |f| == file.Full()
    ensures Adopts(file, f, hash)
    ensures MarkedIn(file, f, i) <==> s.check.bits[i]
  {
    var trailer := TrailerBytes(file, marks, hash);
    var put := Lay(s.disk, file.Total(), trailer);
    ImageIsWhole(Synced(put.cur), f, put.cur);
    var body := s.disk.cur[..file.Total()];
    assert f == body + trailer;
    TrailerRoundTrip(file, body, marks, hash);
    MapByteInside(file, i);
    assert f[file.Total() + i / 8] == trailer[i / 8] == marks[i / 8];
    hide Adopts, Bit, Ledger, KeptOk, MarksOk;
    assert Marked(marks, i) <==> s.check.bits[i];
  }

  /** Chunk `i` is complete, and a snapshot that has got to it says so. */
  ghost predicate InClaim(file: File, s: State, i: nat)
    requires file.Ok() && Shaped(file, s) && i < file.Chunks()
  {
    && IsFull(file, s.counters, i)
    && (s.check.Snapping? || s.check.Claiming? ==> i < |s.check.bits| ==> s.check.bits[i])
  }

  lemma StepKeepsClaim(file: File, hash: Hash, s: State, step: Step, i: nat)
    requires Inv(file, s) && Enabled(file, s, step) && i < file.Chunks() && InClaim(file, s, i)
    ensures Shaped(file, Next(file, hash, s, step)) && InClaim(file, Next(file, hash, s, step), i)
  {
    StepKeepsInv(file, hash, s, step);
    hide Ledger, KeptOk, MarksOk, CheckOk, ChunkNo, ChunkLen, TrailerBytes, Span, MapsTo, Lay, ChunkCount;
  }

  /**
   A chunk that is complete when no snapshot has passed it stays complete, and every snapshot taken
   from then on, beside any writes, marks it: a checkpoint loses nothing that was finished before it.
   */
  lemma {:induction false} CompleteIsClaimed(file: File, hash: Hash, s: State, steps: seq<Step>, end: State, i: nat)
    requires Inv(file, s) && Runs(file, hash, s, steps, end) && i < file.Chunks() && InClaim(file, s, i)
    ensures Inv(file, end) && IsFull(file, end.counters, i)
    ensures end.check.Claiming? ==> |end.check.bits| == file.Chunks() && end.check.bits[i]
    decreases |steps|
  {
    if steps != [] {
      StepKeepsInv(file, hash, s, steps[0]);
      StepKeepsClaim(file, hash, s, steps[0], i);
      hide Inv, InClaim, Next, Enabled, IsFull;
      CompleteIsClaimed(file, hash, Next(file, hash, s, steps[0]), steps[1..], end, i);
    }
  }

  /**
   The first image does have to be safe: a file whose own bytes end like a trailer for another
   file (a copy of somebody's partial file, say) would be adopted and believed.
   */
  lemma ForgedImageIsBelieved(hash: Hash)
    ensures var file := File(1, [7], 1);
            var f := [0] + TrailerBytes(file, [1], hash);
            file.Ok() && Adopts(file, f, hash) && !Honest(file, f)
  {
    ForgedImageFor(1, hash);
  }

  lemma ForgedImageFor(id: nat, hash: Hash)
    requires 0 < id < TWO64
    ensures var file := File(id, [7], 1);
            var f := [0] + TrailerBytes(file, [1], hash);
            file.Ok() && Adopts(file, f, hash) && !Honest(file, f)
  {
    var file := File(id, [7], 1);
    var f := [0] + TrailerBytes(file, [1], hash);
    assert file.Chunks() == 1 && file.MapLen() == 1;
    TrailerRoundTrip(file, [0], [1], hash);
    assert f[1] == [1][0] && Bit(1, 0);
    assert MarkedIn(file, f, 0);
    assert 0 in ChunkSet(file, 0) && f[0] == 0;
  }

  // ----- The counting loop of `FileSink::write` -----

  datatype Slice = Slice(lo: nat, hi: nat)

  function Bump(counters: seq<nat>, c: nat, n: nat): (r: seq<nat>)
    ensures |r| == |counters|
  {
    if c < |counters| then counters[c := counters[c] + n] else counters
  }

  /** Non-empty, and inside one chunk. */
  ghost predicate SliceOk(chunk: nat, p: Slice)
    requires chunk >= 1
  {
    p.lo < p.hi && ChunkNo(chunk, p.lo) == ChunkNo(chunk, p.hi - 1)
  }

  /** One after the other from `off` to `end`. */
  ghost predicate Slices(chunk: nat, off: nat, end: nat, ps: seq<Slice>)
    requires chunk >= 1
    decreases |ps|
  {
    if ps == [] then off == end
    else ps[0].lo == off && SliceOk(chunk, ps[0]) && Slices(chunk, ps[0].hi, end, ps[1..])
  }

  /** Each slice added to its chunk's counter, if there is one. */
  function Added(counters: seq<nat>, chunk: nat, ps: seq<Slice>): (r: seq<nat>)
    requires chunk >= 1
    ensures |r| == |counters|
    decreases |ps|
  {
    if ps == [] then counters
    else Added(Bump(counters, ChunkNo(chunk, ps[0].lo), Max(ps[0].hi, ps[0].lo) - ps[0].lo), chunk, ps[1..])
  }

  lemma {:induction false} SlicesForward(chunk: nat, off: nat, end: nat, ps: seq<Slice>)
    requires chunk >= 1 && Slices(chunk, off, end, ps)
    ensures off <= end
    decreases |ps|
  {
    if ps != [] { SlicesForward(chunk, ps[0].hi, end, ps[1..]); }
  }

  lemma StopInChunk(off: nat, end: nat, chunk: nat)
    requires chunk >= 1 && off < end
    ensures var stop := Min(end, (off / chunk + 1) * chunk); stop <= end && SliceOk(chunk, Slice(off, stop))
  {
    var c := off / chunk;
    InChunk(off, c, chunk);
    InChunk(Min(end, (c + 1) * chunk) - 1, c, chunk);
  }

  lemma {:induction false} SlicesSnoc(chunk: nat, off: nat, mid: nat, ps: seq<Slice>, p: Slice)
    requires chunk >= 1 && Slices(chunk, off, mid, ps) && p.lo == mid && SliceOk(chunk, p)
    ensures Slices(chunk, off, p.hi, ps + [p])
    decreases |ps|
  {
    hide SliceOk;
    if ps == [] {
      assert (ps + [p])[1..] == [];
    } else {
      SlicesSnoc(chunk, ps[0].hi, mid, ps[1..], p);
      assert (ps + [p])[1..] == ps[1..] + [p];
    }
  }

  lemma {:induction false} AddedSnoc(counters: seq<nat>, chunk: nat, ps: seq<Slice>, p: Slice)
    requires chunk >= 1 && p.lo <= p.hi
    ensures Added(counters, chunk, ps + [p]) == Bump(Added(counters, chunk, ps), ChunkNo(chunk, p.lo), p.hi - p.lo)
    decreases |ps|
  {
    hide Bump, ChunkNo;
    if ps == [] {
      assert (ps + [p])[1..] == [];
    } else {
      assert (ps + [p])[1..] == ps[1..] + [p];
      AddedSnoc(Bump(counters, ChunkNo(chunk, ps[0].lo), Max(ps[0].hi, ps[0].lo) - ps[0].lo), chunk, ps[1..], p);
    }
  }

  /** A write of `len` bytes is counted slice by slice, each byte once and against its own chunk. */
  method CountWrite(counters: array<nat>, chunk: nat, start: nat, len: nat) returns (ghost ps: seq<Slice>)
    requires chunk >= 1
    modifies counters
    ensures Slices(chunk, start, start + len, ps)
    ensures counters[..] == Added(old(counters[..]), chunk, ps)
  {
    ghost var was := counters[..];
    ps := [];
    var off, end := start, start + len;
    while off < end
      invariant start <= off <= end && Slices(chunk, start, off, ps)
      invariant counters[..] == Added(was, chunk, ps)
    {
      var stop := CountOne(counters, chunk, off, end);
      hide Added, Slices, Bump, ChunkNo;
      SlicesSnoc(chunk, start, off, ps, Slice(off, stop));
      AddedSnoc(was, chunk, ps, Slice(off, stop));
      ps := ps + [Slice(off, stop)];
      off := stop;
    }
  }

  /** The part of the write in the chunk of its first byte. */
  method CountOne(counters: array<nat>, chunk: nat, off: nat, end: nat) returns (stop: nat)
    requires chunk >= 1 && off < end
    modifies counters
    ensures off < stop <= end && SliceOk(chunk, Slice(off, stop))
    ensures counters[..] == Bump(old(counters[..]), ChunkNo(chunk, off), stop - off)
  {
    StopInChunk(off, end, chunk);
    var c := off / chunk;
    stop := Min(end, (c + 1) * chunk);
    if c < counters.Length { counters[c] := counters[c] + (stop - off); }
  }

  function Counts(ps: seq<Slice>): (r: seq<Step>)
    ensures |r| == |ps| && forall i | 0 <= i < |ps| :: r[i] == Count(ps[i].lo, ps[i].hi)
  {
    seq(|ps|, i requires 0 <= i < |ps| => Count(ps[i].lo, ps[i].hi))
  }

  /** One slice of a written block can be counted, and only it is then no longer owed. */
  lemma CountSlice(file: File, hash: Hash, s: State, off: nat, end: nat, p: Slice)
    requires Inv(file, s) && p.lo == off && p.hi <= end && SliceOk(file.chunk, p) && Span(off, end) <= s.owed
    ensures Shaped(file, s) && Enabled(file, s, Count(p.lo, p.hi))
    ensures var mid := Next(file, hash, s, Count(p.lo, p.hi));
            && Inv(file, mid) && mid.counters == Bump(s.counters, ChunkNo(file.chunk, p.lo), p.hi - p.lo) && mid.disk == s.disk
            && Span(p.hi, end) <= mid.owed && mid.owed - Span(p.hi, end) == s.owed - Span(off, end)
  {
    assert Span(p.lo, p.hi) <= Span(off, end);
    CountedChunk(file, s, p.lo, p.hi);
    assert Enabled(file, s, Count(p.lo, p.hi));
    StepKeepsInv(file, hash, s, Count(p.lo, p.hi));
    hide Inv, Shaped, Piece;
  }

  /** So the loop after a write is a run of `Count` steps, and it leaves nothing of the write owed. */
  lemma {:induction false} CountWriteIsSteps(file: File, hash: Hash, s: State, off: nat, end: nat, ps: seq<Slice>) returns (last: State)
    requires Inv(file, s) && Slices(file.chunk, off, end, ps) && Span(off, end) <= s.owed
    ensures Runs(file, hash, s, Counts(ps), last) && Inv(file, last) && last.counters == Added(s.counters, file.chunk, ps)
    ensures last.owed == s.owed - Span(off, end) && last.disk == s.disk
    decreases |ps|
  {
    if ps == [] {
      assert s.owed - Span(off, end) == s.owed;
      last := s;
    } else {
      var p := ps[0];
      assert file.chunk >= 1;
      SlicesForward(file.chunk, p.hi, end, ps[1..]);
      hide Inv, Enabled, Next, Shaped, Span, Bump, ChunkNo;
      CountSlice(file, hash, s, off, end, p);
      last := CountWriteIsSteps(file, hash, Next(file, hash, s, Count(p.lo, p.hi)), p.hi, end, ps[1..]);
      assert Counts(ps)[1..] == Counts(ps[1..]);
    }
  }
}
