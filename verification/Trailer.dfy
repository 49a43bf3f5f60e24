/**
 The resume trailer (`FileSink::checkpoint`, `load_trailer` and `prepare`, transfer.cpp):
 a bitmap of complete chunks and a 48-byte footer behind the data of a partial file.
 `hash` stands for the checksum function; nothing is asked of it.
 */
module Trailer {
  import opened Word64
  import opened Basics
  import opened Wire
  import opened Resume
  import Codec
  import Modular

  const FOOTER_LEN: nat := 48
  const MAGIC: seq<byte> := [0x46, 0x55, 0x53, 0x45, 0x52, 0x53, 0x4D, 0x31]

  type Hash = seq<byte> -> uint64

  /** A file being received: its identity, its bytes at the sender, and the chunk size chosen for it. */
  datatype File = File(id: nat, data: seq<byte>, chunk: nat)
  {
    function Total(): nat { |data| }

    function Chunks(): nat
      requires chunk >= 1
    {
      ChunkCount(|data|, chunk)
    }

    function MapLen(): nat
      requires chunk >= 1
    {
      (Chunks() + 7) / 8
    }

    function Full(): nat
      requires chunk >= 1
    {
      |data| + MapLen() + FOOTER_LEN
    }

    ghost predicate Ok() { chunk >= 1 && 0 < id < TWO64 && chunk < MAX_OFF && Full() <= MAX_OFF }
  }

  // ----- The bitmap -----

  predicate Marked(marks: seq<byte>, i: nat) { i / 8 < |marks| && Bit(marks[i / 8], i % 8) }

  ghost predicate MapsTo(marks: seq<byte>, bits: seq<bool>) {
    forall i: nat :: Marked(marks, i) <==> i < |bits| && bits[i]
  }

  lemma OrByte(b: byte, k: nat)
    requires k < 8
    ensures Or(b, Pow2(k)) < 256
    ensures forall j: nat :: Bit(Or(b, Pow2(k)), j) <==> Bit(b, j) || j == k
  {
    PowDouble(2, 4);
    PowDouble(4, 16);
    PowMono(k + 1, 8);
    OrBound(8, b, Pow2(k));
    forall j: nat ensures Bit(Or(b, Pow2(k)), j) <==> Bit(b, j) || j == k {
      BitOr(b, Pow2(k), j);
      BitOfPow2(k, j);
    }
  }

  lemma SetOne(marks: seq<byte>, i: nat, b: byte)
    requires i / 8 < |marks| && forall j: nat :: Bit(b, j) <==> Bit(marks[i / 8], j) || j == i % 8
    ensures forall j: nat :: Marked(marks[i / 8 := b], j) <==> Marked(marks, j) || j == i
  {
    forall j: nat ensures Marked(marks[i / 8 := b], j) <==> Marked(marks, j) || j == i {
      assert j == j / 8 * 8 + j % 8 && i == i / 8 * 8 + i % 8;
    }
  }

  lemma NoMarks(marks: seq<byte>)
    requires forall j | 0 <= j < |marks| :: marks[j] == 0
    ensures MapsTo(marks, [])
  {
    forall i: nat ensures !Marked(marks, i) { BitZero(i % 8); }
  }

  /** The snapshot loop: bit `i` set exactly for the chunks that are complete. */
  method BuildMap(bits: seq<bool>) returns (marks: seq<byte>)
    ensures |marks| == (|bits| + 7) / 8 && MapsTo(marks, bits)
  {
    marks := seq((|bits| + 7) / 8, _ => 0);
    NoMarks(marks);
    assert bits[..0] == [];
    for i := 0 to |bits|
      invariant |marks| == (|bits| + 7) / 8 && MapsTo(marks, bits[..i])
    {
      hide Or, Bit, Pow2, Marked;
      ghost var before := marks;
      if bits[i] {
        OrByte(marks[i / 8], i % 8);
        SetOne(marks, i, Or(marks[i / 8], Pow2(i % 8)));
        marks := marks[i / 8 := Or(marks[i / 8], Pow2(i % 8))];
      }
      assert forall j: nat :: Marked(marks, j) <==> Marked(before, j) || (j == i && bits[i]);
    }
    assert bits[..|bits|] == bits;
  }

  // ----- The footer -----

  function Key(file: File): (r: seq<byte>)
    requires file.chunk >= 1
    ensures |r| == 32
  {
    Be(8, file.id) + Be(8, file.Total()) + Be(8, file.chunk) + Be(8, file.Chunks())
  }

  function TrailerBytes(file: File, marks: seq<byte>, hash: Hash): (r: seq<byte>)
    requires file.chunk >= 1
    ensures |r| == |marks| + FOOTER_LEN
  {
    marks + (Key(file) + Be(8, hash(marks + Key(file))) + MAGIC)
  }

  datatype Prior = Prior(id: nat, total: nat, chunk: nat, chunks: nat, marks: seq<byte>)

  // Sums of fields not checked yet wrap as 64-bit numbers do.
  function Chunks64(total: nat, chunk: nat): nat
    requires chunk >= 1
  {
    (total + chunk + TWO64 - 1) % TWO64 / chunk
  }

  function MapLen64(chunks: nat): nat { (chunks + 7) % TWO64 / 8 }

  function Size64(total: nat, mapLen: nat): nat { (total + mapLen + FOOTER_LEN) % TWO64 }

  /** `load_trailer`. */
  function Load(f: seq<byte>, hash: Hash): Option<Prior> {
    if |f| < FOOTER_LEN then None
    else
      var foot := f[|f| - FOOTER_LEN..];
      var id, total, chunk, chunks, sum := Val(foot[..8]), Val(foot[8..16]), Val(foot[16..24]), Val(foot[24..32]), Val(foot[32..40]);
      if foot[40..] != MAGIC || chunk == 0 || total > |f| || chunks != Chunks64(total, chunk) then None
      else
        var mapLen := MapLen64(chunks);
        if |f| != Size64(total, mapLen) || total + mapLen > |f| then None
        else
          var marks := f[total..total + mapLen];
          if hash(marks + foot[..32]) != sum then None else Some(Prior(id, total, chunk, chunks, marks))
  }

  /** For the fields of a real file nothing wraps. */
  lemma NothingWraps(file: File)
    requires file.Ok()
    ensures Chunks64(file.Total(), file.chunk) == file.Chunks() && MapLen64(file.Chunks()) == file.MapLen()
    ensures Size64(file.Total(), file.MapLen()) == file.Full()
  {
    ChunksBound(file);
    assert (file.Total() + file.chunk - 1 + TWO64) % TWO64 == file.Total() + file.chunk - 1;
  }

  /** `prepare` takes over what an earlier session left: only for the very same file. */
  predicate Adopts(file: File, f: seq<byte>, hash: Hash)
    requires file.chunk >= 1
  {
    && Load(f, hash).Some?
    && var p := Load(f, hash).value;
       file.id != 0 && p.id == file.id && p.total == file.Total() && p.chunk == file.chunk && p.chunks == file.Chunks()
  }

  lemma ChunksBound(file: File)
    requires file.Ok()
    ensures file.Chunks() <= file.Total()
  {
    Modular.MulAtLeast(file.Total(), file.chunk);
    Modular.DivAtMost(file.Total() + file.chunk - 1, file.chunk, file.Total());
  }

  /** An adopted image has the full length, and its bitmap is where the data ends. */
  lemma AdoptedShape(file: File, f: seq<byte>, hash: Hash)
    requires file.Ok() && Adopts(file, f, hash)
    ensures |f| == file.Full() && Load(f, hash).value.marks == f[file.Total()..file.Total() + file.MapLen()]
  {
    NothingWraps(file);
    hide Chunks64, MapLen64, Size64, Val, ChunkCount, File.MapLen, File.Full;
  }

  lemma KeyParts(file: File, s: seq<byte>)
    requires file.Ok() && |s| == 32 && s == Key(file)
    ensures Val(s[..8]) == file.id && Val(s[8..16]) == file.Total() && Val(s[16..24]) == file.chunk && Val(s[24..]) == file.Chunks()
  {
    ChunksBound(file);
    Codec.Widths256();
    hide Be, Val, Pow256, ChunkCount;
    Quarters(Be(8, file.id), Be(8, file.Total()), Be(8, file.chunk), Be(8, file.Chunks()));
    ValOfBe(8, file.id);
    ValOfBe(8, file.Total());
    ValOfBe(8, file.chunk);
    ValOfBe(8, file.Chunks());
  }

  lemma Quarters(a: seq<byte>, b: seq<byte>, c: seq<byte>, d: seq<byte>)
    requires |a| == |b| == |c| == |d| == 8
    ensures var s := a + b + c + d; s[..8] == a && s[8..16] == b && s[16..24] == c && s[24..] == d
  {}

  lemma LoadFields(file: File, f: seq<byte>, foot: seq<byte>, marks: seq<byte>, sum: uint64)
    requires file.Ok() && |marks| == file.MapLen() && |f| == file.Full()
    requires foot == f[|f| - FOOTER_LEN..] && foot == Key(file) + Be(8, sum) + MAGIC
    requires f[file.Total()..file.Total() + |marks|] == marks
    ensures Val(foot[..8]) == file.id && Val(foot[8..16]) == file.Total() && Val(foot[16..24]) == file.chunk
    ensures Val(foot[24..32]) == file.Chunks() && Val(foot[32..40]) == sum && foot[40..] == MAGIC && foot[..32] == Key(file)
  {
    var key := foot[..32];
    assert key == Key(file);
    KeyParts(file, key);
    assert foot[..8] == key[..8] && foot[8..16] == key[8..16] && foot[16..24] == key[16..24] && foot[24..32] == key[24..];
    Codec.Widths256();
    ValOfBe(8, sum);
    assert foot[32..40] == Be(8, sum);
  }

  /**
   A trailer that was written whole is read back whole: same identity, size and chunk size, and
   exactly the marks that were written.
   */
  lemma TrailerRoundTrip(file: File, body: seq<byte>, marks: seq<byte>, hash: Hash)
    requires file.Ok() && |body| == file.Total() && |marks| == file.MapLen()
    ensures var f := body + TrailerBytes(file, marks, hash);
            && Load(f, hash) == Some(Prior(file.id, file.Total(), file.chunk, file.Chunks(), marks))
            && Adopts(file, f, hash)
  {
    var sum := hash(marks + Key(file));
    var foot := Key(file) + Be(8, sum) + MAGIC;
    var f := body + TrailerBytes(file, marks, hash);
    assert f == body + marks + foot;
    assert f[|f| - FOOTER_LEN..] == foot && f[file.Total()..file.Total() + |marks|] == marks;
    LoadFields(file, f, foot, marks, sum);
    NothingWraps(file);
    hide Key, Be, Val, Chunks64, MapLen64, Size64, TrailerBytes, ChunkCount;
  }

  /** Files that a trailer cannot tell apart. */
  ghost predicate SameKey(a: File, b: File) { a.id == b.id && a.Total() == b.Total() && a.chunk == b.chunk }

  /** A whole trailer is taken over by a session for the same file and no other. */
  lemma OnlyItsOwn(a: File, b: File, body: seq<byte>, marks: seq<byte>, hash: Hash)
    requires a.Ok() && b.Ok() && |body| == a.Total() && |marks| == a.MapLen()
    ensures Adopts(b, body + TrailerBytes(a, marks, hash), hash) <==> SameKey(a, b)
  {
    TrailerRoundTrip(a, body, marks, hash);
    hide Load, TrailerBytes;
  }

  lemma FootBytes(file: File, foot: seq<byte>, sum: nat)
    requires file.Ok() && |foot| == FOOTER_LEN && sum < TWO64 && foot[40..] == MAGIC
    requires Val(foot[..8]) == file.id && Val(foot[8..16]) == file.Total() && Val(foot[16..24]) == file.chunk
    requires Val(foot[24..32]) == file.Chunks() && Val(foot[32..40]) == sum
    ensures foot == Key(file) + Be(8, sum) + MAGIC && foot[..32] == Key(file)
  {
    hide Be, Val, Pow256, ChunkCount;
    FieldIs(8, file.id, foot[..8]);
    FieldIs(8, file.Total(), foot[8..16]);
    FieldIs(8, file.chunk, foot[16..24]);
    FieldIs(8, file.Chunks(), foot[24..32]);
    FieldIs(8, sum, foot[32..40]);
    assert foot[..32] == foot[..8] + foot[8..16] + foot[16..24] + foot[24..32];
    assert foot == foot[..32] + foot[32..40] + foot[40..];
  }

  lemma AdoptedBytes(file: File, f: seq<byte>, hash: Hash)
    requires file.Ok() && Adopts(file, f, hash)
    ensures |f| == file.Full()
    ensures f[file.Total()..] == TrailerBytes(file, f[file.Total()..file.Total() + file.MapLen()], hash)
  {
    AdoptedShape(file, f, hash);
    var foot, marks := f[|f| - FOOTER_LEN..], f[file.Total()..file.Total() + file.MapLen()];
    Codec.Widths256();
    ValFits(foot[32..40]);
    hide Key, Be, Chunks64, MapLen64, Size64, Val, ChunkCount;
    FootBytes(file, foot, Val(foot[32..40]));
    assert f[file.Total()..] == marks + foot;
  }

  /**
   An image is taken over exactly if behind `Total()` bytes of data, whatever they are, it ends in a
   trailer that a checkpoint of this very file would write: every field, the checksum and the magic.
   */
  lemma AdoptsIs(file: File, f: seq<byte>, hash: Hash)
    requires file.Ok()
    ensures Adopts(file, f, hash) <==>
            |f| == file.Full() && f[file.Total()..] == TrailerBytes(file, f[file.Total()..file.Total() + file.MapLen()], hash)
  {
    hide Load, TrailerBytes, ChunkCount;
    if Adopts(file, f, hash) { AdoptedBytes(file, f, hash); }
    if |f| == file.Full() && f[file.Total()..] == TrailerBytes(file, f[file.Total()..file.Total() + file.MapLen()], hash) {
      TrailerRoundTrip(file, f[..file.Total()], f[file.Total()..file.Total() + file.MapLen()], hash);
      assert f == f[..file.Total()] + f[file.Total()..];
    }
  }

  /** A marked chunk counts as full, any other as empty. */
  ghost predicate RestoredAt(file: File, marks: seq<byte>, i: nat, count: nat) {
    i * file.chunk <= file.Total() && count == if Marked(marks, i) then ChunkLen(i, file.chunk, file.Total()) else 0
  }

  /** Chunk counters as `prepare` sets them from an adopted bitmap. */
  method Restore(file: File, marks: seq<byte>) returns (counters: seq<nat>, resumedBytes: nat)
    requires file.Ok() && |marks| == file.MapLen()
    ensures |counters| == file.Chunks() && resumedBytes == Sum(counters)
    ensures forall i | 0 <= i < |counters| :: RestoredAt(file, marks, i, counters[i])
  {
    counters, resumedBytes := [], 0;
    for i := 0 to file.Chunks()
      invariant |counters| == i && resumedBytes == Sum(counters)
      invariant forall k | 0 <= k < i :: RestoredAt(file, marks, k, counters[k])
    {
      var len := RestoreOne(file, marks, i);
      hide RestoredAt, ChunkCount;
      SumNext(counters, len);
      counters := counters + [len];
      resumedBytes := resumedBytes + len;
    }
  }

  method RestoreOne(file: File, marks: seq<byte>, i: nat) returns (count: nat)
    requires file.Ok() && |marks| == file.MapLen() && i < file.Chunks()
    ensures RestoredAt(file, marks, i, count)
  {
    ChunkStarts(i, file.chunk, file.Total());
    count := 0;
    if Bit(marks[i / 8], i % 8) { count := ChunkLen(i, file.chunk, file.Total()); }
  }

  lemma SumNext(s: seq<nat>, x: nat)
    ensures Sum(s + [x]) == Sum(s) + x
  {
    assert (s + [x])[..|s|] == s;
  }

  function Sum(s: seq<nat>): nat { if s == [] then 0 else Sum(s[..|s| - 1]) + s[|s| - 1] }
}
