/**
 Where each field of a message lies in its datagram (control.cpp, block.cpp), byte position by byte
 position. `Codec` shows that decoding inverts encoding; this fixes what the encoding is, so that
 another implementation of the protocol can be held against it.
 */
module Layout {
  import opened Word64
  import opened Control
  import opened Basics
  import opened Tiling
  import opened Wire
  import opened Codec
  import Setup
  import SetupCodec
  import Trailer

  /** The big-endian number in the `w` bytes from `off` on. */
  ghost function Number(b: seq<byte>, off: nat, w: nat): nat { if off + w <= |b| then Val(b[off..off + w]) else 0 }

  ghost predicate Item(b: seq<byte>, off: nat, w: nat, v: nat) { off + w <= |b| && Number(b, off, w) == v }

  // ----- Where a field list puts its fields -----

  /** Where field `i` starts. */
  ghost function Off(ws: seq<nat>, i: nat): nat
    requires i <= |ws|
  {
    if i == 0 then 0 else Off(ws, i - 1) + ws[i - 1]
  }

  lemma OffStep(ws: seq<nat>, i: nat)
    requires i < |ws|
    ensures Off(ws, i + 1) == Off(ws, i) + ws[i]
  {}

  /** Behind version, type and stream. */
  lemma OffPrefix(ws: seq<nat>)
    requires |ws| >= 3 && ws[0] == 1 && ws[1] == 1 && ws[2] == 2
    ensures Off(ws, 3) == 4
  {
    assert Off(ws, 1) == 1 && Off(ws, 2) == 2;
  }

  lemma {:induction false} OffShift(ws: seq<nat>, i: nat)
    requires 1 <= i <= |ws|
    ensures Off(ws, i) == ws[0] + Off(ws[1..], i - 1)
  {
    if i > 1 { OffShift(ws, i - 1); }
  }

  lemma {:induction false} OffRun(ws: seq<nat>, i: nat, n: nat, w: nat)
    requires i + n <= |ws| && forall k | i <= k < i + n :: ws[k] == w
    ensures Off(ws, i + n) == Off(ws, i) + n * w
  {
    if n > 0 {
      OffRun(ws, i, n - 1, w);
      assert n * w == (n - 1) * w + w;
    }
  }

  lemma {:induction false} OffEnd(ws: seq<nat>)
    ensures Off(ws, |ws|) == Size(ws)
  {
    if ws != [] {
      OffEnd(ws[1..]);
      OffShift(ws, |ws|);
    }
  }

  lemma {:induction false} FieldLies(ws: seq<nat>, vs: seq<nat>, i: nat)
    requires AllFit(ws, vs) && i < |ws|
    ensures Item(Pack(ws, vs), Off(ws, i), ws[i], vs[i])
  {
    var b, head, rest := Pack(ws, vs), Be(ws[0], vs[0]), Pack(ws[1..], vs[1..]);
    assert b == head + rest && |head| == ws[0];
    hide Pack, Be, Val, Fits;
    if i == 0 {
      ValOfBe(ws[0], vs[0]);
      assert b[0..ws[0]] == head;
    } else {
      FieldLies(ws[1..], vs[1..], i - 1);
      OffShift(ws, i);
      ItemAfter(head, rest, Off(ws[1..], i - 1), ws[i], vs[i]);
    }
  }

  lemma ItemAfter(head: seq<byte>, rest: seq<byte>, off: nat, w: nat, v: nat)
    requires Item(rest, off, w, v)
    ensures Item(head + rest, |head| + off, w, v)
  {
    assert (head + rest)[|head| + off..|head| + off + w] == rest[off..off + w];
    hide Val;
  }

  ghost function WidthsOf(m: Message): seq<nat>
    requires m.Valid()
  {
    m.Kind().Widths(CountOf(m.Kind(), m.Fields()))
  }

  /** Field `i` of the message is at its offset. */
  lemma FieldAt(m: Message, i: nat)
    requires m.Valid() && i < |m.Fields()|
    ensures |m.Fields()| == |WidthsOf(m)| && Item(m.Bytes(), Off(WidthsOf(m), i), WidthsOf(m)[i], m.Fields()[i])
  {
    hide Message.Fields, Kind.Head, Off, Item;
    FieldLies(WidthsOf(m), m.Fields(), i);
  }

  lemma BytesLength(m: Message)
    requires m.Valid()
    ensures |m.Bytes()| == Size(WidthsOf(m)) == Off(WidthsOf(m), |WidthsOf(m)|)
  {
    OffEnd(WidthsOf(m));
    hide Message.Fields, Kind.Head, Off;
  }

  /** A run of one-byte fields is that run of bytes. */
  lemma BytesAt(m: Message, i: nat, p: seq<byte>)
    requires m.Valid() && i + |p| <= |m.Fields()| && |WidthsOf(m)| == |m.Fields()|
    requires forall k | i <= k < i + |p| :: WidthsOf(m)[k] == 1 && m.Fields()[k] == p[k - i]
    ensures var off := Off(WidthsOf(m), i); off + |p| <= |m.Bytes()| && m.Bytes()[off..off + |p|] == p
  {
    hide Message.Fields, Message.Bytes, WidthsOf, Off, Item, Message.Valid;
    var off := Off(WidthsOf(m), i);
    forall k | 0 <= k < |p| ensures off + k < |m.Bytes()| && m.Bytes()[off + k] == p[k] {
      OffRun(WidthsOf(m), i, k, 1);
      FieldAt(m, i + k);
      assert WidthsOf(m)[i + k] == 1 && m.Fields()[i + k] == p[k];
      OneByteAt(m.Bytes(), off + k, p[k]);
    }
    EndAt(m, i, |p|);
  }

  lemma EndAt(m: Message, i: nat, n: nat)
    requires m.Valid() && |WidthsOf(m)| == |m.Fields()| && i + n <= |WidthsOf(m)| && forall k | i <= k < i + n :: WidthsOf(m)[k] == 1
    ensures Off(WidthsOf(m), i) + n <= |m.Bytes()|
  {
    OffRun(WidthsOf(m), i, n, 1);
    BytesLength(m);
    hide Message.Fields, Message.Bytes, WidthsOf;
    OffMono(WidthsOf(m), i + n, |WidthsOf(m)|);
  }

  lemma {:induction false} OffMono(ws: seq<nat>, i: nat, j: nat)
    requires i <= j <= |ws|
    ensures Off(ws, i) <= Off(ws, j)
  {
    if i < j { OffMono(ws, i, j - 1); }
  }

  lemma OneByteAt(b: seq<byte>, off: nat, v: nat)
    requires Item(b, off, 1, v)
    ensures off < |b| && b[off] == v
  {
    var s := b[off..off + 1];
    assert s == [b[off]];
    assert Val(s) == Val(s[..0]) * 256 + s[0];
  }

  // ----- The messages -----

  /** Every datagram starts with the version, its type and the stream it is about. */
  lemma Prefix(m: Message)
    requires m.Valid()
    ensures var b := m.Bytes();
            |b| >= 4 && b[0] == VERSION && b[1] == m.Kind().Code() && Number(b, 2, 2) == m.Fields()[2]
  {
    HeadLength(m.Kind());
    var ws := WidthsOf(m);
    assert ws[2] == 2 && m.Fields()[0] == VERSION && m.Fields()[1] == m.Kind().Code();
    assert Off(ws, 1) == 1 && Off(ws, 2) == 2;
    FieldAt(m, 0);
    FieldAt(m, 1);
    FieldAt(m, 2);
    hide Message.Fields, Kind.Head, Message.Bytes, WidthsOf, Off;
    OneByteAt(m.Bytes(), 0, VERSION);
    OneByteAt(m.Bytes(), 1, m.Kind().Code());
  }

  lemma DataLayout(m: Message)
    requires m.Valid() && m.Data?
    ensures var b := m.Bytes();
            && |b| == 31 + |m.payload| && b[0] == 8 && b[1] == 0
            && Number(b, 2, 2) == m.stream && Number(b, 4, 8) == m.num && b[12] == m.flags && Number(b, 13, 2) == |m.payload|
            && Number(b, 15, 8) == m.offset && Number(b, 23, 8) == m.sendTime && b[31..] == m.payload
  {
    Prefix(m);
    var ws := WidthsOf(m);
    DataOffsets(m);
    FieldAt(m, 3);
    FieldAt(m, 4);
    FieldAt(m, 5);
    FieldAt(m, 6);
    FieldAt(m, 7);
    BytesAt(m, 8, m.payload);
    hide Message.Bytes, WidthsOf, Off, Message.Valid;
    OneByteAt(m.Bytes(), 12, m.flags);
  }

  lemma DataOffsets(m: Message)
    requires m.Valid() && m.Data?
    ensures var ws := WidthsOf(m);
            && |ws| == |m.Fields()| == 8 + |m.payload| && ws[..8] == [1, 1, 2, 8, 1, 2, 8, 8] && (forall k | 8 <= k < |ws| :: ws[k] == 1)
            && Off(ws, 3) == 4 && Off(ws, 4) == 12 && Off(ws, 5) == 13 && Off(ws, 6) == 15 && Off(ws, 7) == 23 && Off(ws, 8) == 31
            && |m.Bytes()| == 31 + |m.payload|
  {
    var ws := WidthsOf(m);
    assert CountOf(KData, m.Fields()) == |m.payload|;
    assert |ws| == 8 + |m.payload| && ws[0] == 1 && ws[1] == 1 && ws[2] == 2 && ws[3] == 8 && ws[4] == 1 && ws[5] == 2 && ws[6] == 8 && ws[7] == 8;
    hide Message.Bytes, WidthsOf, Message.Valid, Off;
    BytesLength(m);
    DataOffs(ws, |m.payload|);
  }

  lemma DataOffs(ws: seq<nat>, n: nat)
    requires |ws| == 8 + n && ws[0] == 1 && ws[1] == 1 && ws[2] == 2 && ws[3] == 8 && ws[4] == 1 && ws[5] == 2 && ws[6] == 8 && ws[7] == 8
    requires forall k | 8 <= k < |ws| :: ws[k] == 1
    ensures Off(ws, 3) == 4 && Off(ws, 4) == 12 && Off(ws, 5) == 13 && Off(ws, 6) == 15 && Off(ws, 7) == 23 && Off(ws, 8) == 31
    ensures Off(ws, |ws|) == 31 + n
  {
    hide Off;
    OffPrefix(ws);
    OffStep(ws, 3);
    OffStep(ws, 4);
    OffStep(ws, 5);
    OffStep(ws, 6);
    OffStep(ws, 7);
    OffRun(ws, 8, n, 1);
  }

  lemma AckLayout(m: Message)
    requires m.Valid() && m.Acked?
    ensures var a, b := m.ack, m.Bytes();
            && |b| == 160 && b[0] == 8 && b[1] == 2 && |a.mask| == 16
            && Number(b, 2, 2) == a.streamId && Number(b, 4, 8) == a.base && (forall i | 0 <= i < 16 :: Number(b, 12 + 8 * i, 8) == a.mask[i])
            && Number(b, 140, 8) == a.echo && Number(b, 148, 8) == a.nonce && Number(b, 156, 4) == a.rwnd
  {
    hide Message.Bytes, WidthsOf, Off, Message.Valid, Number, Message.Fields;
    Prefix(m);
    AckOffsets(m);
    var ws, b := WidthsOf(m), m.Bytes();
    FieldAt(m, 3);
    FieldAt(m, 20);
    FieldAt(m, 21);
    FieldAt(m, 22);
    forall i | 0 <= i < 16 ensures Number(b, 12 + 8 * i, 8) == m.ack.mask[i] {
      OffRun(ws, 4, i, 8);
      FieldAt(m, 4 + i);
      assert ws[4 + i] == 8;
    }
  }

  lemma AckOffsets(m: Message)
    requires m.Valid() && m.Acked?
    ensures var ws := WidthsOf(m);
            && m.Kind() == KAck && |m.ack.mask| == 16 && |ws| == |m.Fields()| == 23
            && m.Fields()[2] == m.ack.streamId && m.Fields()[3] == m.ack.base
            && m.Fields()[20] == m.ack.echo && m.Fields()[21] == m.ack.nonce && m.Fields()[22] == m.ack.rwnd
            && ws[3] == 8 && (forall k | 4 <= k < 20 :: ws[k] == 8)
            && ws[20] == 8 && ws[21] == 8 && ws[22] == 4 && (forall i | 0 <= i < 16 :: m.Fields()[4 + i] == m.ack.mask[i])
            && Off(ws, 3) == 4 && Off(ws, 4) == 12 && Off(ws, 20) == 140 && Off(ws, 21) == 148 && Off(ws, 22) == 156
            && |m.Bytes()| == 160
  {
    var ws := WidthsOf(m);
    assert ws == [1, 1, 2, 8] + Copies(8, 16) + [8, 8, 4] + [];
    assert ws[0] == 1 && ws[1] == 1 && ws[2] == 2 && ws[3] == 8;
    assert ws[20] == 8 && ws[21] == 8 && ws[22] == 4;
    hide Message.Bytes, WidthsOf, Message.Valid, Off;
    BytesLength(m);
    AckOffs(ws);
  }

  lemma AckOffs(ws: seq<nat>)
    requires |ws| == 23 && ws[0] == 1 && ws[1] == 1 && ws[2] == 2 && ws[3] == 8 && (forall k | 4 <= k < 20 :: ws[k] == 8)
    requires ws[20] == 8 && ws[21] == 8 && ws[22] == 4
    ensures Off(ws, 3) == 4 && Off(ws, 4) == 12 && Off(ws, 20) == 140 && Off(ws, 21) == 148 && Off(ws, 22) == 156 && Off(ws, 23) == 160
  {
    hide Off;
    OffPrefix(ws);
    OffStep(ws, 3);
    OffRun(ws, 4, 16, 8);
    OffStep(ws, 20);
    OffStep(ws, 21);
    OffStep(ws, 22);
  }

  lemma StartLayout(m: Message)
    requires m.Valid() && m.Start?
    ensures var b := m.Bytes();
            && |b| == 80 + |m.ext| && b[0] == 8 && b[1] == 7
            && Number(b, 2, 2) == m.stream && Number(b, 4, 8) == m.totalBlocks && Number(b, 12, 2) == m.blockSize && Number(b, 14, 8) == m.totalBytes
            && b[22..38] == m.salt && Number(b, 38, 8) == m.nonce && Number(b, 46, 8) == m.baseOffset && Number(b, 54, 8) == m.fileTotal
            && Number(b, 62, 8) == m.fileId && Number(b, 70, 8) == m.token && Number(b, 78, 2) == |m.ext| && b[80..] == m.ext
  {
    hide Message.Bytes, WidthsOf, Off, Message.Valid, Number, Message.Fields;
    Prefix(m);
    StartOffsets(m);
    FieldAt(m, 3);
    FieldAt(m, 4);
    FieldAt(m, 5);
    BytesAt(m, 6, m.salt);
    FieldAt(m, 22);
    FieldAt(m, 23);
    FieldAt(m, 24);
    FieldAt(m, 25);
    FieldAt(m, 26);
    FieldAt(m, 27);
    BytesAt(m, 28, m.ext);
  }

  lemma StartOffsets(m: Message)
    requires m.Valid() && m.Start?
    ensures var ws, vs := WidthsOf(m), m.Fields();
            && m.Kind() == KStart && |m.salt| == 16 && |ws| == |vs| == 28 + |m.ext| && vs[2] == m.stream
            && ws[2] == 2 && ws[3] == 8 && ws[4] == 2 && ws[5] == 8 && (forall k | 6 <= k < 22 :: ws[k] == 1) && (forall k | 22 <= k < 27 :: ws[k] == 8)
            && ws[27] == 2 && (forall k | 28 <= k < |ws| :: ws[k] == 1)
            && vs[3] == m.totalBlocks && vs[4] == m.blockSize && vs[5] == m.totalBytes && (forall k | 6 <= k < 22 :: vs[k] == m.salt[k - 6])
            && vs[22] == m.nonce && vs[23] == m.baseOffset && vs[24] == m.fileTotal && vs[25] == m.fileId && vs[26] == m.token
            && vs[27] == |m.ext| && (forall k | 28 <= k < |ws| :: vs[k] == m.ext[k - 28])
    ensures var ws := WidthsOf(m);
            && Off(ws, 3) == 4 && Off(ws, 4) == 12 && Off(ws, 5) == 14 && Off(ws, 6) == 22 && Off(ws, 22) == 38 && Off(ws, 23) == 46
            && Off(ws, 24) == 54 && Off(ws, 25) == 62 && Off(ws, 26) == 70 && Off(ws, 27) == 78 && Off(ws, 28) == 80
            && |m.Bytes()| == 80 + |m.ext|
  {
    StartWidths(m);
    StartFields(m);
    hide Message.Bytes, WidthsOf, Message.Valid, Message.Fields, Off;
    BytesLength(m);
    StartOffs(WidthsOf(m), |m.ext|);
  }

  lemma StartFields(m: Message)
    requires m.Valid() && m.Start?
    ensures var vs := m.Fields();
            && m.Kind() == KStart && |m.salt| == 16 && |vs| == 28 + |m.ext| && vs[2] == m.stream && vs[3] == m.totalBlocks && vs[4] == m.blockSize
            && vs[5] == m.totalBytes && (forall k | 6 <= k < 22 :: vs[k] == m.salt[k - 6])
            && vs[22] == m.nonce && vs[23] == m.baseOffset && vs[24] == m.fileTotal && vs[25] == m.fileId && vs[26] == m.token
            && vs[27] == |m.ext| && (forall k | 28 <= k < |vs| :: vs[k] == m.ext[k - 28])
  {
    hide FieldsOk;
  }

  lemma StartWidths(m: Message)
    requires m.Valid() && m.Start?
    ensures var ws := WidthsOf(m);
            && |ws| == 28 + |m.ext| && ws[0] == 1 && ws[1] == 1 && ws[2] == 2 && ws[3] == 8 && ws[4] == 2 && ws[5] == 8
            && (forall k | 6 <= k < 22 :: ws[k] == 1) && (forall k | 22 <= k < 27 :: ws[k] == 8) && ws[27] == 2 && (forall k | 28 <= k < |ws| :: ws[k] == 1)
  {
    StartFields(m);
    assert CountOf(KStart, m.Fields()) == |m.ext|;
    hide Message.Fields, FieldsOk;
    assert WidthsOf(m) == [1, 1, 2, 8, 2, 8] + Copies(1, 16) + [8, 8, 8, 8, 8, 2] + Copies(1, |m.ext|);
  }

  lemma StartOffs(ws: seq<nat>, n: nat)
    requires |ws| == 28 + n && ws[0] == 1 && ws[1] == 1 && ws[2] == 2 && ws[3] == 8 && ws[4] == 2 && ws[5] == 8
    requires (forall k | 6 <= k < 22 :: ws[k] == 1) && (forall k | 22 <= k < 27 :: ws[k] == 8) && ws[27] == 2
    requires forall k | 28 <= k < |ws| :: ws[k] == 1
    ensures Off(ws, 3) == 4 && Off(ws, 4) == 12 && Off(ws, 5) == 14 && Off(ws, 6) == 22 && Off(ws, 22) == 38 && Off(ws, 23) == 46
    ensures Off(ws, 24) == 54 && Off(ws, 25) == 62 && Off(ws, 26) == 70 && Off(ws, 27) == 78 && Off(ws, 28) == 80 && Off(ws, |ws|) == 80 + n
  {
    hide Off;
    OffPrefix(ws);
    OffStep(ws, 3);
    OffStep(ws, 4);
    OffStep(ws, 5);
    OffRun(ws, 6, 16, 1);
    OffStep(ws, 22);
    OffStep(ws, 23);
    OffStep(ws, 24);
    OffStep(ws, 25);
    OffStep(ws, 26);
    OffStep(ws, 27);
    OffRun(ws, 28, n, 1);
  }

  /** The messages whose fixed part is five fields or less. */
  lemma ShortLayouts(m: Message)
    requires m.Valid() && (m.Heartbeat? || m.Close? || m.Retry? || m.Probe?)
    ensures var b := m.Bytes();
            match m
            case Heartbeat(stream, highest) => |b| == 12 && b[1] == 1 && Number(b, 2, 2) == stream && Number(b, 4, 8) == highest
            case Close(stream, nonce, reason) => |b| == 13 && b[1] == 11 && Number(b, 2, 2) == stream && Number(b, 4, 8) == nonce && b[12] == reason
            case Retry(stream, nonce, token) => |b| == 20 && b[1] == 14 && Number(b, 2, 2) == stream && Number(b, 4, 8) == nonce && Number(b, 12, 8) == token
            case Probe(response, stream, nonce, challenge) =>
              |b| == 20 && b[1] == (if response then 16 else 15) && Number(b, 2, 2) == stream && Number(b, 4, 8) == nonce && Number(b, 12, 8) == challenge
  {
    hide Message.Bytes, WidthsOf, Off, Message.Valid, Number, Message.Fields;
    Prefix(m);
    ShortOffsets(m);
    FieldAt(m, 3);
    if !m.Heartbeat? { FieldAt(m, 4); }
    if m.Close? { OneByteAt(m.Bytes(), 12, m.reason); }
  }

  lemma ShortOffsets(m: Message)
    requires m.Valid() && (m.Heartbeat? || m.Close? || m.Retry? || m.Probe?)
    ensures var ws := WidthsOf(m);
            && |ws| == |m.Fields()| == (if m.Heartbeat? then 4 else 5) && ws[3] == 8 && Off(ws, 3) == 4 && Off(ws, 4) == 12
            && (!m.Heartbeat? ==> ws[4] == if m.Close? then 1 else 8)
            && m.Fields()[2] == m.stream && m.Fields()[3] == (if m.Heartbeat? then m.highest else m.nonce)
            && (!m.Heartbeat? ==> m.Fields()[4] == if m.Close? then m.reason else if m.Retry? then m.token else m.challenge)
            && |m.Bytes()| == 12 + if m.Heartbeat? then 0 else ws[4]
  {
    var ws := WidthsOf(m);
    assert |ws| == |m.Kind().Head()| && forall i | 0 <= i < |ws| :: ws[i] == m.Kind().Head()[i];
    hide Message.Bytes, WidthsOf, Message.Valid, Off;
    BytesLength(m);
    OffPrefix(ws);
    OffStep(ws, 3);
    if !m.Heartbeat? { OffStep(ws, 4); }
  }

  lemma NackLayout(m: Message)
    requires m.Valid() && m.Nacked?
    ensures var n, b := m.nack, m.Bytes();
            && |b| == 6 + 8 * |n.missing| && b[1] == 3 && Number(b, 2, 2) == n.streamId && Number(b, 4, 2) == |n.missing|
            && forall i | 0 <= i < |n.missing| :: Number(b, 6 + 8 * i, 8) == n.missing[i]
  {
    hide Message.Bytes, WidthsOf, Off, Message.Valid, Number, Message.Fields;
    Prefix(m);
    NackOffsets(m);
    var ws := WidthsOf(m);
    FieldAt(m, 3);
    forall i | 0 <= i < |m.nack.missing| ensures Number(m.Bytes(), 6 + 8 * i, 8) == m.nack.missing[i] {
      OffRun(ws, 4, i, 8);
      FieldAt(m, 4 + i);
      assert ws[4 + i] == 8 && m.Fields()[4 + i] == m.nack.missing[i];
    }
  }

  lemma NackOffsets(m: Message)
    requires m.Valid() && m.Nacked?
    ensures var ws, vs := WidthsOf(m), m.Fields();
            && m.Kind() == KNack && |ws| == |vs| == 4 + |m.nack.missing| && vs[2] == m.nack.streamId && vs[3] == |m.nack.missing|
            && (forall k | 4 <= k < |ws| :: ws[k] == 8 && vs[k] == m.nack.missing[k - 4])
            && ws[3] == 2 && Off(ws, 3) == 4 && Off(ws, 4) == 6 && |m.Bytes()| == 6 + 8 * |m.nack.missing|
  {
    var ws, vs := WidthsOf(m), m.Fields();
    assert CountOf(KNack, vs) == |m.nack.missing|;
    assert ws == [1, 1, 2, 2] + Copies(8, |m.nack.missing|);
    hide Message.Bytes, WidthsOf, Message.Valid, Off;
    BytesLength(m);
    OffPrefix(ws);
    OffStep(ws, 3);
    OffRun(ws, 4, |m.nack.missing|, 8);
  }

  lemma {:induction false} FlattenedAt(ranges: seq<Range>, i: nat)
    requires i < |ranges|
    ensures Flattened(ranges)[2 * i] == ranges[i].offset && Flattened(ranges)[2 * i + 1] == ranges[i].length
  {
    if i > 0 { FlattenedAt(ranges[1..], i - 1); }
  }

  lemma RangesLayout(m: Message)
    requires m.Valid() && m.Ranges?
    ensures var b := m.Bytes();
            && |b| == 19 + 16 * |m.ranges| && b[1] == 12 && Number(b, 2, 2) == m.stream && Number(b, 4, 8) == m.nonce && b[12] == m.flags
            && Number(b, 13, 2) == m.part && Number(b, 15, 2) == m.parts && Number(b, 17, 2) == |m.ranges|
            && forall i | 0 <= i < |m.ranges| ::
                 Number(b, 19 + 16 * i, 8) == m.ranges[i].offset && Number(b, 27 + 16 * i, 8) == m.ranges[i].length
  {
    hide Message.Bytes, WidthsOf, Off, Message.Valid, Number, Message.Fields, Flattened;
    Prefix(m);
    RangesOffsets(m);
    var ws := WidthsOf(m);
    FieldAt(m, 3);
    FieldAt(m, 4);
    FieldAt(m, 5);
    FieldAt(m, 6);
    FieldAt(m, 7);
    OneByteAt(m.Bytes(), 12, m.flags);
    forall i | 0 <= i < |m.ranges|
      ensures Number(m.Bytes(), 19 + 16 * i, 8) == m.ranges[i].offset && Number(m.Bytes(), 27 + 16 * i, 8) == m.ranges[i].length
    {
      FlattenedAt(m.ranges, i);
      RangeItem(m, 2 * i);
      RangeItem(m, 2 * i + 1);
    }
  }

  lemma RangeItem(m: Message, k: nat)
    requires m.Valid() && m.Ranges? && k < 2 * |m.ranges|
    ensures Number(m.Bytes(), 19 + 8 * k, 8) == Flattened(m.ranges)[k]
  {
    hide Message.Bytes, WidthsOf, Off, Message.Valid, Number, Message.Fields, Flattened;
    RangesOffsets(m);
    OffRun(WidthsOf(m), 8, k, 8);
    FieldAt(m, 8 + k);
    assert WidthsOf(m)[8 + k] == 8 && m.Fields()[8 + k] == Flattened(m.ranges)[k];
  }

  lemma RangesOffsets(m: Message)
    requires m.Valid() && m.Ranges?
    ensures var ws, vs := WidthsOf(m), m.Fields();
            && m.Kind() == KRanges && |ws| == |vs| == 8 + 2 * |m.ranges|
            && vs[2] == m.stream && vs[3] == m.nonce && vs[4] == m.flags && vs[5] == m.part && vs[6] == m.parts && vs[7] == |m.ranges|
            && ws[3] == 8 && ws[4] == 1 && ws[5] == 2 && ws[6] == 2 && ws[7] == 2
            && (forall k | 8 <= k < |ws| :: ws[k] == 8 && vs[k] == Flattened(m.ranges)[k - 8])
            && Off(ws, 3) == 4 && Off(ws, 4) == 12 && Off(ws, 5) == 13 && Off(ws, 6) == 15 && Off(ws, 7) == 17 && Off(ws, 8) == 19
            && |m.Bytes()| == 19 + 16 * |m.ranges|
  {
    var ws, vs := WidthsOf(m), m.Fields();
    assert CountOf(KRanges, vs) == |m.ranges|;
    assert ws == [1, 1, 2, 8, 1, 2, 2, 2] + Copies(8, 2 * |m.ranges|);
    hide Message.Bytes, WidthsOf, Message.Valid, Off;
    BytesLength(m);
    RangesOffs(ws, 2 * |m.ranges|);
  }

  lemma RangesOffs(ws: seq<nat>, n: nat)
    requires |ws| == 8 + n && ws[0] == 1 && ws[1] == 1 && ws[2] == 2 && ws[3] == 8 && ws[4] == 1 && ws[5] == 2 && ws[6] == 2 && ws[7] == 2
    requires forall k | 8 <= k < |ws| :: ws[k] == 8
    ensures Off(ws, 3) == 4 && Off(ws, 4) == 12 && Off(ws, 5) == 13 && Off(ws, 6) == 15 && Off(ws, 7) == 17 && Off(ws, 8) == 19
    ensures Off(ws, |ws|) == 19 + 8 * n
  {
    hide Off;
    OffPrefix(ws);
    OffStep(ws, 3);
    OffStep(ws, 4);
    OffStep(ws, 5);
    OffStep(ws, 6);
    OffStep(ws, 7);
    OffRun(ws, 8, n, 8);
  }

  lemma DigestLayout(m: Message)
    requires m.Valid() && m.Digest?
    ensures var b := m.Bytes();
            |b| == 44 && b[1] == 13 && Number(b, 2, 2) == m.stream && Number(b, 4, 8) == m.nonce && b[12..] == m.digest
  {
    hide Message.Bytes, Off, Message.Valid, Number;
    Prefix(m);
    DigestOffsets(m);
    FieldAt(m, 3);
    BytesAt(m, 4, m.digest);
  }

  lemma DigestOffsets(m: Message)
    requires m.Valid() && m.Digest?
    ensures var ws, vs := WidthsOf(m), m.Fields();
            && |m.digest| == 32 && |ws| == |vs| == 36 && ws[3] == 8 && (forall k | 4 <= k < 36 :: ws[k] == 1 && vs[k] == m.digest[k - 4])
            && Off(ws, 3) == 4 && Off(ws, 4) == 12 && |m.Bytes()| == 44
  {
    var ws, vs := WidthsOf(m), m.Fields();
    assert ws == [1, 1, 2, 8] + Copies(1, 32) + [];
    assert ws[0] == 1 && ws[1] == 1 && ws[2] == 2;
    hide Message.Bytes, WidthsOf, Message.Valid, Off;
    BytesLength(m);
    OffPrefix(ws);
    OffStep(ws, 3);
    OffRun(ws, 4, 32, 1);
  }

  // ----- SETUP -----

  lemma {:induction false} TableAt(n: nat, i: nat, j: nat)
    requires i < n && j < 5
    ensures 5 * i + j < 5 * n && SetupCodec.Table(n)[5 * i + j] == SetupCodec.ENTRY[j]
  {
    if i > 0 { TableAt(n - 1, i - 1, j); }
  }

  ghost function StreamField(c: SetupCodec.StreamConfig, j: nat): nat
    requires j < 5
  {
    [c.id, c.worker, c.flags, c.block, c.window][j]
  }

  lemma {:induction false} EntryAt(streams: seq<SetupCodec.StreamConfig>, i: nat, j: nat)
    requires i < |streams| && j < 5
    ensures 5 * i + j < 5 * |streams| && SetupCodec.Entries(streams)[5 * i + j] == StreamField(streams[i], j)
  {
    if i > 0 { EntryAt(streams[1..], i - 1, j); }
  }

  /** Nine bytes an entry, behind five bytes of head. */
  lemma {:induction false} TableOff(n: nat, i: nat)
    requires i <= n
    ensures Off(SetupCodec.Widths(n), 3 + 5 * i) == 5 + 9 * i
  {
    var ws := SetupCodec.Widths(n);
    if i == 0 {
      assert ws[0] == 1 && ws[1] == 2 && ws[2] == 2;
      hide SetupCodec.Widths, SetupCodec.Table, Off;
      OffStart(ws);
      OffStep(ws, 0);
      OffStep(ws, 1);
      OffStep(ws, 2);
    } else {
      TableOff(n, i - 1);
      EntryWidths(n, i - 1);
      var k := 3 + 5 * (i - 1);
      hide SetupCodec.Widths, SetupCodec.Table, Off;
      OffStep(ws, k);
      OffStep(ws, k + 1);
      OffStep(ws, k + 2);
      OffStep(ws, k + 3);
      OffStep(ws, k + 4);
    }
  }

  lemma EntryWidths(n: nat, i: nat)
    requires i < n
    ensures var ws, k := SetupCodec.Widths(n), 3 + 5 * i;
            k + 5 < |ws| && ws[k] == 2 && ws[k + 1] == 2 && ws[k + 2] == 1 && ws[k + 3] == 2 && ws[k + 4] == 2
  {
    TableAt(n, i, 0);
    TableAt(n, i, 1);
    TableAt(n, i, 2);
    TableAt(n, i, 3);
    TableAt(n, i, 4);
  }

  lemma SetupField(p: SetupCodec.Payload, k: nat)
    requires SetupCodec.Ok(p) && k < 4 + 5 * |p.streams|
    ensures Item(SetupCodec.Body(p), Off(SetupCodec.Widths(|p.streams|), k), SetupCodec.Widths(|p.streams|)[k], SetupCodec.Fields(p)[k])
  {
    var ws, vs := SetupCodec.Widths(|p.streams|), SetupCodec.Fields(p);
    FieldLies(ws, vs, k);
    hide SetupCodec.Widths, SetupCodec.Fields, Pack, Off;
    ItemBefore(Pack(ws, vs), p.ext, Off(ws, k), ws[k], vs[k]);
  }

  lemma ItemBefore(b: seq<byte>, rest: seq<byte>, off: nat, w: nat, v: nat)
    requires Item(b, off, w, v)
    ensures Item(b + rest, off, w, v)
  {
    assert (b + rest)[off..off + w] == b[off..off + w];
    hide Val;
  }

  /** Stream `i` of a SETUP body. */
  lemma StreamLayout(p: SetupCodec.Payload, i: nat)
    requires SetupCodec.Ok(p) && i < |p.streams|
    ensures var b, c, at := SetupCodec.Body(p), p.streams[i], 5 + 9 * i;
            && Item(b, at, 2, c.id) && Item(b, at + 2, 2, c.worker) && Item(b, at + 4, 1, c.flags)
            && Item(b, at + 5, 2, c.block) && Item(b, at + 7, 2, c.window)
  {
    hide SetupCodec.Widths, SetupCodec.Fields, SetupCodec.Table, SetupCodec.Body, Item, SetupCodec.Ok, Off;
    var n, k := |p.streams|, 3 + 5 * i;
    var ws, vs := SetupCodec.Widths(n), SetupCodec.Fields(p);
    TableOff(n, i);
    EntryWidths(n, i);
    StreamValues(p, i);
    SetupField(p, k);
    SetupField(p, k + 1);
    SetupField(p, k + 2);
    SetupField(p, k + 3);
    SetupField(p, k + 4);
    OffStep(ws, k);
    OffStep(ws, k + 1);
    OffStep(ws, k + 2);
    OffStep(ws, k + 3);
  }

  lemma StreamValues(p: SetupCodec.Payload, i: nat)
    requires i < |p.streams|
    ensures var vs, k, c := SetupCodec.Fields(p), 3 + 5 * i, p.streams[i];
            k + 5 < |vs| && vs[k] == c.id && vs[k + 1] == c.worker && vs[k + 2] == c.flags && vs[k + 3] == c.block && vs[k + 4] == c.window
  {
    EntryAt(p.streams, i, 0);
    EntryAt(p.streams, i, 1);
    EntryAt(p.streams, i, 2);
    EntryAt(p.streams, i, 3);
    EntryAt(p.streams, i, 4);
    hide SetupCodec.Entries;
  }

  /** The rest of a SETUP body: version, workers and stream count in front, the extension area behind the table. */
  lemma SetupLayout(p: SetupCodec.Payload)
    requires SetupCodec.Ok(p)
    ensures var b, end := SetupCodec.Body(p), 5 + 9 * |p.streams|;
            && |b| == end + 2 + |p.ext| && Item(b, 0, 1, p.version) && Item(b, 1, 2, p.workers) && Item(b, 3, 2, |p.streams|)
            && Item(b, end, 2, |p.ext|) && b[end + 2..] == p.ext
  {
    hide SetupCodec.Widths, SetupCodec.Fields, SetupCodec.Table, SetupCodec.Body, Item, SetupCodec.Ok, Size, Pack, Off;
    var n := |p.streams|;
    var ws := SetupCodec.Widths(n);
    SetupEnds(p);
    TableOff(n, n);
    OffStep(ws, 0);
    OffStep(ws, 1);
    OffStep(ws, 3 + 5 * n);
    OffEnd(ws);
    OffStart(ws);
    SetupField(p, 0);
    SetupField(p, 1);
    SetupField(p, 2);
    SetupField(p, 3 + 5 * n);
  }

  lemma OffStart(ws: seq<nat>)
    ensures Off(ws, 0) == 0
  {}

  lemma SetupEnds(p: SetupCodec.Payload)
    ensures var n, ws, vs := |p.streams|, SetupCodec.Widths(|p.streams|), SetupCodec.Fields(p);
            && |ws| == |vs| == 4 + 5 * n && ws[0] == 1 && ws[1] == 2 && ws[2] == 2 && ws[3 + 5 * n] == 2
            && vs[0] == p.version && vs[1] == p.workers && vs[2] == n && vs[3 + 5 * n] == |p.ext|
            && |SetupCodec.Body(p)| == Size(ws) + |p.ext| && SetupCodec.Body(p)[Size(ws)..] == p.ext
  {
    hide SetupCodec.Table, SetupCodec.Entries, Pack, Size;
  }

  /** A HASH-REPLY or FINACK: hash, then the responder's number. */
  lemma HashLayout(m: Setup.Msg)
    requires m.HashReply? || m.FinAck?
    ensures var b := Setup.Datagram(m);
            |b| == 18 && b[0] == 8 && b[1] == (if m.HashReply? then 5 else 6) && Number(b, 2, 8) == m.hash && Number(b, 10, 8) == m.nonce
  {
    var b := Setup.Datagram(m);
    Widths256();
    ValOfBe(8, m.hash);
    ValOfBe(8, m.nonce);
    assert b[2..10] == Be(8, m.hash) && b[10..18] == Be(8, m.nonce);
    hide Be, Val;
  }

  // ----- The resume trailer -----

  /** Bitmap, then identity, size, chunk size, chunk count and checksum, then the magic "FUSERSM1". */
  lemma TrailerLayout(file: Trailer.File, marks: seq<byte>, hash: Trailer.Hash)
    requires file.Ok()
    ensures var t, n := Trailer.TrailerBytes(file, marks, hash), |marks|;
            && |t| == n + 48 && t[..n] == marks
            && Number(t, n, 8) == file.id && Number(t, n + 8, 8) == file.Total() && Number(t, n + 16, 8) == file.chunk
            && Number(t, n + 24, 8) == file.Chunks() && Number(t, n + 32, 8) == hash(t[..n + 32])
            && t[n + 40..] == [0x46, 0x55, 0x53, 0x45, 0x52, 0x53, 0x4D, 0x31]
  {
    var key := Trailer.Key(file);
    var sum := hash(marks + key);
    assert Trailer.TrailerBytes(file, marks, hash) == marks + (key + Be(8, sum) + Trailer.MAGIC);
    hide Trailer.Key, Trailer.TrailerBytes, Be, Val;
    Trailer.KeyParts(file, key);
    Widths256();
    ValOfBe(8, sum);
    TrailerSlices(marks, key, Be(8, sum), Trailer.MAGIC);
  }

  lemma TrailerSlices(marks: seq<byte>, key: seq<byte>, sum: seq<byte>, magic: seq<byte>)
    requires |key| == 32 && |sum| == 8 && |magic| == 8
    ensures var t, n := marks + (key + sum + magic), |marks|;
            && |t| == n + 48 && t[..n] == marks && t[n..n + 8] == key[..8] && t[n + 8..n + 16] == key[8..16]
            && t[n + 16..n + 24] == key[16..24] && t[n + 24..n + 32] == key[24..]
            && t[n + 32..n + 40] == sum && t[..n + 32] == marks + key && t[n + 40..] == magic
  {
    var foot := key + sum + magic;
    assert foot[..8] == key[..8] && foot[8..16] == key[8..16] && foot[16..24] == key[16..24] && foot[24..32] == key[24..];
    assert foot[32..40] == sum && foot[40..] == magic && foot[..32] == key;
  }
}
