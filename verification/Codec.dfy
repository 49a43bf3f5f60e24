/**
 The message codecs (control.cpp, block.cpp). Every message is a list of big-endian
 fields whose widths depend on its kind and on one count field. Decoding is shown to
 be the exact inverse of encoding: a byte string decodes to a message if and only if the
 message is valid and the string starts with its encoding.
 */
module Codec {
  import opened Word64
  import opened Control
  import opened Basics
  import opened Registry
  import opened Tiling
  import opened Wire

  const VERSION: nat := 8
  const MAX_EXTENSION: nat := 256
  const RANGES_PER_MSG: nat := 64
  const DIGEST_LEN: nat := 32
  const SALT_LEN: nat := 16

  datatype Kind = KData | KHeartbeat | KAck | KNack | KStart | KClose | KRanges | KDigest | KRetry | KChallenge | KResponse
  {
    function Code(): nat {
      match this
      case KData => 0 case KHeartbeat => 1 case KAck => 2 case KNack => 3 case KStart => 7 case KClose => 11
      case KRanges => 12 case KDigest => 13 case KRetry => 14 case KChallenge => 15 case KResponse => 16
    }

    /** Field widths up to the repeated part. */
    function Head(): seq<nat> {
      match this
      case KData => [1, 1, 2, 8, 1, 2, 8, 8]
      case KHeartbeat => [1, 1, 2, 8]
      case KAck => [1, 1, 2, 8] + Copies(8, MASK_WORDS) + [8, 8, 4]
      case KNack => [1, 1, 2, 2]
      case KStart => [1, 1, 2, 8, 2, 8] + Copies(1, SALT_LEN) + [8, 8, 8, 8, 8, 2]
      case KClose => [1, 1, 2, 8, 1]
      case KRanges => [1, 1, 2, 8, 1, 2, 2, 2]
      case KDigest => [1, 1, 2, 8] + Copies(1, DIGEST_LEN)
      case KRetry | KChallenge | KResponse => [1, 1, 2, 8, 8]
    }

    /** Which field says how many items follow; none do if it is 0. */
    function CountAt(): nat {
      match this
      case KData => 5 case KNack => 3 case KStart => 27 case KRanges => 7 case _ => 0
    }

    /** How many fields of which width one item has, and how many items there may be. */
    function ItemFields(): nat { if this == KRanges then 2 else 1 }
    function ItemWidth(): nat { if this == KNack || this == KRanges then 8 else 1 }
    function Limit(): nat {
      match this
      case KData => MAX_PAYLOAD case KNack => MAX_WINDOW case KStart => MAX_EXTENSION case KRanges => RANGES_PER_MSG case _ => 0
    }

    function Widths(count: nat): seq<nat> { Head() + Copies(ItemWidth(), count * ItemFields()) }
  }

  function Copies(w: nat, n: nat): (r: seq<nat>)
    ensures |r| == n && forall i | 0 <= i < n :: r[i] == w
  {
    seq(n, _ => w)
  }

  lemma HeadLength(k: Kind)
    ensures |k.Head()| > k.CountAt() && |k.Head()| >= 4
    ensures k.Head()[0] == 1 && k.Head()[1] == 1
  {}

  // ----- Field lists -----

  function CountOf(k: Kind, vs: seq<nat>): nat
    requires k.CountAt() < |vs|
  {
    if k.CountAt() == 0 then 0 else vs[k.CountAt()]
  }

  /** A list of field values that is a well-formed message of kind `k`. */
  ghost predicate FieldsOk(k: Kind, vs: seq<nat>) {
    && |vs| >= |k.Head()| && (HeadLength(k); vs[0] == VERSION && vs[1] == k.Code())
    && CountOf(k, vs) <= k.Limit()
    && AllFit(k.Widths(CountOf(k, vs)), vs)
  }

  /** The decoders' common shape: fixed part, count, then the items the count announces. */
  function Parse(k: Kind, s: seq<byte>): Option<seq<nat>> {
    HeadLength(k);
    if |s| < Size(k.Head()) then None
    else
      var head := Unpack(k.Head(), s);
      if head[0] != VERSION || head[1] != k.Code() then None
      else
        var n := CountOf(k, head);
        if n > k.Limit() || |s| < Size(k.Widths(n)) then None
        else Some(Unpack(k.Widths(n), s))
  }

  lemma {:induction false} UnpackFront(a: seq<nat>, b: seq<nat>, s: seq<byte>)
    requires Size(a + b) <= |s|
    ensures Size(a) <= |s| && Unpack(a, s) == Unpack(a + b, s)[..|a|]
  {
    if a != [] {
      assert (a + b)[1..] == a[1..] + b && (a + b)[0] == a[0];
      UnpackFront(a[1..], b, s[a[0]..]);
    }
  }

  lemma {:induction false} SizeFront(a: seq<nat>, b: seq<nat>)
    ensures Size(a + b) == Size(a) + Size(b)
  {
    if a == [] {
      assert a + b == b;
    } else {
      assert (a + b)[1..] == a[1..] + b && (a + b)[0] == a[0];
      SizeFront(a[1..], b);
    }
  }

  /** A byte string parses to a field list exactly when it starts with that list's encoding. */
  lemma ParseIs(k: Kind, s: seq<byte>, vs: seq<nat>)
    ensures Parse(k, s) == Some(vs) <==> FieldsOk(k, vs) && Pack(k.Widths(CountOf(k, vs)), vs) <= s
  {
    HeadLength(k);
    if Parse(k, s) == Some(vs) {
      ParseSound(k, s, vs);
    }
    if FieldsOk(k, vs) && Pack(k.Widths(CountOf(k, vs)), vs) <= s {
      ParseComplete(k, s, vs);
    }
  }

  lemma ParseSound(k: Kind, s: seq<byte>, vs: seq<nat>)
    requires Parse(k, s) == Some(vs)
    ensures FieldsOk(k, vs) && Pack(k.Widths(CountOf(k, vs)), vs) <= s
  {
    HeadLength(k);
    var n := CountOf(k, Unpack(k.Head(), s));
    var ws := k.Widths(n);
    UnpackFront(k.Head(), Copies(k.ItemWidth(), n * k.ItemFields()), s);
    hide Kind.Head, Pack, Unpack, Size, AllFit, Kind.Code, Kind.CountAt, Kind.Limit;
    PackUnpack(ws, vs, s);
    assert |vs| == |ws| >= |k.Head()|;
    assert Unpack(k.Head(), s) == vs[..|k.Head()|];
  }

  lemma ParseComplete(k: Kind, s: seq<byte>, vs: seq<nat>)
    requires FieldsOk(k, vs) && Pack(k.Widths(CountOf(k, vs)), vs) <= s
    ensures Parse(k, s) == Some(vs)
  {
    HeadLength(k);
    var n := CountOf(k, vs);
    var ws := k.Widths(n);
    var tail := Copies(k.ItemWidth(), n * k.ItemFields());
    hide Kind.Head, Unpack, Size, AllFit, Kind.Code, Kind.CountAt, Kind.Limit, Copies, Pack;
    SizeFront(k.Head(), tail);
    PrefixBytes(ws, vs, s);
    PackUnpack(ws, vs, s);
    UnpackFront(k.Head(), tail, s);
    assert Unpack(k.Head(), s) == vs[..|k.Head()|];
  }

  lemma PrefixBytes(ws: seq<nat>, vs: seq<nat>, s: seq<byte>)
    requires |ws| == |vs| && Pack(ws, vs) <= s
    ensures Size(ws) <= |s| && Pack(ws, vs) == s[..Size(ws)]
  {
    assert |Pack(ws, vs)| == Size(ws);
  }

  // ----- Messages -----

  datatype Message =
    | Data(stream: nat, num: nat, flags: nat, offset: nat, sendTime: nat, payload: seq<byte>)
    | Heartbeat(stream: nat, highest: nat)
    | Acked(ack: Ack)
    | Nacked(nack: Nack)
    | Start(stream: nat, totalBlocks: nat, blockSize: nat, totalBytes: nat, salt: seq<byte>, nonce: nat,
            baseOffset: nat, fileTotal: nat, fileId: nat, token: nat, ext: seq<byte>)
    | Close(stream: nat, nonce: nat, reason: nat)
    | Ranges(stream: nat, nonce: nat, flags: nat, part: nat, parts: nat, ranges: seq<Range>)
    | Digest(stream: nat, nonce: nat, digest: seq<byte>)
    | Retry(stream: nat, nonce: nat, token: nat)
    | Probe(response: bool, stream: nat, nonce: nat, challenge: nat)
  {
    function Kind(): Kind {
      match this
      case Data(_, _, _, _, _, _) => KData
      case Heartbeat(_, _) => KHeartbeat
      case Acked(_) => KAck
      case Nacked(_) => KNack
      case Start(_, _, _, _, _, _, _, _, _, _, _) => KStart
      case Close(_, _, _) => KClose
      case Ranges(_, _, _, _, _, _) => KRanges
      case Digest(_, _, _) => KDigest
      case Retry(_, _, _) => KRetry
      case Probe(response, _, _, _) => if response then KResponse else KChallenge
    }

    function Fields(): seq<nat> {
      [VERSION, Kind().Code()] +
      match this
      case Data(stream, num, flags, offset, sendTime, payload) => [stream, num, flags, |payload|, offset, sendTime] + payload
      case Heartbeat(stream, highest) => [stream, highest]
      case Acked(a) => [a.streamId, a.base] + a.mask + [a.echo, a.nonce, a.rwnd]
      case Nacked(n) => [n.streamId, |n.missing|] + n.missing
      case Start(stream, blocks, size, bytes, salt, nonce, base, total, id, token, ext) =>
        [stream, blocks, size, bytes] + salt + [nonce, base, total, id, token, |ext|] + ext
      case Close(stream, nonce, reason) => [stream, nonce, reason]
      case Ranges(stream, nonce, flags, part, parts, ranges) => [stream, nonce, flags, part, parts, |ranges|] + Flattened(ranges)
      case Digest(stream, nonce, digest) => [stream, nonce] + digest
      case Retry(stream, nonce, token) => [stream, nonce, token]
      case Probe(_, stream, nonce, challenge) => [stream, nonce, challenge]
    }

    /** Fixed-size arrays have their size; the checks the decoders make beyond widths and counts. */
    ghost predicate Sound() {
      match this
      case Acked(a) => |a.mask| == MASK_WORDS
      case Start(_, _, _, _, salt, _, _, _, _, _, ext) => |salt| == SALT_LEN && Acceptable(ext)
      case Ranges(_, _, _, part, parts, _) => part < parts
      case Digest(_, _, digest) => |digest| == DIGEST_LEN
      case _ => true
    }

    /** Every field fits its width, every count its limit. */
    ghost predicate Valid() { Sound() && FieldsOk(Kind(), Fields()) }

    ghost function Bytes(): seq<byte>
      requires Valid()
    {
      Pack(Kind().Widths(CountOf(Kind(), Fields())), Fields())
    }
  }

  function Flattened(ranges: seq<Range>): (r: seq<nat>)
    ensures |r| == 2 * |ranges|
  {
    if ranges == [] then [] else [ranges[0].offset, ranges[0].length] + Flattened(ranges[1..])
  }

  function Paired(vs: seq<nat>): (r: seq<Range>)
    ensures |r| == |vs| / 2
  {
    if |vs| < 2 then [] else [Range(vs[0], vs[1])] + Paired(vs[2..])
  }

  lemma {:induction false} PairedFlattened(ranges: seq<Range>)
    ensures Paired(Flattened(ranges)) == ranges
  {
    if ranges != [] {
      PairedFlattened(ranges[1..]);
      assert Flattened(ranges)[2..] == Flattened(ranges[1..]);
    }
  }

  lemma {:induction false} FlattenedPaired(vs: seq<nat>)
    requires |vs| % 2 == 0
    ensures Flattened(Paired(vs)) == vs
  {
    if vs != [] {
      FlattenedPaired(vs[2..]);
      assert Paired(vs)[1..] == Paired(vs[2..]);
      assert vs == [vs[0], vs[1]] + vs[2..];
    }
  }

  lemma Widths256()
    ensures Pow256(1) == 256 && Pow256(8) == TWO64
  {
    assert Pow256(2) == 65536 && Pow256(4) == 0x1_0000_0000;
    assert Pow256(6) == 0x1_0000_0000_0000;
  }

  lemma FieldFits(k: Kind, vs: seq<nat>, i: nat)
    requires FieldsOk(k, vs) && i < |vs|
    ensures |vs| == |k.Widths(CountOf(k, vs))| && Fits(k.Widths(CountOf(k, vs))[i], vs[i])
  {}

  /** Fields `[lo, hi)` are bytes, if their widths are. */
  lemma AreBytes(k: Kind, vs: seq<nat>, lo: nat, hi: nat)
    requires FieldsOk(k, vs) && lo <= hi <= |vs|
    requires |vs| == |k.Widths(CountOf(k, vs))| ==> forall i | lo <= i < hi :: k.Widths(CountOf(k, vs))[i] == 1
    ensures forall i | lo <= i < hi :: vs[i] < 256
  {
    Widths256();
    hide Kind.Widths, FieldsOk;
    forall i | lo <= i < hi ensures vs[i] < 256 { FieldFits(k, vs, i); }
  }

  lemma AreWords(k: Kind, vs: seq<nat>, lo: nat, hi: nat)
    requires FieldsOk(k, vs) && lo <= hi <= |vs|
    requires |vs| == |k.Widths(CountOf(k, vs))| ==> forall i | lo <= i < hi :: k.Widths(CountOf(k, vs))[i] == 8
    ensures forall i | lo <= i < hi :: vs[i] < TWO64
  {
    Widths256();
    hide Kind.Widths, FieldsOk;
    forall i | lo <= i < hi ensures vs[i] < TWO64 { FieldFits(k, vs, i); }
  }

  function BytesIn(vs: seq<nat>, lo: nat, hi: nat): (r: seq<byte>)
    requires lo <= hi <= |vs| && forall i | lo <= i < hi :: vs[i] < 256
    ensures r == vs[lo..hi]
  {
    seq(hi - lo, i requires 0 <= i < hi - lo => vs[lo + i])
  }

  function WordsIn(vs: seq<nat>, lo: nat, hi: nat): (r: seq<uint64>)
    requires lo <= hi <= |vs| && forall i | lo <= i < hi :: vs[i] < TWO64
    ensures r == vs[lo..hi]
  {
    seq(hi - lo, i requires 0 <= i < hi - lo => vs[lo + i])
  }

  lemma StartBytes(vs: seq<nat>)
    requires FieldsOk(KStart, vs)
    ensures |vs| >= 28 && (forall i | 6 <= i < 22 :: vs[i] < 256) && forall i | 28 <= i < |vs| :: vs[i] < 256
  {
    AreBytes(KStart, vs, 6, 22);
    AreBytes(KStart, vs, 28, |vs|);
  }

  /** The message a field list stands for. */
  function From(k: Kind, vs: seq<nat>): Message
    requires FieldsOk(k, vs)
  {
    match k
    case KData => AreBytes(k, vs, 8, |vs|); Data(vs[2], vs[3], vs[4], vs[6], vs[7], BytesIn(vs, 8, |vs|))
    case KHeartbeat => Heartbeat(vs[2], vs[3])
    case KAck => AreWords(k, vs, 4, 20); Acked(Ack(vs[2], vs[3], WordsIn(vs, 4, 20), vs[20], vs[21], vs[22]))
    case KNack => Nacked(Nack(vs[2], vs[4..]))
    case KStart =>
      StartBytes(vs);
      Start(vs[2], vs[3], vs[4], vs[5], BytesIn(vs, 6, 22), vs[22], vs[23], vs[24], vs[25], vs[26], BytesIn(vs, 28, |vs|))
    case KClose => Close(vs[2], vs[3], vs[4])
    case KRanges => Ranges(vs[2], vs[3], vs[4], vs[5], vs[6], Paired(vs[8..]))
    case KDigest => AreBytes(k, vs, 4, 36); Digest(vs[2], vs[3], BytesIn(vs, 4, 36))
    case KRetry => Retry(vs[2], vs[3], vs[4])
    case KChallenge => Probe(false, vs[2], vs[3], vs[4])
    case KResponse => Probe(true, vs[2], vs[3], vs[4])
  }

  lemma FieldsLength(k: Kind, vs: seq<nat>)
    requires FieldsOk(k, vs)
    ensures |vs| == |k.Head()| + CountOf(k, vs) * k.ItemFields()
    ensures vs[0] == VERSION && vs[1] == k.Code()
  {}

  // One kind at a time: fields to message and back.

  lemma DataFromFields(m: Message)
    requires m.Data? && m.Valid()
    ensures From(KData, m.Fields()) == m
  {
    hide AllFit, Pow256;
    assert m.Fields()[8..] == m.payload;
  }

  lemma DataFields(vs: seq<nat>)
    requires FieldsOk(KData, vs)
    ensures From(KData, vs).Data? && From(KData, vs).Fields() == vs
  {
    FieldsLength(KData, vs);
    hide FieldsOk;
    assert vs == [vs[0], vs[1]] + ([vs[2], vs[3], vs[4], vs[5], vs[6], vs[7]] + vs[8..]);
  }

  lemma AckedFromFields(m: Message)
    requires m.Acked? && m.Valid()
    ensures From(KAck, m.Fields()) == m
  {
    hide AllFit, Pow256;
    assert m.Fields()[4..20] == m.ack.mask;
  }

  lemma AckedFields(vs: seq<nat>)
    requires FieldsOk(KAck, vs)
    ensures From(KAck, vs).Acked? && From(KAck, vs).Fields() == vs
  {
    FieldsLength(KAck, vs);
    hide FieldsOk;
    assert vs == [vs[0], vs[1]] + ([vs[2], vs[3]] + vs[4..20] + [vs[20], vs[21], vs[22]]);
  }

  lemma NackedFromFields(m: Message)
    requires m.Nacked? && m.Valid()
    ensures From(KNack, m.Fields()) == m
  {
    hide AllFit, Pow256;
    assert m.Fields()[4..] == m.nack.missing;
  }

  lemma NackedFields(vs: seq<nat>)
    requires FieldsOk(KNack, vs)
    ensures From(KNack, vs).Nacked? && From(KNack, vs).Fields() == vs
  {
    FieldsLength(KNack, vs);
    hide FieldsOk;
    assert vs == [vs[0], vs[1]] + ([vs[2], vs[3]] + vs[4..]);
  }

  lemma StartFromFields(m: Message)
    requires m.Start? && m.Valid()
    ensures From(KStart, m.Fields()) == m
  {
    hide AllFit, Pow256;
    assert m.Fields()[6..22] == m.salt && m.Fields()[28..] == m.ext;
  }

  lemma StartSplit(vs: seq<nat>)
    requires |vs| >= 28
    ensures vs == [vs[0], vs[1]]
                  + ([vs[2], vs[3], vs[4], vs[5]] + vs[6..22] + [vs[22], vs[23], vs[24], vs[25], vs[26], vs[27]] + vs[28..])
  {}

  lemma StartFields(vs: seq<nat>)
    requires FieldsOk(KStart, vs)
    ensures From(KStart, vs).Start? && From(KStart, vs).Fields() == vs
  {
    FieldsLength(KStart, vs);
    hide FieldsOk;
    assert |vs| == 28 + vs[27];
    hide Kind.Head, Kind.Widths, CountOf, AllFit;
    StartSplit(vs);
  }

  lemma RangesFromFields(m: Message)
    requires m.Ranges? && m.Valid()
    ensures From(KRanges, m.Fields()) == m
  {
    hide AllFit, Pow256;
    assert m.Fields()[8..] == Flattened(m.ranges);
    PairedFlattened(m.ranges);
  }

  lemma RangesFields(vs: seq<nat>)
    requires FieldsOk(KRanges, vs)
    ensures From(KRanges, vs).Ranges? && From(KRanges, vs).Fields() == vs
  {
    FieldsLength(KRanges, vs);
    assert |vs| == 8 + 2 * vs[7];
    hide FieldsOk, Kind.Head, Kind.Widths, Flattened, Paired, CountOf, Kind.ItemFields;
    FlattenedPaired(vs[8..]);
    assert |vs[8..]| == 2 * vs[7];
    assert vs == [vs[0], vs[1]] + ([vs[2], vs[3], vs[4], vs[5], vs[6], vs[7]] + vs[8..]);
  }

  lemma DigestFromFields(m: Message)
    requires m.Digest? && m.Valid()
    ensures From(KDigest, m.Fields()) == m
  {
    hide AllFit, Pow256;
    assert m.Fields()[4..] == m.digest;
  }

  lemma DigestFields(vs: seq<nat>)
    requires FieldsOk(KDigest, vs)
    ensures From(KDigest, vs).Digest? && From(KDigest, vs).Fields() == vs
  {
    FieldsLength(KDigest, vs);
    hide FieldsOk;
    assert vs == [vs[0], vs[1]] + ([vs[2], vs[3]] + vs[4..]);
  }

  lemma PlainFromFields(m: Message)
    requires (m.Heartbeat? || m.Close? || m.Retry? || m.Probe?) && m.Valid()
    ensures From(m.Kind(), m.Fields()) == m
  {
    hide AllFit, Pow256;
  }

  lemma HeartbeatFields(vs: seq<nat>)
    requires FieldsOk(KHeartbeat, vs)
    ensures From(KHeartbeat, vs).Heartbeat? && From(KHeartbeat, vs).Fields() == vs
  {
    FieldsLength(KHeartbeat, vs);
    hide FieldsOk;
    assert vs == [vs[0], vs[1]] + [vs[2], vs[3]];
  }

  lemma CloseFields(vs: seq<nat>)
    requires FieldsOk(KClose, vs)
    ensures From(KClose, vs).Close? && From(KClose, vs).Fields() == vs
  {
    FieldsLength(KClose, vs);
    hide FieldsOk;
    assert vs == [vs[0], vs[1]] + [vs[2], vs[3], vs[4]];
  }

  lemma RetryFields(vs: seq<nat>)
    requires FieldsOk(KRetry, vs)
    ensures From(KRetry, vs).Retry? && From(KRetry, vs).Fields() == vs
  {
    FieldsLength(KRetry, vs);
    hide FieldsOk;
    assert vs == [vs[0], vs[1]] + [vs[2], vs[3], vs[4]];
  }

  lemma ProbeFields(response: bool, vs: seq<nat>)
    requires FieldsOk(if response then KResponse else KChallenge, vs)
    ensures var m := From(if response then KResponse else KChallenge, vs);
            m.Probe? && m.response == response && m.Fields() == vs
  {
    FieldsLength(if response then KResponse else KChallenge, vs);
    hide FieldsOk;
    assert vs == [vs[0], vs[1]] + [vs[2], vs[3], vs[4]];
  }

  lemma FromFields(m: Message)
    requires m.Valid()
    ensures From(m.Kind(), m.Fields()) == m
  {
    hide Message.Fields, From, FieldsOk;
    match m
    case Data(_, _, _, _, _, _) => DataFromFields(m);
    case Acked(_) => AckedFromFields(m);
    case Nacked(_) => NackedFromFields(m);
    case Start(_, _, _, _, _, _, _, _, _, _, _) => StartFromFields(m);
    case Ranges(_, _, _, _, _, _) => RangesFromFields(m);
    case Digest(_, _, _) => DigestFromFields(m);
    case _ => PlainFromFields(m);
  }

  lemma FieldsFrom(k: Kind, vs: seq<nat>)
    requires FieldsOk(k, vs)
    ensures From(k, vs).Kind() == k && From(k, vs).Fields() == vs
  {
    hide Message.Fields, From, FieldsOk;
    match k
    case KData => DataFields(vs);
    case KAck => AckedFields(vs);
    case KNack => NackedFields(vs);
    case KStart => StartFields(vs);
    case KRanges => RangesFields(vs);
    case KDigest => DigestFields(vs);
    case KHeartbeat => HeartbeatFields(vs);
    case KClose => CloseFields(vs);
    case KRetry => RetryFields(vs);
    case KChallenge => ProbeFields(false, vs);
    case KResponse => ProbeFields(true, vs);
  }

  // ----- Decoding -----

  /** `decode_*`: the message of kind `k` at the front of `s`, if there is one. */
  ghost function Decode(k: Kind, s: seq<byte>): Option<Message> {
    match Parse(k, s)
    case None => None
    case Some(vs) => ParseIs(k, s, vs); if From(k, vs).Sound() then Some(From(k, vs)) else None
  }

  /**
   Decoding and encoding are inverse, both ways and for every byte string: `s` decodes to `m`
   exactly when `m` is valid and `s` starts with the encoding of `m`, whatever follows.
   */
  lemma DecodeIs(k: Kind, s: seq<byte>, m: Message)
    ensures Decode(k, s) == Some(m) <==> m.Valid() && m.Kind() == k && m.Bytes() <= s
  {
    hide FieldsOk, Parse, From, Pack, Message.Fields, Message.Kind, Message.Sound;
    if Decode(k, s) == Some(m) {
      var vs := Parse(k, s).value;
      ParseIs(k, s, vs);
      FieldsFrom(k, vs);
    }
    if m.Valid() && m.Kind() == k && m.Bytes() <= s {
      ParseIs(k, s, m.Fields());
      FromFields(m);
    }
  }

  /** Round trip, with anything at all after the message. */
  lemma RoundTrip(m: Message, trailing: seq<byte>)
    requires m.Valid()
    ensures Decode(m.Kind(), m.Bytes() + trailing) == Some(m)
  {
    DecodeIs(m.Kind(), m.Bytes() + trailing, m);
  }

  /** At most one kind of message decodes from any byte string. */
  lemma OneKindDecodes(s: seq<byte>, j: Kind, k: Kind)
    requires Decode(j, s).Some? && Decode(k, s).Some?
    ensures j == k
  {
    SecondByte(s, j);
    SecondByte(s, k);
    hide Decode;
  }

  lemma SecondByte(s: seq<byte>, k: Kind)
    requires Parse(k, s).Some?
    ensures |s| >= 2 && s[0] == VERSION && s[1] == k.Code()
  {
    HeadLength(k);
    var ws := k.Head();
    var head := Unpack(ws, s);
    assert ws[1..][0] == 1 && head[1] == Unpack(ws[1..], s[1..])[0];
    OneByte(s[..1]);
    OneByte(s[1..][..1]);
  }

  lemma OneByte(s: seq<byte>)
    requires |s| == 1
    ensures Val(s) == s[0]
  {
    assert s[..0] == [];
  }

  /** No encoding is the beginning of another: two messages with a common datagram are the same. */
  lemma EncodingsAreDistinct(m: Message, n: Message, s: seq<byte>)
    requires m.Valid() && n.Valid() && m.Bytes() <= s && n.Bytes() <= s
    ensures m == n
  {
    DecodeIs(m.Kind(), s, m);
    DecodeIs(n.Kind(), s, n);
    OneKindDecodes(s, m.Kind(), n.Kind());
    hide Decode;
  }

  // ----- Other versions -----

  const MISMATCH_MARKER: nat := 0xFF

  /** `encode_version_mismatch` as an endpoint of version `v` sends it. */
  function Mismatch(v: byte): seq<byte> { [v, MISMATCH_MARKER, v] }

  /** `decode_version_mismatch`: the peer's version, if this is such a reply from another version. */
  function PeerVersion(s: seq<byte>): Option<byte> {
    if |s| < 3 || s[1] != MISMATCH_MARKER || s[0] != s[2] || s[0] == VERSION then None else Some(s[0])
  }

  predicate Foreign(s: seq<byte>) { |s| >= 2 && s[0] != VERSION && s[1] != MISMATCH_MARKER }

  /**
   A mismatch reply tells the sender's version to every other version and nothing to its own; it is
   never taken for a message or for something to answer with another reply.
   */
  lemma MismatchIsUnderstood(v: byte, trailing: seq<byte>, k: Kind)
    ensures var s := Mismatch(v) + trailing;
            PeerVersion(s) == (if v != VERSION then Some(v) else None) && !Foreign(s) && Decode(k, s) == None
  {
    var s := Mismatch(v) + trailing;
    if Parse(k, s).Some? { SecondByte(s, k); }
  }

  /** What is foreign, or a mismatch reply, decodes as no message at all. */
  lemma ForeignDecodesNothing(s: seq<byte>, k: Kind)
    requires Foreign(s) || PeerVersion(s).Some?
    ensures Decode(k, s) == None
  {
    if Parse(k, s).Some? { SecondByte(s, k); }
  }

  // ----- The encoders and decoders as loops over a buffer -----

  lemma SizeAt(ws: seq<nat>, i: nat)
    requires i < |ws|
    ensures Size(ws[i..]) == ws[i] + Size(ws[i + 1..])
  {
    assert ws[i..][1..] == ws[i + 1..];
  }

  lemma PackAt(ws: seq<nat>, vs: seq<nat>, i: nat)
    requires |ws| == |vs| && i < |ws|
    ensures Pack(ws[i..], vs[i..]) == Be(ws[i], vs[i]) + Pack(ws[i + 1..], vs[i + 1..])
  {
    assert ws[i..][1..] == ws[i + 1..] && vs[i..][1..] == vs[i + 1..];
  }

  /** Puts the fields one after the other. */
  method WriteFields(ws: seq<nat>, vs: seq<nat>, p: array<byte>) returns (off: nat)
    requires |ws| == |vs| && Size(ws) <= p.Length
    modifies p
    ensures off == Size(ws) && p[..] == Splice(old(p[..]), 0, Pack(ws, vs))
  {
    off := 0;
    ghost var goal := Splice(p[..], 0, Pack(ws, vs));
    assert ws[0..] == ws && vs[0..] == vs;
    hide Pack, Size, Splice, Be;
    for i := 0 to |ws|
      invariant off + Size(ws[i..]) == Size(ws) <= p.Length
      invariant Splice(p[..], off, Pack(ws[i..], vs[i..])) == goal
    {
      SizeAt(ws, i);
      PackAt(ws, vs, i);
      ghost var was := p[..];
      var n := Put(p, off, ws[i], vs[i]);
      SpliceNext(was, off, Be(ws[i], vs[i]), Pack(ws[i + 1..], vs[i + 1..]));
      off := off + n;
    }
    EmptyFields(ws[|ws|..], vs[|vs|..], p[..], off);
  }

  lemma EmptyFields(ws: seq<nat>, vs: seq<nat>, s: seq<byte>, off: nat)
    requires |ws| == |vs| == 0 && off <= |s|
    ensures Size(ws) == 0 && Splice(s, off, Pack(ws, vs)) == s && Unpack(ws, s) == []
  {}

  /** The C++ field types: what a message holds before any check. */
  ghost predicate Typed(m: Message) {
    && (m.Acked? ==> |m.ack.mask| == MASK_WORDS) && (m.Start? ==> |m.salt| == SALT_LEN) && (m.Digest? ==> |m.digest| == DIGEST_LEN)
    && m.Kind().CountAt() < |m.Fields()| && AllFit(m.Kind().Widths(CountOf(m.Kind(), m.Fields())), m.Fields())
  }

  /** What the encoders refuse. An unacceptable extension area is not among it: only decoding looks inside. */
  predicate Refused(m: Message)
    requires m.Kind().CountAt() < |m.Fields()|
  {
    CountOf(m.Kind(), m.Fields()) > m.Kind().Limit() || (m.Ranges? && m.part >= m.parts)
  }

  /** No message that some decoder would accept is refused by its encoder. */
  lemma ValidIsNotRefused(m: Message)
    requires m.Valid()
    ensures !Refused(m)
  {
    hide Acceptable, Kind.Widths;
  }

  /** `encode_*`: the length written, or 0 with the buffer untouched. */
  method Encode(m: Message, p: array<byte>, cap: nat) returns (n: nat)
    requires Typed(m) && cap <= p.Length
    modifies p
    ensures var ws := m.Kind().Widths(CountOf(m.Kind(), m.Fields()));
            var ok := !Refused(m) && Size(ws) <= cap;
            && n == (if ok then Size(ws) else 0)
            && p[..] == if ok then Splice(old(p[..]), 0, Pack(ws, m.Fields())) else old(p[..])
  {
    hide Message.Fields, Kind.Head, Pack, Size, Splice, Fits;
    var ws := m.Kind().Widths(CountOf(m.Kind(), m.Fields()));
    if Refused(m) || cap < Size(ws) { return 0; }
    n := WriteFields(ws, m.Fields(), p);
  }

  /** What `Encode` writes decodes, unless a StreamStart carries an extension area nobody may accept. */
  lemma EncodedDecodes(m: Message, trailing: seq<byte>)
    requires Typed(m) && !Refused(m)
    ensures var bytes := Pack(m.Kind().Widths(CountOf(m.Kind(), m.Fields())), m.Fields()) + trailing;
            Decode(m.Kind(), bytes) == Some(m) <==> (m.Start? ==> Acceptable(m.ext))
  {
    var k := m.Kind();
    var bytes := Pack(k.Widths(CountOf(k, m.Fields())), m.Fields()) + trailing;
    HeadLength(k);
    assert m.Fields()[0] == VERSION && m.Fields()[1] == k.Code();
    assert FieldsOk(k, m.Fields());
    DecodeIs(k, bytes, m);
    hide Message.Fields, Pack, FieldsOk, Decode, Acceptable;
  }

  lemma UnpackAt(ws: seq<nat>, i: nat, s: seq<byte>, off: nat)
    requires i < |ws| && off + Size(ws[i..]) <= |s|
    ensures Size(ws[i..]) == ws[i] + Size(ws[i + 1..])
    ensures Unpack(ws[i..], s[off..]) == [Val(s[off..off + ws[i]])] + Unpack(ws[i + 1..], s[off + ws[i]..])
  {
    SizeAt(ws, i);
    assert ws[i..][1..] == ws[i + 1..];
    assert s[off..][..ws[i]] == s[off..off + ws[i]] && s[off..][ws[i]..] == s[off + ws[i]..];
  }

  /** Gets the fields one after the other, never past the end. */
  method ReadFields(ws: seq<nat>, s: seq<byte>) returns (vs: seq<nat>)
    requires Size(ws) <= |s|
    ensures vs == Unpack(ws, s)
  {
    vs := [];
    var off: nat := 0;
    assert ws[0..] == ws && s[0..] == s;
    hide Unpack, Size, Val;
    for i := 0 to |ws|
      invariant off + Size(ws[i..]) == Size(ws)
      invariant vs + Unpack(ws[i..], s[off..]) == Unpack(ws, s)
    {
      UnpackAt(ws, i, s, off);
      var v, n := Get(s, off, ws[i]);
      SeqAssoc(vs, [v], Unpack(ws[i + 1..], s[off + ws[i]..]));
      vs := vs + [v];
      off := off + n;
    }
    EmptyFields(ws[|ws|..], [], s[off..], 0);
  }

  /** `decode_*` up to building the message: every read is inside the datagram, whatever its bytes. */
  method DecodeFields(k: Kind, s: seq<byte>) returns (r: Option<seq<nat>>)
    ensures r == Parse(k, s)
  {
    HeadLength(k);
    hide Kind.Head, Unpack, Size;
    if |s| < Size(k.Head()) { return None; }
    var head := ReadFields(k.Head(), s);
    if head[0] != VERSION || head[1] != k.Code() { return None; }
    var n := CountOf(k, head);
    if n > k.Limit() || |s| < Size(k.Widths(n)) { return None; }
    var vs := ReadFields(k.Widths(n), s);
    r := Some(vs);
  }
}
