/**
 The SETUP configuration on the wire (setup.cpp): a stream table and an extension area,
 serialised once for sending and for hashing. A body decodes to a payload exactly when it
 is that payload's serialisation, byte for byte and with nothing after it.
 */
module SetupCodec {
  import opened Word64
  import opened Basics
  import opened Wire
  import Codec

  const MAX_STREAMS: nat := 64

  datatype StreamConfig = StreamConfig(id: nat, worker: nat, flags: nat, block: nat, window: nat)

  datatype Payload = Payload(version: nat, workers: nat, streams: seq<StreamConfig>, ext: seq<byte>)

  const ENTRY: seq<nat> := [2, 2, 1, 2, 2]

  /** Widths of the stream table's fields. */
  function Table(n: nat): (r: seq<nat>)
    ensures |r| == 5 * n
  {
    if n == 0 then [] else ENTRY + Table(n - 1)
  }

  /** Widths up to and including the length of the extension area. */
  function Widths(n: nat): (r: seq<nat>)
    ensures |r| == 4 + 5 * n
  {
    [1, 2, 2] + (Table(n) + [2])
  }

  function Entries(streams: seq<StreamConfig>): (r: seq<nat>)
    ensures |r| == 5 * |streams|
  {
    if streams == [] then []
    else var s := streams[0]; [s.id, s.worker, s.flags, s.block, s.window] + Entries(streams[1..])
  }

  function Streams(vs: seq<nat>, n: nat): (r: seq<StreamConfig>)
    requires |vs| == 5 * n
    ensures |r| == n
  {
    if n == 0 then [] else [StreamConfig(vs[0], vs[1], vs[2], vs[3], vs[4])] + Streams(vs[5..], n - 1)
  }

  lemma {:induction false} StreamsOfEntries(streams: seq<StreamConfig>)
    ensures Streams(Entries(streams), |streams|) == streams
  {
    if streams != [] {
      StreamsOfEntries(streams[1..]);
      assert Entries(streams)[5..] == Entries(streams[1..]);
    }
  }

  lemma {:induction false} EntriesOfStreams(vs: seq<nat>, n: nat)
    requires |vs| == 5 * n
    ensures Entries(Streams(vs, n)) == vs
  {
    if n > 0 {
      EntriesOfStreams(vs[5..], n - 1);
      assert Streams(vs, n)[1..] == Streams(vs[5..], n - 1);
      assert vs == [vs[0], vs[1], vs[2], vs[3], vs[4]] + vs[5..];
    }
  }

  function Fields(p: Payload): (r: seq<nat>)
    ensures |r| == 4 + 5 * |p.streams|
  {
    [p.version, p.workers, |p.streams|] + (Entries(p.streams) + [|p.ext|])
  }

  /** What the C++ types and the encoder's checks allow, and the decoder's check of the extensions. */
  ghost predicate Ok(p: Payload) {
    && |p.streams| <= MAX_STREAMS && |p.ext| <= Codec.MAX_EXTENSION && Acceptable(p.ext)
    && AllFit(Widths(|p.streams|), Fields(p))
  }

  /** `serialize_setup_payload`. */
  function Body(p: Payload): seq<byte> { Pack(Widths(|p.streams|), Fields(p)) + p.ext }

  /** `decode_setup_data` on what follows the outer header. */
  ghost function Decode(s: seq<byte>): Option<Payload> {
    if |s| < 5 then None
    else
      var n := Val(s[3..5]);
      if n > MAX_STREAMS || |s| < Size(Widths(n)) then None
      else
        var vs := Unpack(Widths(n), s);
        var e := vs[3 + 5 * n];
        var ext := s[Size(Widths(n))..];
        if e > Codec.MAX_EXTENSION || |ext| != e || !Acceptable(ext) then None
        else Some(Payload(vs[0], vs[1], Streams(vs[3..3 + 5 * n], n), ext))
  }

  lemma ThirdField(s: seq<byte>)
    requires |s| >= 5
    ensures Size([1, 2, 2]) == 5 && Unpack([1, 2, 2], s)[2] == Val(s[3..5])
  {
    var a, b := [2, 2], [2];
    assert [1, 2, 2][1..] == a && a[1..] == b && b[1..] == [];
    assert Size(b) == 2 && Size(a) == 4;
    assert s[1..][2..][..2] == s[3..5];
    hide Val;
    assert Unpack(b, s[1..][2..])[0] == Val(s[3..5]);
    assert Unpack(a, s[1..])[1] == Unpack(b, s[1..][2..])[0];
  }

  lemma HeadOf(n: nat, s: seq<byte>)
    requires Size(Widths(n)) <= |s|
    ensures |s| >= 5 && Unpack(Widths(n), s)[2] == Val(s[3..5])
  {
    hide Unpack, Size, Val;
    Codec.SizeFront([1, 2, 2], Table(n) + [2]);
    SizeOfHead();
    ThirdField(s);
    Codec.UnpackFront([1, 2, 2], Table(n) + [2], s);
  }

  lemma SizeOfHead()
    ensures Size([1, 2, 2]) == 5
  {
    assert [1, 2, 2][1..] == [2, 2] && [2, 2][1..] == [2] && [2][1..] == [];
  }

  lemma FieldsBack(vs: seq<nat>, n: nat, p: Payload)
    requires |vs| == 4 + 5 * n && |p.streams| == n
    ensures vs == Fields(p) <==> vs[0] == p.version && vs[1] == p.workers && vs[2] == n
                                 && vs[3..3 + 5 * n] == Entries(p.streams) && vs[3 + 5 * n] == |p.ext|
  {
    var f := Fields(p);
    assert f[3..3 + 5 * n] == Entries(p.streams) && f[3 + 5 * n] == |p.ext|;
    assert vs == [vs[0], vs[1], vs[2]] + (vs[3..3 + 5 * n] + [vs[3 + 5 * n]]);
  }

  lemma DecodeSound(s: seq<byte>, p: Payload)
    requires Decode(s) == Some(p)
    ensures Ok(p) && Body(p) == s
  {
    var n := Val(s[3..5]);
    var ws := Widths(n);
    var vs := Unpack(ws, s);
    HeadOf(n, s);
    EntriesOfStreams(vs[3..3 + 5 * n], n);
    FieldsBack(vs, n, p);
    PackUnpack(ws, vs, s);
    hide Acceptable, Pack, Unpack, Size, Fields, Widths, AllFit, Val, Entries, Streams;
    assert s == s[..Size(ws)] + s[Size(ws)..];
  }

  lemma DecodeComplete(p: Payload)
    requires Ok(p)
    ensures Decode(Body(p)) == Some(p)
  {
    var n := |p.streams|;
    var ws, s := Widths(n), Body(p);
    assert s[..Size(ws)] == Pack(ws, Fields(p)) && s[Size(ws)..] == p.ext;
    PackUnpack(ws, Fields(p), s);
    HeadOf(n, s);
    FieldsBack(Fields(p), n, p);
    StreamsOfEntries(p.streams);
    hide Acceptable, Pack, Unpack, Size, Fields, Widths, AllFit, Val, Entries, Streams;
  }

  /** Serialising and decoding are inverse, both ways. */
  lemma DecodeIs(s: seq<byte>, p: Payload)
    ensures Decode(s) == Some(p) <==> Ok(p) && Body(p) == s
  {
    hide Decode, Ok, Body;
    if Decode(s) == Some(p) { DecodeSound(s, p); }
    if Ok(p) && Body(p) == s { DecodeComplete(p); }
  }

  /** The decoder as it runs. */
  method DecodeData(s: seq<byte>) returns (r: Option<Payload>)
    ensures r == Decode(s)
  {
    if |s| < 5 { return None; }
    var n, _ := Get(s, 3, 2);
    hide Unpack, Size, Val, Acceptable, Widths;
    if n > MAX_STREAMS || |s| < Size(Widths(n)) { return None; }
    var vs := Codec.ReadFields(Widths(n), s);
    var e := vs[3 + 5 * n];
    var ext := s[Size(Widths(n))..];
    if e > Codec.MAX_EXTENSION || |ext| != e { return None; }
    var ok := ExtensionsAcceptable(ext);
    if !ok { return None; }
    r := Some(Payload(vs[0], vs[1], Streams(vs[3..3 + 5 * n], n), ext));
  }
}
