/**
 The SETUP handshake (setup.cpp): DATA, HASH-REPLY, FINACK between an initiator and a
 responder, over a network that loses, repeats, reorders and delays everything, delivers
 leftovers of earlier sessions, and corrupts DATA at will.
 */
module Setup {
  import opened Word64
  import opened Control
  import opened Basics
  import opened Registry
  import opened Wire
  import opened SetupCodec
  import Codec

  type Hash = seq<byte> -> uint64

  /** A datagram past its outer header; `Other` is everything the handshake ignores. */
  datatype Msg = Data(body: seq<byte>) | HashReply(hash: uint64, nonce: uint64) | FinAck(hash: uint64, nonce: uint64) | Other

  const SETUP_DATA: nat := 4
  const SETUP_HASH_REPLY: nat := 5
  const SETUP_FIN_ACK: nat := 6

  /** A message as a datagram. */
  function Datagram(m: Msg): seq<byte>
    requires !m.Other?
  {
    match m
    case Data(body) => [Codec.VERSION, SETUP_DATA] + body
    case HashReply(h, n) => [Codec.VERSION, SETUP_HASH_REPLY] + Be(8, h) + Be(8, n)
    case FinAck(h, n) => [Codec.VERSION, SETUP_FIN_ACK] + Be(8, h) + Be(8, n)
  }

  /** What either end makes of a datagram: hash messages have exactly their length. */
  function Peek(s: seq<byte>): Msg {
    if |s| < 2 || s[0] != Codec.VERSION then Other
    else if s[1] == SETUP_DATA then Data(s[2..])
    else if (s[1] != SETUP_HASH_REPLY && s[1] != SETUP_FIN_ACK) || |s| != 18 then Other
    else
      Codec.Widths256(); ValFits(s[2..10]); ValFits(s[10..18]);
      var h, n := Val(s[2..10]), Val(s[10..18]);
      if s[1] == SETUP_HASH_REPLY then HashReply(h, n) else FinAck(h, n)
  }

  /** Reading a datagram inverts writing it. */
  lemma PeekIs(s: seq<byte>, m: Msg)
    requires !m.Other?
    ensures Peek(s) == m <==> Datagram(m) == s
  {
    Codec.Widths256();
    if |s| >= 2 { assert s == [s[0], s[1]] + s[2..]; }
    if m.Data? {
      assert Datagram(m)[2..] == m.body;
    } else {
      var d := Datagram(m);
      assert d[2..10] == Be(8, m.hash) && d[10..18] == Be(8, m.nonce);
      if |s| == 18 {
        FieldIs(8, m.hash, s[2..10]);
        FieldIs(8, m.nonce, s[10..18]);
        assert s == [s[0], s[1]] + s[2..10] + s[10..18];
      }
    }
  }

  // ----- What a responder accepts -----

  ghost predicate StreamUsable(s: StreamConfig) {
    1 <= s.block <= MAX_PAYLOAD && 1 <= s.window <= MAX_WINDOW
  }

  ghost predicate Usable(p: Payload) {
    && p.version == Codec.VERSION && |p.streams| <= MAX_STREAMS
    && (forall i | 0 <= i < |p.streams| :: StreamUsable(p.streams[i]))
    && (forall i, j | 0 <= j < i < |p.streams| :: p.streams[j].id != p.streams[i].id)
  }

  /** A usable configuration names each of its streams once. */
  lemma UsableIdsAreDistinct(p: Payload)
    requires Usable(p)
    ensures |set i | 0 <= i < |p.streams| :: p.streams[i].id| == |p.streams| <= MAX_STREAMS
  {
    IdsOf(p, |p.streams|);
    assert (set i | 0 <= i < |p.streams| :: p.streams[i].id) == Ids(p, |p.streams|);
  }

  ghost function Ids(p: Payload, n: nat): set<nat>
    requires n <= |p.streams|
  {
    set i | 0 <= i < n :: p.streams[i].id
  }

  lemma {:induction false} IdsOf(p: Payload, n: nat)
    requires Usable(p) && n <= |p.streams|
    ensures |Ids(p, n)| == n
  {
    if n > 0 {
      IdsOf(p, n - 1);
      assert Ids(p, n) == Ids(p, n - 1) + {p.streams[n - 1].id};
    } else {
      assert Ids(p, 0) == {};
    }
  }

  /** `setup_payload_valid`. */
  method PayloadValid(p: Payload) returns (ok: bool)
    ensures ok <==> Usable(p)
  {
    if p.version != Codec.VERSION || |p.streams| > MAX_STREAMS { return false; }
    for i := 0 to |p.streams|
      invariant forall k | 0 <= k < i :: StreamUsable(p.streams[k])
      invariant forall k, j | 0 <= j < k < i :: p.streams[j].id != p.streams[k].id
    {
      var s := p.streams[i];
      if s.block == 0 || s.block > MAX_PAYLOAD || s.window == 0 || s.window > MAX_WINDOW {
        assert !StreamUsable(p.streams[i]);
        return false;
      }
      for j := 0 to i
        invariant forall k | 0 <= k < j :: p.streams[k].id != s.id
      {
        if p.streams[j].id == s.id { return false; }
      }
    }
    ok := true;
  }

  // ----- The two ends, as values -----

  datatype Initiator = Initiator(
    payload: Payload, myHash: uint64, nonce: uint64, lastSend: uint64, retries: nat,
    dataSent: bool, matched: bool, failed: bool)

  datatype Responder = Responder(
    config: Option<Payload>, body: seq<byte>, myHash: uint64, nonce: uint64, lastSend: uint64, retries: nat,
    replySent: bool, complete: bool, failed: bool)

  datatype Timer = Timer(timeout: uint64, maxRetries: nat)

  const IDLE: Responder := Responder(None, [], 0, 0, 0, 0, false, false, false)

  function Offer(payload: Payload, hash: Hash): Initiator {
    Initiator(payload, hash(Body(payload)), 0, 0, 0, false, false, false)
  }

  /** The initiator on any datagram, and what it answers. */
  function InitOn(i: Initiator, m: Msg, now: uint64): (Initiator, Option<Msg>) {
    if !m.HashReply? || m.hash != i.myHash then (i, None)
    else (i.(matched := true, nonce := m.nonce, lastSend := now), Some(FinAck(i.myHash, m.nonce)))
  }

  /** The responder on any datagram; `draw` is the random number it would draw now. */
  ghost function RespOn(r: Responder, m: Msg, hash: Hash, draw: uint64, now: uint64): (Responder, Option<Msg>) {
    match m
    case Data(body) =>
      var p := Decode(body);
      if r.complete || p.None? || !Usable(p.value) then (r, None)
      else
        var h := hash(body);
        var nonce := if !r.replySent || h != r.myHash then draw else r.nonce;
        (r.(config := p, body := body, myHash := h, nonce := nonce, lastSend := now, replySent := true),
         Some(HashReply(h, nonce)))
    case FinAck(h, n) => (if r.replySent && h == r.myHash && n == r.nonce then r.(complete := true) else r, None)
    case _ => (r, None)
  }

  function InitTimeout(i: Initiator, t: Timer, now: uint64): (Initiator, Option<Msg>) {
    if i.matched || i.failed || !i.dataSent || Sub64(now, i.lastSend) < t.timeout then (i, None)
    else if i.retries >= t.maxRetries then (i.(failed := true), None)
    else (i.(retries := i.retries + 1, lastSend := now), Some(Data(Body(i.payload))))
  }

  function RespTimeout(r: Responder, t: Timer, now: uint64): (Responder, Option<Msg>) {
    if r.complete || r.failed || !r.replySent || Sub64(now, r.lastSend) < t.timeout then (r, None)
    else if r.retries >= t.maxRetries then (r.(failed := true), None)
    else (r.(retries := r.retries + 1, lastSend := now), Some(HashReply(r.myHash, r.nonce)))
  }

  // ----- A handshake on a bad network -----

  /**
   `offers`, `replies` and `fins` are all DATAs, HASH-REPLYs and FINACKs sent in this session; `stale` are
   those that may still be around from earlier ones; `drawn` are all random numbers drawn so
   far, including those that stale messages carry; `last` is the HASH-REPLY sent last.
   `initResends` and `respResends` count timer resends.
   */
  datatype Net = Net(
    i: Initiator, r: Responder, offers: set<Msg>, replies: set<Msg>, fins: set<Msg>, stale: set<Msg>, drawn: set<nat>,
    last: Option<Msg>, initResends: nat, respResends: nat)

  datatype Step =
    | Start(now: uint64)
    | ToInitiator(m: Msg, now: uint64)
    | ToResponder(m: Msg, draw: uint64, now: uint64)
    | InitTimer(now: uint64)
    | RespTimer(now: uint64)

  ghost predicate Enabled(net: Net, step: Step) {
    match step
    case ToInitiator(m, _) => m.HashReply? ==> m in net.replies + net.stale
    // DATA may be anything at all; a FINACK is one that was sent; a drawn number is new.
    case ToResponder(m, draw, _) => (m.FinAck? ==> m in net.fins + net.stale) && draw !in net.drawn
    case _ => true
  }

  ghost function Next(net: Net, hash: Hash, t: Timer, step: Step): Net {
    match step
    case Start(now) => net.(i := net.i.(dataSent := true, lastSend := now), offers := net.offers + {Data(Body(net.i.payload))})
    case ToInitiator(m, now) =>
      var (i, out) := InitOn(net.i, m, now);
      net.(i := i, fins := if out.Some? then net.fins + {out.value} else net.fins)
    case ToResponder(m, draw, now) =>
      var (r, out) := RespOn(net.r, m, hash, draw, now);
      net.(r := r, replies := if out.Some? then net.replies + {out.value} else net.replies, drawn := net.drawn + {draw},
           last := if out.Some? then out else net.last)
    case InitTimer(now) =>
      var (i, out) := InitTimeout(net.i, t, now);
      net.(i := i, offers := if out.Some? then net.offers + {out.value} else net.offers, initResends := net.initResends + if out.Some? then 1 else 0)
    case RespTimer(now) =>
      var (r, out) := RespTimeout(net.r, t, now);
      net.(r := r, replies := if out.Some? then net.replies + {out.value} else net.replies,
           last := if out.Some? then out else net.last,
           respResends := net.respResends + if out.Some? then 1 else 0)
  }

  /** The responder's state hangs together: what it hashed is what it decoded. */
  ghost predicate RespOk(r: Responder, hash: Hash) {
    && (r.replySent <==> r.config.Some?)
    && (r.replySent ==> r.myHash == hash(r.body) && Decode(r.body) == r.config && Usable(r.config.value))
    && (r.complete ==> r.replySent)
  }

  /** Every FINACK of this session carries the initiator's hash and answers a HASH-REPLY still known. */
  ghost predicate FinsOk(net: Net) {
    forall f <- net.fins :: f.FinAck? && f.hash == net.i.myHash && HashReply(f.hash, f.nonce) in net.replies + net.stale
  }

  /** The responder's number was drawn in this session, so nothing stale carries it. */
  ghost predicate NonceOk(net: Net) {
    && (forall m <- net.stale :: (m.HashReply? || m.FinAck?) && m.nonce in net.drawn)
    && (net.r.replySent ==> net.r.nonce in net.drawn && HashReply(net.r.myHash, net.r.nonce) in net.replies
                            && forall m <- net.stale :: m.nonce != net.r.nonce)
  }

  /** A completed responder was completed by a FINACK that answers its own HASH-REPLY. */
  ghost predicate DoneOk(net: Net) {
    net.r.complete ==> net.r.myHash == net.i.myHash && FinAck(net.r.myHash, net.r.nonce) in net.fins
  }

  ghost predicate Inv(net: Net, hash: Hash, t: Timer) {
    && net.i.myHash == hash(Body(net.i.payload))
    && net.offers == (if net.i.dataSent then {Data(Body(net.i.payload))} else {})
    && net.last == (if net.r.replySent then Some(HashReply(net.r.myHash, net.r.nonce)) else None)
    && RespOk(net.r, hash) && FinsOk(net) && NonceOk(net) && DoneOk(net)
    && net.initResends == net.i.retries <= t.maxRetries && net.respResends == net.r.retries <= t.maxRetries
  }

  function Begin(payload: Payload, hash: Hash, stale: set<Msg>, drawn: set<nat>): Net {
    Net(Offer(payload, hash), IDLE, {}, {}, {}, stale, drawn, None, 0, 0)
  }

  lemma ToInitiatorStep(net: Net, hash: Hash, t: Timer, m: Msg, now: uint64)
    requires Inv(net, hash, t) && Enabled(net, ToInitiator(m, now))
    ensures Inv(Next(net, hash, t, ToInitiator(m, now)), hash, t)
  {}

  lemma ToResponderStep(net: Net, hash: Hash, t: Timer, m: Msg, draw: uint64, now: uint64)
    requires Inv(net, hash, t) && Enabled(net, ToResponder(m, draw, now))
    ensures Inv(Next(net, hash, t, ToResponder(m, draw, now)), hash, t)
  {
    hide Decode, Usable, Body;
  }

  lemma StepKeepsInv(net: Net, hash: Hash, t: Timer, step: Step)
    requires Inv(net, hash, t) && Enabled(net, step)
    ensures Inv(Next(net, hash, t, step), hash, t)
  {
    match step
    case ToInitiator(m, now) => ToInitiatorStep(net, hash, t, m, now);
    case ToResponder(m, draw, now) => ToResponderStep(net, hash, t, m, draw, now);
    case _ => hide Decode, Usable, Body;
  }

  ghost predicate Leads(net: Net, hash: Hash, t: Timer, steps: seq<Step>, end: Net)
    decreases |steps|
  {
    if steps == [] then net == end
    else Enabled(net, steps[0]) && Leads(Next(net, hash, t, steps[0]), hash, t, steps[1..], end)
  }

  lemma {:induction false} RunKeepsInv(net: Net, hash: Hash, t: Timer, steps: seq<Step>, end: Net)
    requires Inv(net, hash, t) && Leads(net, hash, t, steps, end)
    ensures Inv(end, hash, t)
    decreases |steps|
  {
    if steps != [] {
      hide Inv, Enabled, Next;
      StepKeepsInv(net, hash, t, steps[0]);
      RunKeepsInv(Next(net, hash, t, steps[0]), hash, t, steps[1..], end);
    }
  }

  ghost predicate Handshake(payload: Payload, hash: Hash, t: Timer, stale: set<Msg>, drawn: set<nat>, steps: seq<Step>, net: Net) {
    && (forall m <- stale :: (m.HashReply? || m.FinAck?) && m.nonce in drawn)
    && Leads(Begin(payload, hash, stale, drawn), hash, t, steps, net)
  }

  lemma HandshakeInv(payload: Payload, hash: Hash, t: Timer, stale: set<Msg>, drawn: set<nat>, steps: seq<Step>, net: Net)
    requires Handshake(payload, hash, t, stale, drawn, steps, net)
    ensures Inv(net, hash, t) && net.i.payload == payload
  {
    RunKeepsInv(Begin(payload, hash, stale, drawn), hash, t, steps, net);
    PayloadStays(Begin(payload, hash, stale, drawn), hash, t, steps, net);
  }

  lemma {:induction false} PayloadStays(net: Net, hash: Hash, t: Timer, steps: seq<Step>, end: Net)
    requires Leads(net, hash, t, steps, end)
    ensures end.i.payload == net.i.payload
    decreases |steps|
  {
    if steps != [] {
      hide Decode, Usable, Body;
      PayloadStays(Next(net, hash, t, steps[0]), hash, t, steps[1..], end);
    }
  }

  /**
   Agreement. A completed responder runs exactly the configuration that was offered, provided the
   hash does not confuse the body it accepted with the one that was sent. The FINACK that
   completed it answers a HASH-REPLY this responder sent, with the number it holds now; a FINACK
   left over from an earlier session has an older number and cannot be the one.
   */
  lemma Agreement(payload: Payload, hash: Hash, t: Timer, stale: set<Msg>, drawn: set<nat>, steps: seq<Step>, net: Net)
    requires Ok(payload) && Handshake(payload, hash, t, stale, drawn, steps, net) && net.r.complete
    requires hash(net.r.body) == hash(Body(payload)) ==> net.r.body == Body(payload)
    ensures net.r.config == Some(payload) && Usable(payload)
    ensures HashReply(net.r.myHash, net.r.nonce) in net.replies && FinAck(net.r.myHash, net.r.nonce) in net.fins
    ensures FinAck(net.r.myHash, net.r.nonce) !in net.stale
  {
    HandshakeInv(payload, hash, t, stale, drawn, steps, net);
    DecodeIs(Body(payload), payload);
    hide Decode, Usable, Body, Ok, Leads;
  }

  /** A FINACK completes the responder exactly if it answers the HASH-REPLY sent last. */
  lemma FinAckCompletes(
    payload: Payload, hash: Hash, t: Timer, stale: set<Msg>, drawn: set<nat>, steps: seq<Step>, net: Net,
    h: uint64, n: uint64, draw: uint64, now: uint64)
    requires Handshake(payload, hash, t, stale, drawn, steps, net) && Enabled(net, ToResponder(FinAck(h, n), draw, now))
    ensures Next(net, hash, t, ToResponder(FinAck(h, n), draw, now)).r.complete
            <==> net.r.complete || net.last == Some(HashReply(h, n))
  {
    HandshakeInv(payload, hash, t, stale, drawn, steps, net);
  }

  /** Every DATA ever sent, first or again, is the one offer, so the initiator never talks of two. */
  lemma OffersAreOne(payload: Payload, hash: Hash, t: Timer, stale: set<Msg>, drawn: set<nat>, steps: seq<Step>, net: Net)
    requires Handshake(payload, hash, t, stale, drawn, steps, net)
    ensures net.offers == if net.i.dataSent then {Data(Body(payload))} else {}
  {
    HandshakeInv(payload, hash, t, stale, drawn, steps, net);
  }

  lemma LeadsOne(net: Net, hash: Hash, t: Timer, step: Step, rest: seq<Step>, end: Net)
    requires Enabled(net, step) && Leads(Next(net, hash, t, step), hash, t, rest, end)
    ensures Leads(net, hash, t, [step] + rest, end)
  {
    assert ([step] + rest)[1..] == rest;
    hide Enabled, Next;
  }

  /** What DATA as it was sent makes of a responder that is not complete. */
  lemma DataIsAccepted(net: Net, hash: Hash, t: Timer, draw: uint64, now: uint64)
    requires Inv(net, hash, t) && Ok(net.i.payload) && Usable(net.i.payload) && !net.r.complete && draw !in net.drawn
    ensures var step := ToResponder(Data(Body(net.i.payload)), draw, now);
            var after := Next(net, hash, t, step);
            && Enabled(net, step) && after.i == net.i && after.drawn == net.drawn + {draw}
            && after.r.replySent && !after.r.complete && after.r.config == Some(net.i.payload) && after.r.myHash == net.i.myHash
            && HashReply(after.r.myHash, after.r.nonce) in after.replies
  {
    DecodeIs(Body(net.i.payload), net.i.payload);
    hide Decode, Usable, Body, Ok;
  }

  /** The four messages of a handshake, from any state in which the responder is not complete. */
  function Exchange(payload: Payload, hash: uint64, nonce: uint64, draw: uint64, draw2: uint64, now: uint64): seq<Step> {
    [ToResponder(Data(Body(payload)), draw, now)] + ([ToInitiator(HashReply(hash, nonce), now)] + [ToResponder(FinAck(hash, nonce), draw2, now)])
  }

  lemma FinishExchange(net: Net, hash: Hash, t: Timer, draw: uint64, now: uint64) returns (end: Net)
    requires Inv(net, hash, t) && net.r.replySent && !net.r.complete && net.r.myHash == net.i.myHash && draw !in net.drawn
    requires HashReply(net.r.myHash, net.r.nonce) in net.replies
    ensures Leads(net, hash, t, [ToInitiator(HashReply(net.r.myHash, net.r.nonce), now)] + [ToResponder(FinAck(net.r.myHash, net.r.nonce), draw, now)], end)
    ensures end.r.complete && end.r.config == net.r.config && end.i.matched
  {
    hide Decode, Usable, Body;
    var a, b := ToInitiator(HashReply(net.r.myHash, net.r.nonce), now), ToResponder(FinAck(net.r.myHash, net.r.nonce), draw, now);
    var mid := Next(net, hash, t, a);
    assert FinAck(net.r.myHash, net.r.nonce) in mid.fins && mid.r == net.r && mid.drawn == net.drawn;
    end := Next(mid, hash, t, b);
    LeadsOne(mid, hash, t, b, [], end);
    LeadsOne(net, hash, t, a, [b], end);
    assert [b] + [] == [b];
  }

  /**
   No handshake is a dead end: from every state, after any losses, resends, corrupted DATA and expired
   timers, if the responder is not complete the three messages still lead to completion at both ends.
   */
  lemma CanAlwaysComplete(net: Net, hash: Hash, t: Timer, draw: uint64, draw2: uint64, now: uint64) returns (steps: seq<Step>, end: Net)
    requires Inv(net, hash, t) && Ok(net.i.payload) && Usable(net.i.payload) && !net.r.complete
    requires draw !in net.drawn && draw2 !in net.drawn && draw != draw2
    ensures exists nonce: uint64 :: steps == Exchange(net.i.payload, net.i.myHash, nonce, draw, draw2, now)
    ensures Leads(net, hash, t, steps, end)
    ensures end.r.complete && end.r.config == Some(net.i.payload) && end.i.matched
  {
    var first := ToResponder(Data(Body(net.i.payload)), draw, now);
    DataIsAccepted(net, hash, t, draw, now);
    StepKeepsInv(net, hash, t, first);
    var mid := Next(net, hash, t, first);
    hide Inv, Next, Enabled, Body, Leads;
    end := FinishExchange(mid, hash, t, draw2, now);
    LeadsOne(net, hash, t, first, [ToInitiator(HashReply(mid.r.myHash, mid.r.nonce), now)] + [ToResponder(FinAck(mid.r.myHash, mid.r.nonce), draw2, now)], end);
    steps := Exchange(net.i.payload, net.i.myHash, mid.r.nonce, draw, draw2, now);
  }

  lemma NoHandshakeIsADeadEnd(
    payload: Payload, hash: Hash, t: Timer, stale: set<Msg>, drawn: set<nat>, run: seq<Step>, net: Net,
    draw: uint64, draw2: uint64, now: uint64) returns (steps: seq<Step>, end: Net)
    requires Ok(payload) && Usable(payload) && Handshake(payload, hash, t, stale, drawn, run, net) && !net.r.complete
    requires draw !in net.drawn && draw2 !in net.drawn && draw != draw2
    ensures Leads(net, hash, t, steps, end) && end.r.complete && end.r.config == Some(payload) && end.i.matched
  {
    HandshakeInv(payload, hash, t, stale, drawn, run, net);
    hide Inv, Leads, Usable, Ok;
    steps, end := CanAlwaysComplete(net, hash, t, draw, draw2, now);
  }

  /** With nothing lost, Start and the three messages are a whole handshake. */
  lemma HandshakeCompletes(payload: Payload, hash: Hash, t: Timer, draw: uint64, draw2: uint64, now: uint64) returns (steps: seq<Step>, end: Net)
    requires Ok(payload) && Usable(payload) && draw != draw2
    ensures exists nonce: uint64 :: steps == [Start(now)] + Exchange(payload, hash(Body(payload)), nonce, draw, draw2, now)
    ensures Handshake(payload, hash, t, {}, {}, steps, end)
    ensures end.r.complete && end.r.config == Some(payload) && end.i.matched
  {
    var begin := Begin(payload, hash, {}, {});
    var started := Next(begin, hash, t, Start(now));
    assert Inv(started, hash, t) && started.i.payload == payload && started.i.myHash == hash(Body(payload)) && started.drawn == {};
    hide Inv, Usable, Ok, Body, Leads;
    var rest;
    rest, end := CanAlwaysComplete(started, hash, t, draw, draw2, now);
    LeadsOne(begin, hash, t, Start(now), rest, end);
    steps := [Start(now)] + rest;
  }

  // ----- Repeated and different offers -----

  /** The initiator asking again changes nothing: same number, so a FINACK already on its way still completes. */
  lemma RepeatedDataIsHarmless(net: Net, hash: Hash, t: Timer, body: seq<byte>, draw: uint64, now: uint64)
    requires Inv(net, hash, t) && net.r.replySent && !net.r.complete && Decode(body).Some? && Usable(Decode(body).value)
    requires hash(body) == net.r.myHash && Enabled(net, ToResponder(Data(body), draw, now))
    ensures var after := Next(net, hash, t, ToResponder(Data(body), draw, now));
            after.r.nonce == net.r.nonce && after.last == net.last && after.replies == net.replies
  {
    hide Decode, Usable, Body;
    assert HashReply(net.r.myHash, net.r.nonce) in net.replies;
  }

  /** Another configuration gets a number never drawn before, so no FINACK for an earlier one completes it. */
  lemma OtherDataGetsNewNumber(net: Net, hash: Hash, t: Timer, body: seq<byte>, draw: uint64, now: uint64)
    requires Inv(net, hash, t) && !net.r.complete && Decode(body).Some? && Usable(Decode(body).value)
    requires (net.r.replySent ==> hash(body) != net.r.myHash) && Enabled(net, ToResponder(Data(body), draw, now))
    ensures var after := Next(net, hash, t, ToResponder(Data(body), draw, now));
            && after.r.nonce !in net.drawn && after.last == Some(HashReply(hash(body), after.r.nonce)) && after.r.config == Decode(body)
            && forall f <- net.stale :: f.nonce != after.r.nonce
  {
    hide Decode, Usable, Body;
  }

  // ----- Timers -----

  /** Nothing is resent before the timeout has passed since the last datagram that went out. */
  lemma TooSoonToResend(net: Net, hash: Hash, t: Timer, step: Step, now: uint64, later: uint64)
    requires Inv(net, hash, t) && Enabled(net, step) && now <= later < now + t.timeout
    requires step == Start(now) || (step.ToInitiator? && step.now == now) || (step.ToResponder? && step.now == now)
             || step == InitTimer(now) || step == RespTimer(now)
    ensures var after := Next(net, hash, t, step);
            && (after.offers != net.offers || after.fins != net.fins || step.Start? || after.initResends != net.initResends
                ==> Next(after, hash, t, InitTimer(later)) == after)
            && (after.replies != net.replies || after.respResends != net.respResends ==> Next(after, hash, t, RespTimer(later)) == after)
  {
    hide Decode, Usable, Body;
  }

  /** Each time is at least the timeout after the one before it, the first one after `last`. */
  ghost predicate Spaced(last: uint64, times: seq<uint64>, timeout: uint64)
    decreases |times|
  {
    times == [] || (times[0] >= last && times[0] - last >= timeout && Spaced(times[0], times[1..], timeout))
  }

  function Firings(times: seq<uint64>, init: bool): seq<Step> {
    if times == [] then [] else [if init then InitTimer(times[0]) else RespTimer(times[0])] + Firings(times[1..], init)
  }

  lemma FiringsUnfold(times: seq<uint64>, init: bool)
    requires times != []
    ensures |Firings(times, init)| > 0 && Firings(times, init)[0] == (if init then InitTimer(times[0]) else RespTimer(times[0]))
    ensures Firings(times, init)[1..] == Firings(times[1..], init)
  {}

  lemma {:induction false} FailedInitiatorStays(net: Net, hash: Hash, t: Timer, times: seq<uint64>, end: Net)
    requires net.i.failed && Leads(net, hash, t, Firings(times, true), end)
    ensures end == net
    decreases |times|
  {
    if times != [] {
      FiringsUnfold(times, true);
      FailedInitiatorStays(net, hash, t, times[1..], end);
    }
  }

  /** An initiator left without an answer resends DATA on every timeout until its cap, and then gives up. */
  lemma {:induction false} UnansweredInitiator(net: Net, hash: Hash, t: Timer, times: seq<uint64>, end: Net)
    requires net.i.dataSent && !net.i.matched && !net.i.failed && net.i.retries <= t.maxRetries
    requires Spaced(net.i.lastSend, times, t.timeout) && Leads(net, hash, t, Firings(times, true), end)
    ensures end.initResends == net.initResends + Min(|times|, t.maxRetries - net.i.retries)
    ensures end.i.failed <==> |times| > t.maxRetries - net.i.retries
    decreases |times|
  {
    if times != [] {
      FiringsUnfold(times, true);
      var mid := Next(net, hash, t, InitTimer(times[0]));
      if net.i.retries >= t.maxRetries {
        FailedInitiatorStays(mid, hash, t, times[1..], end);
      } else {
        UnansweredInitiator(mid, hash, t, times[1..], end);
      }
    }
  }

  lemma {:induction false} FailedResponderStays(net: Net, hash: Hash, t: Timer, times: seq<uint64>, end: Net)
    requires net.r.failed && Leads(net, hash, t, Firings(times, false), end)
    ensures end == net
    decreases |times|
  {
    if times != [] {
      FiringsUnfold(times, false);
      FailedResponderStays(net, hash, t, times[1..], end);
    }
  }

  /** A responder left without a FINACK resends its HASH-REPLY on every timeout until its cap, and then gives up. */
  lemma {:induction false} UnansweredResponder(net: Net, hash: Hash, t: Timer, times: seq<uint64>, end: Net)
    requires net.r.replySent && !net.r.complete && !net.r.failed && net.r.retries <= t.maxRetries
    requires Spaced(net.r.lastSend, times, t.timeout) && Leads(net, hash, t, Firings(times, false), end)
    ensures end.respResends == net.respResends + Min(|times|, t.maxRetries - net.r.retries)
    ensures end.r.failed <==> |times| > t.maxRetries - net.r.retries
    ensures end.replies == net.replies + if times != [] && net.r.retries < t.maxRetries then {HashReply(net.r.myHash, net.r.nonce)} else {}
    decreases |times|
  {
    if times != [] {
      FiringsUnfold(times, false);
      var mid := Next(net, hash, t, RespTimer(times[0]));
      if net.r.retries >= t.maxRetries {
        FailedResponderStays(mid, hash, t, times[1..], end);
      } else {
        UnansweredResponder(mid, hash, t, times[1..], end);
      }
    }
  }

  /** Timer resends never exceed the cap, at either end, however often the timers fire. */
  lemma ResendsAreBounded(payload: Payload, hash: Hash, t: Timer, stale: set<Msg>, drawn: set<nat>, steps: seq<Step>, net: Net)
    requires Handshake(payload, hash, t, stale, drawn, steps, net)
    ensures net.initResends <= t.maxRetries && net.respResends <= t.maxRetries
  {
    HandshakeInv(payload, hash, t, stale, drawn, steps, net);
  }

  /** Once complete, nothing that arrives changes the configuration any more. */
  lemma {:induction false} ConfigIsFrozen(net: Net, hash: Hash, t: Timer, steps: seq<Step>, end: Net)
    requires net.r.complete && Leads(net, hash, t, steps, end)
    ensures end.r.complete && end.r.config == net.r.config && end.r.body == net.r.body && end.r.nonce == net.r.nonce
    decreases |steps|
  {
    if steps != [] {
      hide Decode, Usable, Body;
      ConfigIsFrozen(Next(net, hash, t, steps[0]), hash, t, steps[1..], end);
    }
  }

  // ----- The two ends as they run -----

  class SetupInitiator {
    const payload: Payload
    const timer: Timer
    var myHash: uint64
    var nonce: uint64
    var lastSend: uint64
    var retries: nat
    var dataSent: bool
    var matched: bool
    var failed: bool

    ghost function View(): Initiator
      reads this
    {
      Initiator(payload, myHash, nonce, lastSend, retries, dataSent, matched, failed)
    }

    constructor (payload: Payload, timer: Timer, hash: Hash)
      ensures this.payload == payload && this.timer == timer && View() == Offer(payload, hash)
    {
      this.payload, this.timer := payload, timer;
      myHash := hash(Body(payload));
      nonce, lastSend, retries, dataSent, matched, failed := 0, 0, 0, false, false, false;
    }

    method OnDatagram(s: seq<byte>, now: uint64) returns (out: Option<Msg>)
      modifies this
      ensures (View(), out) == InitOn(old(View()), Peek(s), now)
    {
      var m := Peek(s);
      if !m.HashReply? { return None; }
      if m.hash != myHash { return None; }
      matched := true;
      nonce := m.nonce;
      lastSend := now;
      out := Some(FinAck(myHash, nonce));
    }

    method OnTimeout(now: uint64) returns (out: Option<Msg>)
      modifies this
      ensures (View(), out) == InitTimeout(old(View()), timer, now)
    {
      if matched || failed || !dataSent { return None; }
      if Sub64(now, lastSend) < timer.timeout { return None; }
      if retries >= timer.maxRetries {
        failed := true;
        return None;
      }
      retries := retries + 1;
      lastSend := now;
      out := Some(Data(Body(payload)));
    }
  }

  class SetupResponder {
    const timer: Timer
    var config: Option<Payload>
    var body: seq<byte>
    var myHash: uint64
    var nonce: uint64
    var lastSend: uint64
    var retries: nat
    var replySent: bool
    var complete: bool
    var failed: bool

    ghost function View(): Responder
      reads this
    {
      Responder(config, body, myHash, nonce, lastSend, retries, replySent, complete, failed)
    }

    constructor (timer: Timer)
      ensures this.timer == timer && View() == IDLE
    {
      this.timer := timer;
      config, body, myHash, nonce, lastSend, retries := None, [], 0, 0, 0, 0;
      replySent, complete, failed := false, false, false;
    }

    method OnDatagram(s: seq<byte>, hash: Hash, draw: uint64, now: uint64) returns (out: Option<Msg>)
      modifies this
      ensures (View(), out) == RespOn(old(View()), Peek(s), hash, draw, now)
    {
      hide Decode, Usable, Peek;
      var m := Peek(s);
      if m.Data? {
        if complete { return None; }
        var decoded := DecodeData(m.body);
        if decoded.None? { return None; }
        var ok := PayloadValid(decoded.value);
        if !ok { return None; }
        var h := hash(m.body);
        if !replySent || h != myHash { nonce := draw; }
        config, body, myHash, replySent, lastSend := decoded, m.body, h, true, now;
        return Some(HashReply(myHash, nonce));
      }
      if m.FinAck? && replySent && m.hash == myHash && m.nonce == nonce { complete := true; }
      out := None;
    }

    method OnTimeout(now: uint64) returns (out: Option<Msg>)
      modifies this
      ensures (View(), out) == RespTimeout(old(View()), timer, now)
    {
      if complete || failed || !replySent { return None; }
      if Sub64(now, lastSend) < timer.timeout { return None; }
      if retries >= timer.maxRetries {
        failed := true;
        return None;
      }
      retries := retries + 1;
      lastSend := now;
      out := Some(HashReply(myHash, nonce));
    }
  }
}
