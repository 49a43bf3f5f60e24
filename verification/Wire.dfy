/**
 Bytes on the wire (wire.hpp): big-endian fields, lists of fields, and the extension
 area. Each reader is shown to be the inverse of its writer, in both directions.
 */
module Wire {
  import opened Word64
  import opened Basics
  import Modular

  // ----- One field -----

  function Pow256(n: nat): (r: nat)
    ensures r >= 1
  {
    if n == 0 then 1 else 256 * Pow256(n - 1)
  }

  predicate Fits(w: nat, v: nat) { v < Pow256(w) }

  /** `v` as `w` bytes, most significant first. */
  function Be(w: nat, v: nat): (r: seq<byte>)
    ensures |r| == w
  {
    if w == 0 then [] else Be(w - 1, v / 256) + [v % 256]
  }

  function Val(s: seq<byte>): nat {
    if s == [] then 0 else Val(s[..|s| - 1]) * 256 + s[|s| - 1]
  }

  lemma {:induction false} ValFits(s: seq<byte>)
    ensures Fits(|s|, Val(s))
  {
    if s != [] { ValFits(s[..|s| - 1]); }
  }

  lemma {:induction false} ValOfBe(w: nat, v: nat)
    requires Fits(w, v)
    ensures Val(Be(w, v)) == v
  {
    if w > 0 {
      ValOfBe(w - 1, v / 256);
      assert Be(w, v)[..w - 1] == Be(w - 1, v / 256);
    }
  }

  lemma {:induction false} BeOfVal(s: seq<byte>)
    ensures Be(|s|, Val(s)) == s
  {
    if s != [] {
      BeOfVal(s[..|s| - 1]);
      assert s == s[..|s| - 1] + [s[|s| - 1]];
    }
  }

  /** Byte `i` is what a shift by `8 * (w - 1 - i)` leaves in the low eight bits. */
  lemma {:induction false} BeAt(w: nat, v: nat, i: nat)
    requires i < w
    ensures Be(w, v)[i] == v / Pow256(w - 1 - i) % 256
  {
    if i < w - 1 {
      BeAt(w - 1, v / 256, i);
      DivDiv(v, Pow256(w - 2 - i));
    }
  }

  lemma DivDiv(v: nat, p: nat)
    requires p >= 1
    ensures v / 256 / p == v / (256 * p)
  {
    var q := v / 256 / p;
    assert v == v / 256 * 256 + v % 256;
    assert v / 256 == q * p + v / 256 % p;
    assert v == q * (256 * p) + (v / 256 % p * 256 + v % 256);
    Modular.DivModUnique(v, 256 * p, q, v / 256 % p * 256 + v % 256);
  }

  /** `s` with `b` laid over it from `off` on. */
  function Splice(s: seq<byte>, off: nat, b: seq<byte>): (r: seq<byte>)
    requires off + |b| <= |s|
    ensures |r| == |s|
  {
    s[..off] + b + s[off + |b|..]
  }

  lemma SpliceNext(s: seq<byte>, off: nat, a: seq<byte>, b: seq<byte>)
    requires off + |a| + |b| <= |s|
    ensures Splice(Splice(s, off, a), off + |a|, b) == Splice(s, off, a + b)
  {}

  /** `put_u16`, `put_u32`, `put_u64`: the loop over shifted bytes. */
  method Put(p: array<byte>, off: nat, w: nat, v: nat) returns (n: nat)
    requires off + w <= p.Length
    modifies p
    ensures n == w && p[..] == Splice(old(p[..]), off, Be(w, v))
  {
    for i := 0 to w
      invariant forall k | 0 <= k < i :: p[off + k] == Be(w, v)[k]
      invariant forall k | 0 <= k < p.Length && !(off <= k < off + i) :: p[k] == old(p[k])
    {
      BeAt(w, v, i);
      p[off + i] := v / Pow256(w - 1 - i) % 256;
    }
    n := w;
  }

  /** A plain copy of bytes. */
  method PutBytes(p: array<byte>, off: nat, b: seq<byte>) returns (n: nat)
    requires off + |b| <= p.Length
    modifies p
    ensures n == |b| && p[..] == Splice(old(p[..]), off, b)
  {
    for i := 0 to |b|
      invariant forall k | 0 <= k < i :: p[off + k] == b[k]
      invariant forall k | 0 <= k < p.Length && !(off <= k < off + i) :: p[k] == old(p[k])
    {
      p[off + i] := b[i];
    }
    n := |b|;
  }

  /** `get_u16`, `get_u32`, `get_u64`. */
  method Get(s: seq<byte>, off: nat, w: nat) returns (v: nat, n: nat)
    requires off + w <= |s|
    ensures v == Val(s[off..off + w]) && Fits(w, v) && n == w
  {
    v := 0;
    for i := 0 to w
      invariant v == Val(s[off..off + i])
    {
      assert s[off..off + i + 1][..i] == s[off..off + i];
      v := v * 256 + s[off + i];
    }
    ValFits(s[off..off + w]);
    n := w;
  }

  // ----- A list of fields -----

  function Size(ws: seq<nat>): nat {
    if ws == [] then 0 else ws[0] + Size(ws[1..])
  }

  ghost predicate AllFit(ws: seq<nat>, vs: seq<nat>) {
    |ws| == |vs| && forall i | 0 <= i < |ws| :: Fits(ws[i], vs[i])
  }

  function Pack(ws: seq<nat>, vs: seq<nat>): (r: seq<byte>)
    requires |ws| == |vs|
    ensures |r| == Size(ws)
  {
    if ws == [] then [] else Be(ws[0], vs[0]) + Pack(ws[1..], vs[1..])
  }

  function Unpack(ws: seq<nat>, s: seq<byte>): (vs: seq<nat>)
    requires Size(ws) <= |s|
    ensures |vs| == |ws|
  {
    if ws == [] then [] else [Val(s[..ws[0]])] + Unpack(ws[1..], s[ws[0]..])
  }

  /** Reading a list of fields and writing it are inverse: one list of values per byte string. */
  lemma {:induction false} PackUnpack(ws: seq<nat>, vs: seq<nat>, s: seq<byte>)
    requires Size(ws) <= |s| && |vs| == |ws|
    ensures Unpack(ws, s) == vs <==> AllFit(ws, vs) && Pack(ws, vs) == s[..Size(ws)]
    ensures AllFit(ws, Unpack(ws, s))
  {
    if ws != [] {
      var w, v, rest := ws[0], vs[0], s[ws[0]..];
      PackUnpack(ws[1..], vs[1..], rest);
      FieldIs(w, v, s[..w]);
      ValFits(s[..w]);
      FitsCons(ws, vs);
      FitsCons(ws, [Val(s[..w])] + Unpack(ws[1..], rest));
      hide AllFit, Be, Val, Fits;
      var head, tail := Val(s[..w]), Unpack(ws[1..], rest);
      assert ([head] + tail)[1..] == tail;
      ConsIs(head, tail, vs);
      assert Unpack(ws, s) == [head] + tail && Pack(ws, vs) == Be(w, v) + Pack(ws[1..], vs[1..]);
      hide Pack, Unpack;
      Halves(s, Be(w, v), Pack(ws[1..], vs[1..]));
    }
  }

  lemma Halves(s: seq<byte>, a: seq<byte>, b: seq<byte>)
    requires |a| + |b| <= |s|
    ensures a + b == s[..|a| + |b|] <==> a == s[..|a|] && b == s[|a|..][..|b|]
  {
    var n, k := |a|, |a| + |b|;
    assert (a + b)[..n] == a && (a + b)[n..] == b;
    assert s[..k][..n] == s[..n] && s[..k][n..] == s[n..][..|b|];
    assert s[..k] == s[..n] + s[n..][..|b|];
  }

  lemma FitsCons(ws: seq<nat>, vs: seq<nat>)
    requires |ws| == |vs| > 0
    ensures AllFit(ws, vs) <==> Fits(ws[0], vs[0]) && AllFit(ws[1..], vs[1..])
  {
    if AllFit(ws[1..], vs[1..]) && Fits(ws[0], vs[0]) {
      forall i | 0 <= i < |ws| ensures Fits(ws[i], vs[i]) {
        if i > 0 { assert ws[i] == ws[1..][i - 1] && vs[i] == vs[1..][i - 1]; }
      }
    }
  }

  // ----- The extension area -----

  const EXT_CRITICAL: nat := 0x8000

  datatype Ext = Ext(ty: nat, value: seq<byte>)
  {
    ghost predicate Ok() { Fits(2, ty) && Fits(2, |value|) }

    predicate Critical() { ty >= EXT_CRITICAL }

    function Bytes(): (r: seq<byte>)
      ensures |r| == 4 + |value|
    {
      Be(2, ty) + Be(2, |value|) + value
    }
  }

  function AreaBytes(es: seq<Ext>): seq<byte> {
    if es == [] then [] else es[0].Bytes() + AreaBytes(es[1..])
  }

  /** The entry at the front of `area`, if a whole one is there. */
  function FirstExt(area: seq<byte>): (r: Option<Ext>)
    ensures r.Some? ==> 4 + |r.value.value| <= |area|
  {
    if |area| < 4 then None
    else
      var len := Val(area[2..4]);
      if len > |area| - 4 then None else Some(Ext(Val(area[..2]), area[4..4 + len]))
  }

  /** The whole area as a list of entries, if it is one. */
  function ParseArea(area: seq<byte>): Option<seq<Ext>>
    decreases |area|
  {
    if area == [] then Some([])
    else match FirstExt(area)
      case None => None
      case Some(e) =>
        match ParseArea(area[4 + |e.value|..])
        case None => None
        case Some(es) => Some([e] + es)
  }

  lemma Thirds(s: seq<byte>, a: seq<byte>, b: seq<byte>, c: seq<byte>)
    requires |a| + |b| + |c| <= |s|
    ensures var n, m := |a|, |a| + |b|;
            a + b + c == s[..m + |c|] <==> a == s[..n] && b == s[n..m] && c == s[m..m + |c|]
  {
    var n, m, k := |a|, |a| + |b|, |a| + |b| + |c|;
    var t := a + b + c;
    assert t[..n] == a && t[n..m] == b && t[m..] == c;
    assert s[..k][..n] == s[..n] && s[..k][n..m] == s[n..m] && s[..k][m..] == s[m..k];
    assert s[..k] == s[..n] + s[n..m] + s[m..k];
  }

  /** Big-endian: the first byte weighs most. */
  lemma {:induction false} FirstByteWeighsMost(s: seq<byte>)
    requires s != []
    ensures Val(s) == s[0] * Pow256(|s| - 1) + Val(s[1..])
  {
    var n := |s| - 1;
    if n == 0 {
      assert s[..0] == [] && s[1..] == [];
    } else {
      FirstByteWeighsMost(s[..n]);
      assert s[1..][..n - 1] == s[..n][1..];
      assert Val(s) == Val(s[..n]) * 256 + s[n] && Val(s[1..]) == Val(s[..n][1..]) * 256 + s[n];
      assert s[0] * Pow256(n - 1) * 256 == s[0] * Pow256(n);
    }
  }

  lemma FieldIs(w: nat, v: nat, s: seq<byte>)
    requires |s| == w
    ensures Val(s) == v <==> Fits(w, v) && Be(w, v) == s
  {
    BeOfVal(s);
    ValFits(s);
    if Fits(w, v) { ValOfBe(w, v); }
  }

  lemma FirstExtIs(area: seq<byte>, e: Ext)
    ensures FirstExt(area) == Some(e) <==> e.Ok() && 4 + |e.value| <= |area| && e.Bytes() == area[..4 + |e.value|]
  {
    if 4 + |e.value| <= |area| {
      FieldIs(2, e.ty, area[..2]);
      FieldIs(2, |e.value|, area[2..4]);
      hide Be, Val;
      Thirds(area, Be(2, e.ty), Be(2, |e.value|), e.value);
    }
  }

  ghost predicate ExtsOk(es: seq<Ext>) { forall i | 0 <= i < |es| :: es[i].Ok() }

  lemma ExtsOkCons(es: seq<Ext>)
    requires es != []
    ensures ExtsOk(es) <==> es[0].Ok() && ExtsOk(es[1..])
  {
    if es[0].Ok() && ExtsOk(es[1..]) {
      forall i | 0 <= i < |es| ensures es[i].Ok() { if i > 0 { assert es[1..][i - 1].Ok(); } }
    }
  }

  /** Iterating an area gives back exactly the entries that were appended to it. */
  lemma {:induction false} AreaIs(area: seq<byte>, es: seq<Ext>)
    ensures ParseArea(area) == Some(es) <==> ExtsOk(es) && AreaBytes(es) == area
    decreases |es|
  {
    if es == [] {
    } else {
      var e, rest := es[0], es[1..];
      var n := 4 + |e.value|;
      FirstExtIs(area, e);
      ExtsOkCons(es);
      assert AreaBytes(es) == e.Bytes() + AreaBytes(rest);
      assert [e] + rest == es;
      hide Ext.Bytes, FirstExt, ExtsOk, AreaBytes;
      if n <= |area| {
        AreaIs(area[n..], rest);
        assert area == area[..n] + area[n..];
        assert e.Bytes() + AreaBytes(rest) == area <==> e.Bytes() == area[..n] && AreaBytes(rest) == area[n..] by {
          if e.Bytes() + AreaBytes(rest) == area {
            assert (e.Bytes() + AreaBytes(rest))[..n] == e.Bytes() && (e.Bytes() + AreaBytes(rest))[n..] == AreaBytes(rest);
          }
        }
        ParseCons(area, es);
      } else {
        assert |e.Bytes() + AreaBytes(rest)| >= n;
        ParseCons(area, es);
      }
    }
  }

  lemma ParseCons(area: seq<byte>, es: seq<Ext>)
    requires es != []
    ensures var n := 4 + |es[0].value|;
            ParseArea(area) == Some(es) <==> n <= |area| && FirstExt(area) == Some(es[0]) && ParseArea(area[n..]) == Some(es[1..])
  {
    ParseUnfold(area);
    hide FirstExt, ParseArea;
    if area != [] && FirstExt(area).Some? {
      var e := FirstExt(area).value;
      var rest := ParseArea(area[4 + |e.value|..]);
      if rest.Some? { ConsIs(e, rest.value, es); }
    }
    assert FirstExt([]) == None by { NoFirst([]); }
  }

  lemma NoFirst(area: seq<byte>)
    requires |area| < 4
    ensures FirstExt(area) == None
  {}

  lemma ParseUnfold(area: seq<byte>)
    ensures ParseArea(area) ==
            if area == [] then Some([])
            else if FirstExt(area).None? then None
            else var e := FirstExt(area).value;
                 var rest := ParseArea(area[4 + |e.value|..]);
                 if rest.None? then None else Some([e] + rest.value)
  {}

  lemma ConsIs<T>(x: T, xs: seq<T>, ys: seq<T>)
    requires ys != []
    ensures [x] + xs == ys <==> x == ys[0] && xs == ys[1..]
  {
    assert ([x] + xs)[0] == x && ([x] + xs)[1..] == xs;
    assert [ys[0]] + ys[1..] == ys;
  }

  /** `append_extension`. */
  method AppendExtension(area: array<byte>, cap: nat, used: nat, e: Ext) returns (n: nat)
    requires cap <= area.Length && e.Ok()
    modifies area
    ensures n == if used <= cap && 4 + |e.value| <= cap - used then used + 4 + |e.value| else 0
    ensures area[..] == if n == 0 then old(area[..]) else Splice(old(area[..]), used, e.Bytes())
  {
    if used > cap || cap - used < 4 + |e.value| { return 0; }
    ghost var was := area[..];
    hide Splice, Be;
    var k := Put(area, used, 2, e.ty);
    k := Put(area, used + 2, 2, |e.value|);
    SpliceNext(was, used, Be(2, e.ty), Be(2, |e.value|));
    k := PutBytes(area, used + 4, e.value);
    SpliceNext(was, used, Be(2, e.ty) + Be(2, |e.value|), e.value);
    n := used + 4 + |e.value|;
  }

  ghost predicate NoneCritical(es: seq<Ext>) { forall i | 0 <= i < |es| :: !es[i].Critical() }

  lemma NoneCriticalCons(e: Ext, es: seq<Ext>)
    ensures NoneCritical([e] + es) <==> !e.Critical() && NoneCritical(es)
  {
    if NoneCritical([e] + es) {
      assert !([e] + es)[0].Critical();
      forall i | 0 <= i < |es| ensures !es[i].Critical() { assert !([e] + es)[i + 1].Critical(); }
    }
  }

  /** An area is acceptable if it is a list of entries, none of them critical. */
  ghost predicate Acceptable(area: seq<byte>) {
    ParseArea(area).Some? && NoneCritical(ParseArea(area).value)
  }

  /** An area put together from well-formed entries is acceptable exactly if none of them is critical. */
  lemma AcceptableIs(es: seq<Ext>)
    requires ExtsOk(es)
    ensures Acceptable(AreaBytes(es)) <==> forall e <- es :: e.ty < 0x8000
  {
    AreaIs(AreaBytes(es), es);
    hide AreaBytes, ParseArea;
  }

  lemma AcceptableCons(area: seq<byte>)
    requires area != []
    ensures Acceptable(area) <==>
            match FirstExt(area) case None => false case Some(e) => !e.Critical() && Acceptable(area[4 + |e.value|..])
  {
    if FirstExt(area).Some? {
      var e := FirstExt(area).value;
      var rest := ParseArea(area[4 + |e.value|..]);
      if rest.Some? { NoneCriticalCons(e, rest.value); }
    }
    hide FirstExt, NoneCritical;
  }

  /** `extensions_acceptable`: the loop over entries. */
  method ExtensionsAcceptable(area: seq<byte>) returns (ok: bool)
    ensures ok <==> Acceptable(area)
  {
    var off := 0;
    assert area[0..] == area;
    while off < |area|
      invariant 0 <= off <= |area|
      invariant Acceptable(area) <==> Acceptable(area[off..])
      decreases |area| - off
    {
      hide Acceptable, Val;
      AcceptableCons(area[off..]);
      FirstAt(area, off);
      if off + 4 > |area| { return false; }
      var ty := Val(area[off..off + 2]);
      var len := Val(area[off + 2..off + 4]);
      if len > |area| - off - 4 { return false; }
      if ty >= EXT_CRITICAL { return false; }
      assert area[off..][4 + len..] == area[off + 4 + len..];
      off := off + 4 + len;
    }
    NothingAcceptable(area[off..]);
    ok := true;
  }

  lemma NothingAcceptable(area: seq<byte>)
    requires |area| == 0
    ensures Acceptable(area)
  {}

  /** The entry at `off`, read in place. */
  lemma FirstAt(area: seq<byte>, off: nat)
    requires off <= |area|
    ensures FirstExt(area[off..]) ==
            if off + 4 > |area| then None
            else var len := Val(area[off + 2..off + 4]);
                 if len > |area| - off - 4 then None else Some(Ext(Val(area[off..off + 2]), area[off + 4..off + 4 + len]))
  {
    var tail := area[off..];
    if off + 4 <= |area| {
      assert tail[..2] == area[off..off + 2] && tail[2..4] == area[off + 2..off + 4];
      var len := Val(area[off + 2..off + 4]);
      if len <= |area| - off - 4 { assert tail[4..4 + len] == area[off + 4..off + 4 + len]; }
    }
  }
}
