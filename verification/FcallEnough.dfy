/** When a buffer holds a message: exactly if its own length fields keep within it. */
module FcallEnough {
  import opened Options
  import opened Wire

  datatype Kind = K8 | K16 | K32 | K64 | KStr | KNames | KQid | KQids | KData | KStat

  function KindOf(f: Field): Kind {
    match f
    case F8(_) => K8
    case F16(_) => K16
    case F32(_) => K32
    case F64(_) => K64
    case FStr(_) => KStr
    case FNames(_) => KNames
    case FQid(_) => KQid
    case FQids(_) => KQids
    case FData(_) => KData
    case FStat(_) => KStat
  }

  function Kinds(fs: seq<Field>): (ks: seq<Kind>)
    ensures |ks| == |fs|
  {
    if fs == [] then [] else [KindOf(fs[0])] + Kinds(fs[1..])
  }

  /** The fields of the messages of each type. */
  function KindsFor(t: Byte): seq<Kind> {
    match t
    case 100 => [K32, KStr]
    case 101 => [K32, KStr]
    case 103 => [KStr]
    case 104 => [K32, K32, KStr, KStr]
    case 105 => [KQid]
    case 106 => [K32, K32, KNames]
    case 107 => [KQids]
    case 108 => [K32, K8]
    case 109 => [KQid, K32]
    case 110 => [K32, KStr, K32, K8]
    case 111 => [KQid, K32]
    case 112 => [K32, K64, K32]
    case 113 => [KData]
    case 114 => [K32, K64, KData]
    case 115 => [K32]
    case 116 => [K32]
    case 117 => []
    case 118 => [K32]
    case 119 => [KStat]
    case 120 => [K32, K32]
    case 121 => [KQid]
    case _ => []
  }

  // ---------------------------------------------------------------- walking over the length fields

  /** The first `n` bytes, if there are that many. */
  function Has(b: Bytes, n: nat): (r: Option<nat>)
    ensures r.Some? ==> r.value == n <= |b|
  {
    if n <= |b| then Some(n) else None
  }

  /** Where `n` strings end. */
  function NamesEnd(b: Bytes, n: nat): (r: Option<nat>)
    ensures r.Some? ==> r.value <= |b|
    decreases n
  {
    if n == 0 then Some(0)
    else if |b| < 2 || |b| < 2 + Val16(b[..2]) then None
    else
      var s := 2 + Val16(b[..2]);
      match NamesEnd(b[s..], n - 1)
      case None => None
      case Some(e) => Some(s + e)
  }

  /** Where a field of the kind ends. */
  function FieldEnd(b: Bytes, k: Kind): (r: Option<nat>)
    ensures r.Some? ==> r.value <= |b|
  {
    match k
    case K8 => Has(b, 1)
    case K16 => Has(b, 2)
    case K32 => Has(b, 4)
    case K64 => Has(b, 8)
    case KQid => Has(b, 16)
    case KStr => if |b| < 2 then None else Has(b, 2 + Val16(b[..2]))
    case KStat => if |b| < 2 then None else Has(b, 2 + Val16(b[..2]))
    case KQids => if |b| < 2 then None else Has(b, 2 + 16 * Val16(b[..2]))
    case KData => if |b| < 4 then None else Has(b, 4 + Val32(b[..4]))
    case KNames =>
      if |b| < 2 then None
      else
        match NamesEnd(b[2..], Val16(b[..2]))
        case None => None
        case Some(e) => Some(2 + e)
  }

  predicate EnoughFor(b: Bytes, ks: seq<Kind>) {
    ks == [] || (FieldEnd(b, ks[0]).Some? && EnoughFor(b[FieldEnd(b, ks[0]).value..], ks[1..]))
  }

  /** The type is known, and no field goes beyond the end of the buffer. */
  predicate Enough(buf: Bytes) {
    |buf| >= 7 && IsType(buf[4]) && EnoughFor(buf[7..], KindsFor(buf[4]))
  }

  // ---------------------------------------------------------------- what is held ends within the buffer

  lemma {:induction false} NamesHeld(b: Bytes, names: seq<Str>)
    requires NamesBytes(names) <= b
    ensures NamesEnd(b, |names|) == Some(|NamesBytes(names)|)
  {
    if names != [] {
      Prefixes(b, StrBytes(names[0]), NamesBytes(names[1..]));
      StrHeld(b, names[0]);
      NamesHeld(b[2 + |names[0]|..], names[1..]);
    }
  }

  lemma StrHeld(b: Bytes, s: Str)
    requires StrBytes(s) <= b
    ensures |b| >= 2 + |s| && Val16(b[..2]) == |s|
  {
    NumberPrefix(b, 2, Le16(|s|));
    Number16(|s|, b[..2]);
  }

  lemma CountHeld16(b: Bytes, n: U16, rest: Bytes)
    requires Le16(n) + rest <= b
    ensures |b| >= 2 + |rest| && Val16(b[..2]) == n && rest <= b[2..]
  {
    Counted16(b, n, n, rest, rest);
    Number16(n, b[..2]);
    assert b[..2] == Le16(n);
  }

  lemma CountHeld32(b: Bytes, n: U32, rest: Bytes)
    requires Le32(n) + rest <= b
    ensures |b| >= 4 + |rest| && Val32(b[..4]) == n
  {
    Counted32(b, n, n, rest, rest);
    Number32(n, b[..4]);
    assert b[..4] == Le32(n);
  }

  lemma FieldHeld(b: Bytes, f: Field)
    requires Fits(f) && FieldBytes(f) <= b
    ensures FieldEnd(b, KindOf(f)) == Some(|FieldBytes(f)|)
  {
    match f
    case FStr(s) => StrHeld(b, s);
    case FStat(stat) => CountHeld16(b, |stat|, stat);
    case FQids(qids) => CountHeld16(b, |qids|, QidsBytes(qids));
    case FData(data) => CountHeld32(b, |data|, data);
    case FNames(names) =>
      CountHeld16(b, |names|, NamesBytes(names));
      NamesHeld(b[2..], names);
    case _ =>
  }

  lemma {:induction false} FieldsHeld(b: Bytes, fs: seq<Field>)
    requires AllFit(fs) && FieldsBytes(fs) <= b
    ensures EnoughFor(b, Kinds(fs))
  {
    if fs != [] {
      HeadTail(b, fs);
      FieldHeld(b, fs[0]);
      FieldsHeld(b[|FieldBytes(fs[0])|..], fs[1..]);
      assert Kinds(fs)[1..] == Kinds(fs[1..]);
    }
  }

  lemma Kinds1(a: Field)
    ensures Kinds([a]) == [KindOf(a)]
  {
    assert [a][1..] == [];
  }

  lemma Kinds2(a: Field, b: Field)
    ensures Kinds([a, b]) == [KindOf(a), KindOf(b)]
  {
    Kinds1(b);
    assert [a, b][1..] == [b];
  }

  lemma Kinds3(a: Field, b: Field, c: Field)
    ensures Kinds([a, b, c]) == [KindOf(a), KindOf(b), KindOf(c)]
  {
    Kinds2(b, c);
    assert [a, b, c][1..] == [b, c];
  }

  lemma Kinds4(a: Field, b: Field, c: Field, d: Field)
    ensures Kinds([a, b, c, d]) == [KindOf(a), KindOf(b), KindOf(c), KindOf(d)]
  {
    Kinds3(b, c, d);
    assert [a, b, c, d][1..] == [b, c, d];
  }

  lemma KindsOfLayout(m: Fcall)
    ensures IsType(TypeCode(m)) && Kinds(Layout(m)) == KindsFor(TypeCode(m))
  {
    var l := Layout(m);
    if |l| == 1 { Kinds1(l[0]); assert l == [l[0]]; }
    else if |l| == 2 { Kinds2(l[0], l[1]); assert l == [l[0], l[1]]; }
    else if |l| == 3 { Kinds3(l[0], l[1], l[2]); assert l == [l[0], l[1], l[2]]; }
    else if |l| == 4 { Kinds4(l[0], l[1], l[2], l[3]); assert l == [l[0], l[1], l[2], l[3]]; }
  }

  lemma HoldsEnough(buf: Bytes, m: Fcall)
    requires Holds(buf, m)
    ensures Enough(buf)
  {
    KindsOfLayout(m);
    FieldsHeld(buf[7..], Layout(m));
  }

  // ---------------------------------------------------------------- what ends within the buffer is held

  lemma {:induction false} NamesRead(b: Bytes, n: nat) returns (names: seq<Str>)
    requires NamesEnd(b, n).Some?
    ensures |names| == n && NamesBytes(names) <= b && |NamesBytes(names)| == NamesEnd(b, n).value
    decreases n
  {
    names := [];
    if n > 0 {
      var s := StrRead(b);
      var rest := NamesRead(b[2 + |s|..], n - 1);
      names := [s] + rest;
      assert names[1..] == rest;
      Joined(b, StrBytes(s), NamesBytes(rest));
    }
  }

  lemma Joined(b: Bytes, u: Bytes, v: Bytes)
    requires u <= b && v <= b[|u|..]
    ensures u + v <= b
  {
    assert b == u + b[|u|..];
  }

  lemma StrRead(b: Bytes) returns (s: Str)
    requires |b| >= 2 && |b| >= 2 + Val16(b[..2])
    ensures StrBytes(s) <= b && |s| == Val16(b[..2])
  {
    s := b[2..2 + Val16(b[..2])];
    Number16(0, b[..2]);
    assert Le16(|s|) == b[..2];
  }

  lemma {:induction false} QidsRead(b: Bytes, n: nat) returns (qids: seq<Qid>)
    requires |b| >= 16 * n
    ensures |qids| == n && QidsBytes(qids) <= b
    decreases n
  {
    qids := [];
    if n > 0 {
      var q := QidRead(b);
      var rest := QidsRead(b[16..], n - 1);
      qids := [q] + rest;
      assert qids[1..] == rest;
      Joined(b, QidBytes(q), QidsBytes(rest));
    }
  }

  lemma QidRead(b: Bytes) returns (q: Qid)
    requires |b| >= 16
    ensures QidBytes(q) <= b
  {
    q := Qid(Val32(b[..4]), Val32(b[4..8]), Val64(b[8..16]));
    Number32(0, b[..4]);
    Number32(0, b[4..8]);
    Number64(0, b[8..16]);
    assert b[..16] == b[..4] + b[4..8] + b[8..16];
  }

  lemma Read16(b: Bytes, n: U16, rest: Bytes)
    requires |b| >= 2 && n == Val16(b[..2]) && rest <= b[2..]
    ensures Le16(n) + rest <= b
  {
    Number16(0, b[..2]);
    Joined(b, Le16(n), rest);
  }

  lemma Read32(b: Bytes, n: U32, rest: Bytes)
    requires |b| >= 4 && n == Val32(b[..4]) && rest <= b[4..]
    ensures Le32(n) + rest <= b
  {
    Number32(0, b[..4]);
    Joined(b, Le32(n), rest);
  }

  /** The field has the kind and begins the buffer, as far as the length fields say. */
  predicate Reads(b: Bytes, k: Kind, f: Field) {
    KindOf(f) == k && Fits(f) && FieldBytes(f) <= b && FieldEnd(b, k) == Some(|FieldBytes(f)|)
  }

  lemma NumberRead(b: Bytes, k: Kind) returns (f: Field)
    requires FieldEnd(b, k).Some? && k in {K8, K16, K32, K64, KQid}
    ensures Reads(b, k, f)
  {
    match k
    case K8 => f := F8(b[0]);
    case K16 =>
      Number16(0, b[..2]);
      f := F16(Val16(b[..2]));
    case K32 =>
      Number32(0, b[..4]);
      f := F32(Val32(b[..4]));
    case K64 =>
      Number64(0, b[..8]);
      f := F64(Val64(b[..8]));
    case KQid =>
      var q := QidRead(b);
      f := FQid(q);
  }

  lemma FieldRead(b: Bytes, k: Kind) returns (f: Field)
    requires FieldEnd(b, k).Some?
    ensures Reads(b, k, f)
  {
    match k
    case KStr =>
      var s := StrRead(b);
      f := FStr(s);
    case KStat =>
      var n := Val16(b[..2]);
      Read16(b, n, b[2..2 + n]);
      f := FStat(b[2..2 + n]);
    case KData =>
      var n := Val32(b[..4]);
      Read32(b, n, b[4..4 + n]);
      f := FData(b[4..4 + n]);
    case KQids =>
      var qids := QidsRead(b[2..], Val16(b[..2]));
      Read16(b, Val16(b[..2]), QidsBytes(qids));
      f := FQids(qids);
    case KNames =>
      var names := NamesRead(b[2..], Val16(b[..2]));
      Read16(b, Val16(b[..2]), NamesBytes(names));
      f := FNames(names);
    case _ => f := NumberRead(b, k);
  }

  lemma {:induction false} FieldsRead(b: Bytes, ks: seq<Kind>) returns (fs: seq<Field>)
    requires EnoughFor(b, ks)
    ensures Kinds(fs) == ks && AllFit(fs) && FieldsBytes(fs) <= b
    decreases |ks|
  {
    fs := [];
    if ks != [] {
      var f := FieldRead(b, ks[0]);
      var rest := FieldsRead(b[|FieldBytes(f)|..], ks[1..]);
      fs := [f] + rest;
      assert fs[1..] == rest;
      assert Kinds(fs) == [ks[0]] + ks[1..] == ks;
      Joined(b, FieldBytes(f), FieldsBytes(rest));
    }
  }

  /** Two lists of the same kinds. */
  lemma {:induction false} KindAt(fs: seq<Field>, i: nat)
    requires i < |fs|
    ensures Kinds(fs)[i] == KindOf(fs[i])
  {
    if i > 0 { KindAt(fs[1..], i - 1); }
  }

  lemma AllKinds(fs: seq<Field>, ks: seq<Kind>)
    requires Kinds(fs) == ks
    ensures |fs| == |ks| && forall i :: 0 <= i < |fs| ==> KindOf(fs[i]) == ks[i]
  {
    forall i | 0 <= i < |fs|
      ensures KindOf(fs[i]) == ks[i]
    {
      KindAt(fs, i);
    }
  }

  lemma MessageT(t: Byte, tag: U16, fs: seq<Field>) returns (m: Fcall)
    requires IsType(t) && t % 2 == 0 && Kinds(fs) == KindsFor(t)
    ensures TypeCode(m) == t && m.tag == tag && Layout(m) == fs
  {
    AllKinds(fs, KindsFor(t));
    match t
    case 100 => m := Tversion(tag, fs[0].w, fs[1].s);
    case 104 => m := Tattach(tag, fs[0].w, fs[1].w, fs[2].s, fs[3].s);
    case 106 => m := Twalk(tag, fs[0].w, fs[1].w, fs[2].names);
    case 108 => m := Topen(tag, fs[0].w, fs[1].b);
    case 110 => m := Tcreate(tag, fs[0].w, fs[1].s, fs[2].w, fs[3].b);
    case 112 => m := Tread(tag, fs[0].w, fs[1].l, fs[2].w);
    case 114 => m := Twrite(tag, fs[0].w, fs[1].l, fs[2].data);
    case 116 => m := Tclunk(tag, fs[0].w);
    case 118 => m := Tstat(tag, fs[0].w);
    case 120 => m := Tmount(tag, fs[0].w, fs[1].w);
  }

  lemma MessageR(t: Byte, tag: U16, fs: seq<Field>) returns (m: Fcall)
    requires IsType(t) && t % 2 == 1 && Kinds(fs) == KindsFor(t)
    ensures TypeCode(m) == t && m.tag == tag && Layout(m) == fs
  {
    AllKinds(fs, KindsFor(t));
    match t
    case 101 => m := Rversion(tag, fs[0].w, fs[1].s);
    case 103 => m := Rerror(tag, fs[0].s);
    case 105 => m := Rattach(tag, fs[0].qid);
    case 107 => m := Rwalk(tag, fs[0].qids);
    case 109 => m := Ropen(tag, fs[0].qid, fs[1].w);
    case 111 => m := Rcreate(tag, fs[0].qid, fs[1].w);
    case 113 => m := Rread(tag, fs[0].data);
    case 115 => m := Rwrite(tag, fs[0].w);
    case 117 => m := Rclunk(tag);
    case 119 => m := Rstat(tag, fs[0].stat);
    case 121 => m := Rmount(tag, fs[0].qid);
  }

  lemma EnoughHolds(buf: Bytes) returns (m: Fcall)
    requires Enough(buf)
    ensures Holds(buf, m)
  {
    var fs := FieldsRead(buf[7..], KindsFor(buf[4]));
    var tag := Val16(buf[5..7]);
    Number16(0, buf[5..7]);
    if buf[4] % 2 == 0 {
      m := MessageT(buf[4], tag, fs);
    } else {
      m := MessageR(buf[4], tag, fs);
    }
  }

  /** A buffer holds a message if and only if its type is known and its length fields keep within it. */
  lemma EnoughIff(buf: Bytes)
    ensures Enough(buf) <==> exists m :: Holds(buf, m)
  {
    if Enough(buf) {
      var m := EnoughHolds(buf);
    }
    forall m | Holds(buf, m)
      ensures Enough(buf)
    {
      HoldsEnough(buf, m);
    }
  }
}
