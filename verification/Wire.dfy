/** The wire form of 9P messages as fcall.h lays it down: little-endian numbers, strings and
    stat data with a two-byte length, read and write data with a four-byte one.

        size[4] type[1] tag[2] fields...

    Every message is a list of fields whose kinds its type fixes. */
module Wire {
  type Byte = b: int | 0 <= b < 0x100
  type U16 = x: int | 0 <= x < 0x1_0000
  type U32 = x: int | 0 <= x < 0x1_0000_0000
  type U64 = x: int | 0 <= x < 0x1_0000_0000_0000_0000

  type Bytes = seq<Byte>
  type Str = s: Bytes | |s| < 0x1_0000

  datatype Qid = Qid(kind: U32, version: U32, id: U64)

  // ---------------------------------------------------------------- numbers

  function Le16(x: U16): (b: Bytes)
    ensures |b| == 2
  {
    [x % 0x100, x / 0x100]
  }

  function Le32(x: U32): (b: Bytes)
    ensures |b| == 4
  {
    Le16(x % 0x1_0000) + Le16(x / 0x1_0000)
  }

  function Le64(x: U64): (b: Bytes)
    ensures |b| == 8
  {
    Le32(x % 0x1_0000_0000) + Le32(x / 0x1_0000_0000)
  }

  function Val16(b: Bytes): U16
    requires |b| == 2
  {
    b[0] as int + 0x100 * b[1] as int
  }

  function Val32(b: Bytes): U32
    requires |b| == 4
  {
    Val16(b[..2]) + Val16(b[2..]) * 0x1_0000
  }

  function Val64(b: Bytes): U64
    requires |b| == 8
  {
    Val32(b[..4]) + Val32(b[4..]) * 0x1_0000_0000
  }

  lemma Number16(x: U16, b: Bytes)
    requires |b| == 2
    ensures Val16(Le16(x)) == x && Le16(Val16(b)) == b
  {}

  lemma TwoHalves(a: Bytes, b: Bytes)
    ensures (a + b)[..|a|] == a && (a + b)[|a|..] == b
  {}

  lemma Number32(x: U32, b: Bytes)
    requires |b| == 4
    ensures Val32(Le32(x)) == x && Le32(Val32(b)) == b
  {
    TwoHalves(Le16(x % 0x1_0000), Le16(x / 0x1_0000));
    Number16(x % 0x1_0000, b[..2]);
    Number16(x / 0x1_0000, b[2..]);
    Halves32(Val16(b[..2]), Val16(b[2..]));
    assert b == b[..2] + b[2..];
  }

  lemma Halves32(lo: U16, hi: U16)
    ensures var v := lo + hi * 0x1_0000; v % 0x1_0000 == lo && v / 0x1_0000 == hi
  {}

  lemma Number64(x: U64, b: Bytes)
    requires |b| == 8
    ensures Val64(Le64(x)) == x && Le64(Val64(b)) == b
  {
    Halves64(x % 0x1_0000_0000, x / 0x1_0000_0000, Le64(x));
    Halves64(Val32(b[..4]), Val32(b[4..]), b);
    Number32(0, b[..4]);
    Number32(0, b[4..]);
    assert b == b[..4] + b[4..];
  }

  lemma Halves64(lo: U32, hi: U32, b: Bytes)
    requires |b| == 8
    ensures b == Le32(lo) + Le32(hi) ==> Val64(b) == lo + hi * 0x1_0000_0000
    ensures var v := lo + hi * 0x1_0000_0000; v % 0x1_0000_0000 == lo && v / 0x1_0000_0000 == hi
  {
    DivModBack(lo, hi);
    if b == Le32(lo) + Le32(hi) {
      Number32(lo, b[..4]);
      Number32(hi, b[4..]);
      assert b[..4] == Le32(lo) && b[4..] == Le32(hi);
    }
  }

  lemma DivModBack(lo: U32, hi: U32)
    ensures var v := lo + hi * 0x1_0000_0000; v % 0x1_0000_0000 == lo && v / 0x1_0000_0000 == hi
  {}

  // ---------------------------------------------------------------- fields

  datatype Field =
    | F8(b: Byte)
    | F16(h: U16)
    | F32(w: U32)
    | F64(l: U64)
    | FStr(s: Str)
    | FNames(names: seq<Str>)
    | FQid(qid: Qid)
    | FQids(qids: seq<Qid>)
    | FData(data: Bytes)
    | FStat(stat: Bytes)

  predicate Fits(f: Field) {
    match f
    case FNames(names) => |names| < 0x1_0000
    case FQids(qids) => |qids| < 0x1_0000
    case FData(data) => |data| < 0x1_0000_0000
    case FStat(stat) => |stat| < 0x1_0000
    case _ => true
  }

  function StrBytes(s: Str): Bytes { Le16(|s|) + s }

  function NamesBytes(names: seq<Str>): Bytes {
    if names == [] then [] else StrBytes(names[0]) + NamesBytes(names[1..])
  }

  function QidBytes(q: Qid): (b: Bytes)
    ensures |b| == 16
  {
    Le32(q.kind) + Le32(q.version) + Le64(q.id)
  }

  function QidsBytes(qids: seq<Qid>): (b: Bytes)
    ensures |b| == 16 * |qids|
  {
    if qids == [] then [] else QidBytes(qids[0]) + QidsBytes(qids[1..])
  }

  function FieldBytes(f: Field): Bytes
    requires Fits(f)
  {
    match f
    case F8(b) => [b]
    case F16(h) => Le16(h)
    case F32(w) => Le32(w)
    case F64(l) => Le64(l)
    case FStr(s) => StrBytes(s)
    case FNames(names) => Le16(|names|) + NamesBytes(names)
    case FQid(qid) => QidBytes(qid)
    case FQids(qids) => Le16(|qids|) + QidsBytes(qids)
    case FData(data) => Le32(|data|) + data
    case FStat(stat) => Le16(|stat|) + stat
  }

  predicate AllFit(fs: seq<Field>) { forall i :: 0 <= i < |fs| ==> Fits(fs[i]) }

  function FieldsBytes(fs: seq<Field>): Bytes
    requires AllFit(fs)
  {
    if fs == [] then [] else FieldBytes(fs[0]) + FieldsBytes(fs[1..])
  }

  lemma {:induction false} FieldsSnoc(fs: seq<Field>, f: Field)
    requires AllFit(fs) && Fits(f)
    ensures AllFit(fs + [f])
    ensures FieldsBytes(fs + [f]) == FieldsBytes(fs) + FieldBytes(f)
  {
    if fs == [] {
      assert fs + [f] == [f];
    } else {
      FieldsSnoc(fs[1..], f);
      assert (fs + [f])[1..] == fs[1..] + [f];
    }
  }

  // ---------------------------------------------------------------- a wire form is read in one way only

  /** What the first bytes of `b` say about a field of the same kind as `f`. */
  lemma NumberPrefix(b: Bytes, n: nat, v: Bytes)
    requires v <= b && |v| == n
    ensures b[..n] == v
  {}

  lemma {:induction false} StrUnique(b: Bytes, s: Str, t: Str)
    requires StrBytes(s) <= b && StrBytes(t) <= b
    ensures s == t
  {
    NumberPrefix(b, 2, Le16(|s|));
    assert b[..2] == Le16(|t|);
    Number16(|s|, b[..2]);
    Number16(|t|, b[..2]);
    assert b[2..2 + |s|] == s;
  }

  lemma {:induction false} NamesUnique(b: Bytes, ns: seq<Str>, ms: seq<Str>)
    requires NamesBytes(ns) <= b && NamesBytes(ms) <= b && |ns| == |ms|
    ensures ns == ms
  {
    if ns != [] {
      assert StrBytes(ns[0]) <= b && StrBytes(ms[0]) <= b;
      StrUnique(b, ns[0], ms[0]);
      NamesUnique(b[|StrBytes(ns[0])|..], ns[1..], ms[1..]);
    }
  }

  lemma QidUnique(b: Bytes, q: Qid, r: Qid)
    requires QidBytes(q) <= b && QidBytes(r) <= b
    ensures q == r
  {
    assert b[..4] == Le32(q.kind) == Le32(r.kind);
    assert b[4..8] == Le32(q.version) == Le32(r.version);
    assert b[8..16] == Le64(q.id) == Le64(r.id);
    Number32(q.kind, b[..4]);
    Number32(r.kind, b[..4]);
    Number32(q.version, b[..4]);
    Number32(r.version, b[..4]);
    Number64(q.id, b[8..16]);
    Number64(r.id, b[8..16]);
  }

  lemma Prefixes(b: Bytes, u: Bytes, v: Bytes)
    requires u + v <= b
    ensures |u| <= |b| && u <= b && v <= b[|u|..]
  {}

  lemma {:induction false} QidsUnique(b: Bytes, qs: seq<Qid>, rs: seq<Qid>)
    requires QidsBytes(qs) <= b && QidsBytes(rs) <= b && |qs| == |rs|
    ensures qs == rs
  {
    if qs != [] {
      Prefixes(b, QidBytes(qs[0]), QidsBytes(qs[1..]));
      Prefixes(b, QidBytes(rs[0]), QidsBytes(rs[1..]));
      QidUnique(b, qs[0], rs[0]);
      QidsUnique(b[16..], qs[1..], rs[1..]);
    }
  }

  predicate SameKind(f: Field, g: Field) {
    match f
    case F8(_) => g.F8?
    case F16(_) => g.F16?
    case F32(_) => g.F32?
    case F64(_) => g.F64?
    case FStr(_) => g.FStr?
    case FNames(_) => g.FNames?
    case FQid(_) => g.FQid?
    case FQids(_) => g.FQids?
    case FData(_) => g.FData?
    case FStat(_) => g.FStat?
  }

  lemma Counted16(b: Bytes, n: U16, m: U16, rest: Bytes, rest': Bytes)
    requires Le16(n) + rest <= b && Le16(m) + rest' <= b
    ensures n == m && rest <= b[2..] && rest' <= b[2..]
  {
    assert b[..2] == Le16(n) == Le16(m);
    Number16(n, b[..2]);
    Number16(m, b[..2]);
  }

  lemma Counted32(b: Bytes, n: U32, m: U32, rest: Bytes, rest': Bytes)
    requires Le32(n) + rest <= b && Le32(m) + rest' <= b
    ensures n == m && rest <= b[4..] && rest' <= b[4..]
  {
    assert b[..4] == Le32(n) == Le32(m);
    Number32(n, b[..4]);
    Number32(m, b[..4]);
  }

  lemma FieldUnique(b: Bytes, f: Field, g: Field)
    requires Fits(f) && Fits(g) && SameKind(f, g) && FieldBytes(f) <= b && FieldBytes(g) <= b
    ensures f == g
  {
    match f
    case F8(_) => assert FieldBytes(f)[0] == b[0] == FieldBytes(g)[0];
    case F16(h) => Counted16(b, h, g.h, [], []);
    case F32(w) => Counted32(b, w, g.w, [], []);
    case F64(l) =>
      assert b[..8] == Le64(l) == Le64(g.l);
      Number64(l, b[..8]);
      Number64(g.l, b[..8]);
    case FStr(s) => StrUnique(b, s, g.s);
    case FNames(names) =>
      Counted16(b, |names|, |g.names|, NamesBytes(names), NamesBytes(g.names));
      NamesUnique(b[2..], names, g.names);
    case FQid(qid) => QidUnique(b, qid, g.qid);
    case FQids(qids) =>
      Counted16(b, |qids|, |g.qids|, QidsBytes(qids), QidsBytes(g.qids));
      QidsUnique(b[2..], qids, g.qids);
    case FData(data) => Counted32(b, |data|, |g.data|, data, g.data);
    case FStat(stat) => Counted16(b, |stat|, |g.stat|, stat, g.stat);
  }

  lemma HeadTail(b: Bytes, fs: seq<Field>)
    requires fs != [] && AllFit(fs) && FieldsBytes(fs) <= b
    ensures AllFit(fs[1..]) && Fits(fs[0]) && |FieldBytes(fs[0])| <= |b|
    ensures FieldBytes(fs[0]) <= b && FieldsBytes(fs[1..]) <= b[|FieldBytes(fs[0])|..]
  {
    Prefixes(b, FieldBytes(fs[0]), FieldsBytes(fs[1..]));
  }

  /** Two lists of fields of the same kinds that both start a buffer are the same. */
  lemma {:induction false} FieldsUnique(b: Bytes, fs: seq<Field>, gs: seq<Field>)
    requires AllFit(fs) && AllFit(gs) && |fs| == |gs| && forall i :: 0 <= i < |fs| ==> SameKind(fs[i], gs[i])
    requires FieldsBytes(fs) <= b && FieldsBytes(gs) <= b
    ensures fs == gs
  {
    if fs != [] {
      HeadTail(b, fs);
      HeadTail(b, gs);
      FieldUnique(b, fs[0], gs[0]);
      FieldsUnique(b[|FieldBytes(fs[0])|..], fs[1..], gs[1..]);
    }
  }

  // ---------------------------------------------------------------- messages

  /** `fcall`: one constructor for each type of message that has a wire form. */
  datatype Fcall =
    | Tversion(tag: U16, msize: U32, version: Str)
    | Rversion(tag: U16, msize: U32, version: Str)
    | Rerror(tag: U16, ename: Str)
    | Tattach(tag: U16, fid: U32, afid: U32, uname: Str, aname: Str)
    | Rattach(tag: U16, qid: Qid)
    | Twalk(tag: U16, fid: U32, newfid: U32, wname: seq<Str>)
    | Rwalk(tag: U16, wqid: seq<Qid>)
    | Topen(tag: U16, fid: U32, mode: Byte)
    | Ropen(tag: U16, qid: Qid, iounit: U32)
    | Tcreate(tag: U16, fid: U32, name: Str, perm: U32, mode: Byte)
    | Rcreate(tag: U16, qid: Qid, iounit: U32)
    | Tread(tag: U16, fid: U32, offset: U64, count: U32)
    | Rread(tag: U16, data: Bytes)
    | Twrite(tag: U16, fid: U32, offset: U64, data: Bytes)
    | Rwrite(tag: U16, count: U32)
    | Tclunk(tag: U16, fid: U32)
    | Rclunk(tag: U16)
    | Tstat(tag: U16, fid: U32)
    | Rstat(tag: U16, stat: Bytes)
    | Tmount(tag: U16, fid: U32, mfid: U32)
    | Rmount(tag: U16, qid: Qid)

  function TypeCode(m: Fcall): Byte {
    match m
    case Tversion(_, _, _) => 100
    case Rversion(_, _, _) => 101
    case Rerror(_, _) => 103
    case Tattach(_, _, _, _, _) => 104
    case Rattach(_, _) => 105
    case Twalk(_, _, _, _) => 106
    case Rwalk(_, _) => 107
    case Topen(_, _, _) => 108
    case Ropen(_, _, _) => 109
    case Tcreate(_, _, _, _, _) => 110
    case Rcreate(_, _, _) => 111
    case Tread(_, _, _, _) => 112
    case Rread(_, _) => 113
    case Twrite(_, _, _, _) => 114
    case Rwrite(_, _) => 115
    case Tclunk(_, _) => 116
    case Rclunk(_) => 117
    case Tstat(_, _) => 118
    case Rstat(_, _) => 119
    case Tmount(_, _, _) => 120
    case Rmount(_, _) => 121
  }

  predicate IsType(t: Byte) { 100 <= t <= 121 && t != 102 }

  /** The fields after the tag, in order. */
  function Layout(m: Fcall): seq<Field> {
    match m
    case Tversion(_, msize, version) => [F32(msize), FStr(version)]
    case Rversion(_, msize, version) => [F32(msize), FStr(version)]
    case Rerror(_, ename) => [FStr(ename)]
    case Tattach(_, fid, afid, uname, aname) => [F32(fid), F32(afid), FStr(uname), FStr(aname)]
    case Rattach(_, qid) => [FQid(qid)]
    case Twalk(_, fid, newfid, wname) => [F32(fid), F32(newfid), FNames(wname)]
    case Rwalk(_, wqid) => [FQids(wqid)]
    case Topen(_, fid, mode) => [F32(fid), F8(mode)]
    case Ropen(_, qid, iounit) => [FQid(qid), F32(iounit)]
    case Tcreate(_, fid, name, perm, mode) => [F32(fid), FStr(name), F32(perm), F8(mode)]
    case Rcreate(_, qid, iounit) => [FQid(qid), F32(iounit)]
    case Tread(_, fid, offset, count) => [F32(fid), F64(offset), F32(count)]
    case Rread(_, data) => [FData(data)]
    case Twrite(_, fid, offset, data) => [F32(fid), F64(offset), FData(data)]
    case Rwrite(_, count) => [F32(count)]
    case Tclunk(_, fid) => [F32(fid)]
    case Rclunk(_) => []
    case Tstat(_, fid) => [F32(fid)]
    case Rstat(_, stat) => [FStat(stat)]
    case Tmount(_, fid, mfid) => [F32(fid), F32(mfid)]
    case Rmount(_, qid) => [FQid(qid)]
  }

  /** The counts that a message holds besides its data fit their fields in the struct. */
  predicate Wellformed(m: Fcall) { AllFit(Layout(m)) }

  function Body(m: Fcall): Bytes
    requires Wellformed(m)
  {
    FieldsBytes(Layout(m))
  }

  /** The number of bytes the message takes, without any wrap-around. */
  function Size(m: Fcall): nat
    requires Wellformed(m)
  {
    7 + |Body(m)|
  }

  /** The wire form; the size field has 32 bits. */
  function WireForm(m: Fcall): (b: Bytes)
    requires Wellformed(m)
    ensures |b| == Size(m)
  {
    Le32(Size(m) % 0x1_0000_0000) + [TypeCode(m)] + Le16(m.tag) + Body(m)
  }

  /** Apart from its size field, `b` starts like the wire form of `m`. */
  predicate Holds(b: Bytes, m: Fcall) {
    && Wellformed(m) && |b| >= 7
    && b[4] == TypeCode(m) && b[5..7] == Le16(m.tag) && Body(m) <= b[7..]
  }

  lemma SameTypeSameKinds(m: Fcall, n: Fcall)
    requires TypeCode(m) == TypeCode(n)
    ensures |Layout(m)| == |Layout(n)| && forall i :: 0 <= i < |Layout(m)| ==> SameKind(Layout(m)[i], Layout(n)[i])
    ensures m.tag == n.tag && Layout(m) == Layout(n) ==> m == n
  {}

  /** A buffer holds at most one message: nothing about it depends on what comes after. */
  lemma HoldsUnique(b: Bytes, m: Fcall, n: Fcall)
    requires Holds(b, m) && Holds(b, n)
    ensures m == n
  {
    Number16(m.tag, b[5..7]);
    Number16(n.tag, b[5..7]);
    SameTypeSameKinds(m, n);
    FieldsUnique(b[7..], Layout(m), Layout(n));
  }

  /** A buffer starts with the wire form of a message exactly when it holds the message and its size field
      says so. */
  lemma HoldsWire(b: Bytes, m: Fcall)
    requires Wellformed(m)
    ensures WireForm(m) <= b <==> Holds(b, m) && Val32(b[..4]) == Size(m) % 0x1_0000_0000
  {
    var z := Size(m) % 0x1_0000_0000;
    if WireForm(m) <= b {
      assert b[..4] == WireForm(m)[..4] == Le32(z);
      assert b[4] == WireForm(m)[4];
      assert b[5..7] == WireForm(m)[5..7] == Le16(m.tag);
      assert WireForm(m)[7..] == Body(m);
      Number32(z, b[..4]);
    } else if Holds(b, m) && Val32(b[..4]) == z {
      Number32(z, b[..4]);
    }
  }

  /** The wire form is canonical: two messages whose wire forms both start a buffer are the same, so no wire
      form is a prefix of another. */
  lemma WireCanonical(b: Bytes, m: Fcall, n: Fcall)
    requires Wellformed(m) && Wellformed(n) && WireForm(m) <= b && WireForm(n) <= b
    ensures m == n
  {
    HoldsWire(b, m);
    HoldsWire(b, n);
    HoldsUnique(b, m, n);
  }
}
