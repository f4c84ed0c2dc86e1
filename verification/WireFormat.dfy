/** The bytes of every message, offset by offset, as the comments in fcall.h lay them out: size, type, tag, and then
    the fields of each type.  Numbers are little-endian; strings, lists and data have their length in front. */
module WireFormat {
  import opened Wire

  // ---------------------------------------------------------------- reading at an offset

  predicate U16At(b: Bytes, n: nat, x: nat) { n + 2 <= |b| && b[n] as int + 0x100 * b[n + 1] as int == x }

  predicate U32At(b: Bytes, n: nat, x: nat) {
    && n + 4 <= |b|
    && b[n] as int + 0x100 * b[n + 1] as int + 0x1_0000 * b[n + 2] as int + 0x100_0000 * b[n + 3] as int == x
  }

  /** Eight bytes: the low half first. */
  predicate U64At(b: Bytes, n: nat, x: nat) {
    n + 8 <= |b| && U32At(b, n, x % 0x1_0000_0000) && U32At(b, n + 4, x / 0x1_0000_0000)
  }

  predicate StrAt(b: Bytes, n: nat, s: Bytes) {
    U16At(b, n, |s|) && n + 2 + |s| <= |b| && b[n + 2..n + 2 + |s|] == s
  }

  predicate QidAt(b: Bytes, n: nat, q: Qid) {
    U32At(b, n, q.kind) && U32At(b, n + 4, q.version) && U64At(b, n + 8, q.id)
  }

  /** The strings follow one another, up to the end of the buffer. */
  predicate NamesAt(b: Bytes, n: nat, names: seq<Str>)
    decreases |names|
  {
    if names == [] then n == |b| else StrAt(b, n, names[0]) && NamesAt(b, n + 2 + |names[0]|, names[1..])
  }

  ghost predicate QidsAt(b: Bytes, n: nat, qids: seq<Qid>) {
    |b| == n + 16 * |qids| && forall i: nat :: i < |qids| ==> QidAt(b, n + 16 * i, qids[i])
  }

  lemma Digits16(b: Bytes, n: nat, x: U16)
    requires n + 2 <= |b| && b[n..n + 2] == Le16(x)
    ensures U16At(b, n, x)
  {
    assert b[n] == b[n..n + 2][0] && b[n + 1] == b[n..n + 2][1];
  }

  lemma Digits32(b: Bytes, n: nat, x: U32)
    requires n + 4 <= |b| && b[n..n + 4] == Le32(x)
    ensures U32At(b, n, x)
  {
    assert b[n..n + 2] == b[n..n + 4][..2] && b[n + 2..n + 4] == b[n..n + 4][2..];
    TwoHalves(Le16(x % 0x1_0000), Le16(x / 0x1_0000));
    Digits16(b, n, x % 0x1_0000);
    Digits16(b, n + 2, x / 0x1_0000);
  }

  lemma Digits64(b: Bytes, n: nat, x: U64)
    requires n + 8 <= |b| && b[n..n + 8] == Le64(x)
    ensures U64At(b, n, x)
  {
    assert b[n..n + 4] == b[n..n + 8][..4] && b[n + 4..n + 8] == b[n..n + 8][4..];
    TwoHalves(Le32(x % 0x1_0000_0000), Le32(x / 0x1_0000_0000));
    Digits32(b, n, x % 0x1_0000_0000);
    Digits32(b, n + 4, x / 0x1_0000_0000);
  }

  /** What `b` has from `n` on starts with `u`. */
  lemma Here(b: Bytes, n: nat, u: Bytes, rest: Bytes)
    requires n <= |b| && b[n..] == u + rest
    ensures n + |u| <= |b| && b[n..n + |u|] == u && b[n + |u|..] == rest
  {
    assert b[n..n + |u|] == b[n..][..|u|];
    assert b[n + |u|..] == b[n..][|u|..];
  }

  lemma StrHere(b: Bytes, n: nat, s: Str, rest: Bytes)
    requires n <= |b| && b[n..] == StrBytes(s) + rest
    ensures StrAt(b, n, s) && b[n + 2 + |s|..] == rest
  {
    assert b[n..] == Le16(|s|) + (s + rest);
    Here(b, n, Le16(|s|), s + rest);
    Here(b, n + 2, s, rest);
    Digits16(b, n, |s|);
  }

  lemma QidHere(b: Bytes, n: nat, q: Qid, rest: Bytes)
    requires n <= |b| && b[n..] == QidBytes(q) + rest
    ensures QidAt(b, n, q) && b[n + 16..] == rest
  {
    assert b[n..] == Le32(q.kind) + (Le32(q.version) + (Le64(q.id) + rest));
    Here(b, n, Le32(q.kind), Le32(q.version) + (Le64(q.id) + rest));
    Here(b, n + 4, Le32(q.version), Le64(q.id) + rest);
    Here(b, n + 8, Le64(q.id), rest);
    Digits32(b, n, q.kind);
    Digits32(b, n + 4, q.version);
    Digits64(b, n + 8, q.id);
  }

  lemma {:induction false} NamesHere(b: Bytes, n: nat, names: seq<Str>)
    requires n <= |b| && b[n..] == NamesBytes(names)
    ensures NamesAt(b, n, names)
    decreases |names|
  {
    if names != [] {
      StrHere(b, n, names[0], NamesBytes(names[1..]));
      NamesHere(b, n + 2 + |names[0]|, names[1..]);
    }
  }

  lemma {:induction false} QidsHere(b: Bytes, n: nat, qids: seq<Qid>)
    requires n <= |b| && b[n..] == QidsBytes(qids)
    ensures QidsAt(b, n, qids)
    decreases |qids|
  {
    if qids != [] {
      QidHere(b, n, qids[0], QidsBytes(qids[1..]));
      QidsHere(b, n + 16, qids[1..]);
      forall i: nat | i < |qids|
        ensures QidAt(b, n + 16 * i, qids[i])
      {
        if i > 0 {
          assert qids[i] == qids[1..][i - 1];
          assert n + 16 + 16 * (i - 1) == n + 16 * i;
        }
      }
    }
  }

  // ---------------------------------------------------------------- fields at an offset

  /** The bytes a field takes; lists and data are the last field of their message. */
  function Width(f: Field): nat {
    match f
    case F8(_) => 1
    case F16(_) => 2
    case F32(_) => 4
    case F64(_) => 8
    case FStr(s) => 2 + |s|
    case FQid(_) => 16
    case _ => 0
  }

  predicate Fixed(f: Field) { f.F8? || f.F16? || f.F32? || f.F64? || f.FStr? || f.FQid? }

  ghost predicate FieldAt(b: Bytes, n: nat, f: Field) {
    match f
    case F8(x) => n < |b| && b[n] == x
    case F16(x) => U16At(b, n, x)
    case F32(x) => U32At(b, n, x)
    case F64(x) => U64At(b, n, x)
    case FStr(s) => StrAt(b, n, s)
    case FNames(names) => U16At(b, n, |names|) && NamesAt(b, n + 2, names)
    case FQid(q) => QidAt(b, n, q)
    case FQids(qids) => U16At(b, n, |qids|) && QidsAt(b, n + 2, qids)
    case FData(data) => U32At(b, n, |data|) && b[n + 4..] == data
    case FStat(stat) => StrAt(b, n, stat) && |b| == n + 2 + |stat|
  }

  lemma FixedHere(b: Bytes, n: nat, f: Field, rest: Bytes)
    requires Fits(f) && Fixed(f) && n <= |b| && b[n..] == FieldBytes(f) + rest
    ensures FieldAt(b, n, f) && n + Width(f) <= |b| && b[n + Width(f)..] == rest
  {
    Here(b, n, FieldBytes(f), rest);
    match f
    case F8(x) => assert b[n] == b[n..n + 1][0];
    case F16(x) => Digits16(b, n, x);
    case F32(x) => Digits32(b, n, x);
    case F64(x) => Digits64(b, n, x);
    case FStr(s) => StrHere(b, n, s, rest);
    case FQid(q) => QidHere(b, n, q, rest);
  }

  lemma LastHere(b: Bytes, n: nat, f: Field)
    requires Fits(f) && n <= |b| && b[n..] == FieldBytes(f)
    ensures FieldAt(b, n, f) && (Fixed(f) ==> |b| == n + Width(f))
  {
    if Fixed(f) {
      assert b[n..] == FieldBytes(f) + [];
      FixedHere(b, n, f, []);
    } else {
      match f
      case FNames(names) =>
        Here(b, n, Le16(|names|), NamesBytes(names));
        Digits16(b, n, |names|);
        NamesHere(b, n + 2, names);
      case FQids(qids) =>
        Here(b, n, Le16(|qids|), QidsBytes(qids));
        Digits16(b, n, |qids|);
        QidsHere(b, n + 2, qids);
      case FData(data) =>
        Here(b, n, Le32(|data|), data);
        Digits32(b, n, |data|);
      case FStat(stat) =>
        assert b[n..] == StrBytes(stat) + [];
        StrHere(b, n, stat, []);
    }
  }

  /** Fields one after the other from `n` to the end of the buffer. */
  ghost predicate AllAt(b: Bytes, n: nat, fs: seq<Field>)
    decreases |fs|
  {
    if fs == [] then n == |b|
    else if |fs| == 1 then FieldAt(b, n, fs[0]) && (Fixed(fs[0]) ==> |b| == n + Width(fs[0]))
    else FieldAt(b, n, fs[0]) && AllAt(b, n + Width(fs[0]), fs[1..])
  }

  lemma {:induction false} FieldsHere(b: Bytes, n: nat, fs: seq<Field>)
    requires AllFit(fs) && n <= |b| && b[n..] == FieldsBytes(fs)
    requires forall i :: 0 <= i < |fs| - 1 ==> Fixed(fs[i])
    ensures AllAt(b, n, fs)
    decreases |fs|
  {
    if |fs| == 1 {
      assert FieldsBytes(fs) == FieldBytes(fs[0]);
      LastHere(b, n, fs[0]);
    } else if |fs| > 1 {
      FixedHere(b, n, fs[0], FieldsBytes(fs[1..]));
      FieldsHere(b, n + Width(fs[0]), fs[1..]);
    }
  }

  lemma At1(b: Bytes, n: nat, f: Field)
    requires AllAt(b, n, [f])
    ensures FieldAt(b, n, f) && (Fixed(f) ==> |b| == n + Width(f))
  {}

  lemma At2(b: Bytes, n: nat, f: Field, g: Field)
    requires AllAt(b, n, [f, g])
    ensures FieldAt(b, n, f) && FieldAt(b, n + Width(f), g) && (Fixed(g) ==> |b| == n + Width(f) + Width(g))
  {
    assert [f, g][1..] == [g];
    At1(b, n + Width(f), g);
  }

  lemma At3(b: Bytes, n: nat, f: Field, g: Field, h: Field)
    requires AllAt(b, n, [f, g, h])
    ensures FieldAt(b, n, f) && FieldAt(b, n + Width(f), g) && FieldAt(b, n + Width(f) + Width(g), h)
    ensures Fixed(h) ==> |b| == n + Width(f) + Width(g) + Width(h)
  {
    assert [f, g, h][1..] == [g, h];
    At2(b, n + Width(f), g, h);
  }

  lemma At4(b: Bytes, n: nat, f: Field, g: Field, h: Field, k: Field)
    requires AllAt(b, n, [f, g, h, k])
    ensures FieldAt(b, n, f) && FieldAt(b, n + Width(f), g) && FieldAt(b, n + Width(f) + Width(g), h)
    ensures FieldAt(b, n + Width(f) + Width(g) + Width(h), k)
    ensures Fixed(k) ==> |b| == n + Width(f) + Width(g) + Width(h) + Width(k)
  {
    assert [f, g, h, k][1..] == [g, h, k];
    At3(b, n + Width(f), g, h, k);
  }

  // ---------------------------------------------------------------- the format

  /** The type and the fields of a message, at their places; `b` is the whole buffer. */
  ghost predicate Format(b: Bytes, m: Fcall) {
    && U32At(b, 0, |b| % 0x1_0000_0000) && |b| >= 7 && U16At(b, 5, m.tag)
    && match m
       case Tversion(_, msize, version) =>
         b[4] == 100 && U32At(b, 7, msize) && StrAt(b, 11, version) && |b| == 13 + |version|
       case Rversion(_, msize, version) =>
         b[4] == 101 && U32At(b, 7, msize) && StrAt(b, 11, version) && |b| == 13 + |version|
       case Rerror(_, ename) => b[4] == 103 && StrAt(b, 7, ename) && |b| == 9 + |ename|
       case Tattach(_, fid, afid, uname, aname) =>
         && b[4] == 104 && U32At(b, 7, fid) && U32At(b, 11, afid) && StrAt(b, 15, uname)
         && StrAt(b, 17 + |uname|, aname) && |b| == 19 + |uname| + |aname|
       case Rattach(_, qid) => b[4] == 105 && QidAt(b, 7, qid) && |b| == 23
       case Twalk(_, fid, newfid, wname) =>
         b[4] == 106 && U32At(b, 7, fid) && U32At(b, 11, newfid) && U16At(b, 15, |wname|) && NamesAt(b, 17, wname)
       case Rwalk(_, wqid) => b[4] == 107 && U16At(b, 7, |wqid|) && QidsAt(b, 9, wqid)
       case Topen(_, fid, mode) => b[4] == 108 && U32At(b, 7, fid) && |b| == 12 && b[11] == mode
       case Ropen(_, qid, iounit) => b[4] == 109 && QidAt(b, 7, qid) && U32At(b, 23, iounit) && |b| == 27
       case Tcreate(_, fid, name, perm, mode) =>
         && b[4] == 110 && U32At(b, 7, fid) && StrAt(b, 11, name) && U32At(b, 13 + |name|, perm)
         && |b| == 18 + |name| && b[17 + |name|] == mode
       case Rcreate(_, qid, iounit) => b[4] == 111 && QidAt(b, 7, qid) && U32At(b, 23, iounit) && |b| == 27
       case Tread(_, fid, offset, count) =>
         b[4] == 112 && U32At(b, 7, fid) && U64At(b, 11, offset) && U32At(b, 19, count) && |b| == 23
       case Rread(_, data) => b[4] == 113 && U32At(b, 7, |data|) && b[11..] == data
       case Twrite(_, fid, offset, data) =>
         b[4] == 114 && U32At(b, 7, fid) && U64At(b, 11, offset) && U32At(b, 19, |data|) && b[23..] == data
       case Rwrite(_, count) => b[4] == 115 && U32At(b, 7, count) && |b| == 11
       case Tclunk(_, fid) => b[4] == 116 && U32At(b, 7, fid) && |b| == 11
       case Rclunk(_) => b[4] == 117 && |b| == 7
       case Tstat(_, fid) => b[4] == 118 && U32At(b, 7, fid) && |b| == 11
       case Rstat(_, stat) => b[4] == 119 && StrAt(b, 7, stat) && |b| == 9 + |stat|
       case Tmount(_, fid, mfid) => b[4] == 120 && U32At(b, 7, fid) && U32At(b, 11, mfid) && |b| == 15
       case Rmount(_, qid) => b[4] == 121 && QidAt(b, 7, qid) && |b| == 23
  }

  lemma HeadIs(m: Fcall)
    requires Wellformed(m)
    ensures var b := WireForm(m);
            && |b| >= 7 && U32At(b, 0, |b| % 0x1_0000_0000) && b[4] == TypeCode(m) && U16At(b, 5, m.tag)
            && AllAt(b, 7, Layout(m))
  {
    var b := WireForm(m);
    var size := Size(m) % 0x1_0000_0000;
    assert b[0..] == Le32(size) + ([TypeCode(m)] + (Le16(m.tag) + Body(m)));
    Here(b, 0, Le32(size), [TypeCode(m)] + (Le16(m.tag) + Body(m)));
    Here(b, 4, [TypeCode(m)], Le16(m.tag) + Body(m));
    Here(b, 5, Le16(m.tag), Body(m));
    Digits32(b, 0, size);
    Digits16(b, 5, m.tag);
    assert b[4] == b[4..5][0];
    FieldsHere(b, 7, Layout(m));
  }

  lemma RequestFormat(m: Fcall)
    requires Wellformed(m) && (m.Tattach? || m.Twalk? || m.Tcreate?)
    ensures Format(WireForm(m), m)
  {
    HeadIs(m);
    var b := WireForm(m);
    match m
    case Tattach(_, fid, afid, uname, aname) => At4(b, 7, F32(fid), F32(afid), FStr(uname), FStr(aname));
    case Twalk(_, fid, newfid, wname) => At3(b, 7, F32(fid), F32(newfid), FNames(wname));
    case Tcreate(_, fid, name, perm, mode) => At4(b, 7, F32(fid), FStr(name), F32(perm), F8(mode));
    case _ =>
  }

  lemma TransferFormat(m: Fcall)
    requires Wellformed(m) && (m.Topen? || m.Tread? || m.Twrite?)
    ensures Format(WireForm(m), m)
  {
    HeadIs(m);
    var b := WireForm(m);
    match m
    case Topen(_, fid, mode) => At2(b, 7, F32(fid), F8(mode));
    case Tread(_, fid, offset, count) => At3(b, 7, F32(fid), F64(offset), F32(count));
    case Twrite(_, fid, offset, data) => At3(b, 7, F32(fid), F64(offset), FData(data));
    case _ =>
  }

  lemma SmallFormat(m: Fcall)
    requires Wellformed(m)
    requires m.Tversion? || m.Rversion? || m.Tclunk? || m.Rclunk? || m.Tstat? || m.Tmount? || m.Rwrite? || m.Rerror?
    ensures Format(WireForm(m), m)
  {
    HeadIs(m);
    var b := WireForm(m);
    match m
    case Tversion(_, msize, version) => At2(b, 7, F32(msize), FStr(version));
    case Rversion(_, msize, version) => At2(b, 7, F32(msize), FStr(version));
    case Rerror(_, ename) => At1(b, 7, FStr(ename));
    case Rwrite(_, count) => At1(b, 7, F32(count));
    case Tclunk(_, fid) => At1(b, 7, F32(fid));
    case Tstat(_, fid) => At1(b, 7, F32(fid));
    case Tmount(_, fid, mfid) => At2(b, 7, F32(fid), F32(mfid));
    case _ =>
  }

  lemma QidFormat(m: Fcall)
    requires Wellformed(m) && (m.Rattach? || m.Rmount? || m.Ropen? || m.Rcreate?)
    ensures Format(WireForm(m), m)
  {
    HeadIs(m);
    var b := WireForm(m);
    match m
    case Rattach(_, qid) => At1(b, 7, FQid(qid));
    case Ropen(_, qid, iounit) => At2(b, 7, FQid(qid), F32(iounit));
    case Rcreate(_, qid, iounit) => At2(b, 7, FQid(qid), F32(iounit));
    case Rmount(_, qid) => At1(b, 7, FQid(qid));
    case _ =>
  }

  lemma ListFormat(m: Fcall)
    requires Wellformed(m) && (m.Rwalk? || m.Rread? || m.Rstat?)
    ensures Format(WireForm(m), m)
  {
    HeadIs(m);
    var b := WireForm(m);
    match m
    case Rwalk(_, wqid) => At1(b, 7, FQids(wqid));
    case Rread(_, data) => At1(b, 7, FData(data));
    case Rstat(_, stat) => At1(b, 7, FStat(stat));
    case _ =>
  }

  /** The wire form of every message has the format. */
  lemma FormatOf(m: Fcall)
    requires Wellformed(m)
    ensures Format(WireForm(m), m)
  {
    if m.Tattach? || m.Twalk? || m.Tcreate? {
      RequestFormat(m);
    } else if m.Topen? || m.Tread? || m.Twrite? {
      TransferFormat(m);
    } else if m.Rattach? || m.Rmount? || m.Ropen? || m.Rcreate? {
      QidFormat(m);
    } else if m.Rwalk? || m.Rread? || m.Rstat? {
      ListFormat(m);
    } else {
      SmallFormat(m);
    }
  }
}
