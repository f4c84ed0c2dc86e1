/** The message codec (fcall_msg_size.c, fcall_msg_to_buf.c, fcall_buf_to_msg.c): three separate
    switches over the 21 message types, proved to agree with one wire form. */
module FcallCodec {
  import opened Wire
  import opened FcallEnough

  const TWO32 := 0x1_0000_0000

  // ---------------------------------------------------------------- sizes

  function FieldSize(f: Field): nat {
    match f
    case F8(_) => 1
    case F16(_) => 2
    case F32(_) => 4
    case F64(_) => 8
    case FStr(s) => 2 + |s|
    case FNames(names) => 2 + NamesSize(names)
    case FQid(_) => 16
    case FQids(qids) => 2 + 16 * |qids|
    case FData(data) => 4 + |data|
    case FStat(stat) => 2 + |stat|
  }

  /** The bytes of a list of strings, each with its length. */
  function NamesSize(names: seq<Str>): nat {
    if names == [] then 0 else 2 + |names[0]| + NamesSize(names[1..])
  }

  lemma {:induction false} NamesSizeBytes(names: seq<Str>)
    ensures |NamesBytes(names)| == NamesSize(names)
  {
    if names != [] {
      NamesSizeBytes(names[1..]);
    }
  }

  lemma {:induction false} NamesSnoc(names: seq<Str>, s: Str)
    ensures NamesSize(names + [s]) == NamesSize(names) + 2 + |s|
    ensures NamesBytes(names + [s]) == NamesBytes(names) + StrBytes(s)
  {
    if names == [] {
      assert names + [s] == [s];
    } else {
      NamesSnoc(names[1..], s);
      assert (names + [s])[1..] == names[1..] + [s];
      NamesMore(names, names + [s], s);
    }
  }

  lemma NamesMore(names: seq<Str>, more: seq<Str>, s: Str)
    requires names != [] && more != [] && more[0] == names[0]
    requires NamesBytes(more[1..]) == NamesBytes(names[1..]) + StrBytes(s)
    ensures NamesBytes(more) == NamesBytes(names) + StrBytes(s)
  {
    Regroup(StrBytes(names[0]), NamesBytes(names[1..]), StrBytes(s));
  }

  lemma Regroup(a: Bytes, b: Bytes, c: Bytes)
    ensures a + (b + c) == (a + b) + c
  {}

  lemma FieldSizeBytes(f: Field)
    requires Fits(f)
    ensures |FieldBytes(f)| == FieldSize(f)
  {
    if f.FNames? {
      NamesSizeBytes(f.names);
    }
  }

  function FieldsSize(fs: seq<Field>): nat {
    if fs == [] then 0 else FieldSize(fs[0]) + FieldsSize(fs[1..])
  }

  lemma {:induction false} FieldsSizeBytes(fs: seq<Field>)
    requires AllFit(fs)
    ensures |FieldsBytes(fs)| == FieldsSize(fs)
  {
    if fs != [] {
      FieldSizeBytes(fs[0]);
      FieldsSizeBytes(fs[1..]);
    }
  }

  /** The number of bytes after the tag, type by type. */
  function BodySize(m: Fcall): nat {
    match m
    case Tversion(_, _, version) => 6 + |version|
    case Rversion(_, _, version) => 6 + |version|
    case Rerror(_, ename) => 2 + |ename|
    case Tattach(_, _, _, uname, aname) => 12 + |uname| + |aname|
    case Rattach(_, _) => 16
    case Twalk(_, _, _, wname) => 10 + NamesSize(wname)
    case Rwalk(_, wqid) => 2 + 16 * |wqid|
    case Topen(_, _, _) => 5
    case Ropen(_, _, _) => 20
    case Tcreate(_, _, name, _, _) => 11 + |name|
    case Rcreate(_, _, _) => 20
    case Tread(_, _, _, _) => 16
    case Rread(_, data) => 4 + |data|
    case Twrite(_, _, _, data) => 16 + |data|
    case Rwrite(_, _) => 4
    case Tclunk(_, _) => 4
    case Rclunk(_) => 0
    case Tstat(_, _) => 4
    case Rstat(_, stat) => 2 + |stat|
    case Tmount(_, _, _) => 8
    case Rmount(_, _) => 16
  }

  lemma Sum1(a: Field)
    ensures FieldsSize([a]) == FieldSize(a)
  {
    assert [a][1..] == [];
  }

  lemma Sum2(a: Field, b: Field)
    ensures FieldsSize([a, b]) == FieldSize(a) + FieldSize(b)
  {
    Sum1(b);
    assert [a, b][1..] == [b];
  }

  lemma Sum3(a: Field, b: Field, c: Field)
    ensures FieldsSize([a, b, c]) == FieldSize(a) + FieldSize(b) + FieldSize(c)
  {
    Sum2(b, c);
    assert [a, b, c][1..] == [b, c];
  }

  lemma Sum4(a: Field, b: Field, c: Field, d: Field)
    ensures FieldsSize([a, b, c, d]) == FieldSize(a) + FieldSize(b) + FieldSize(c) + FieldSize(d)
  {
    Sum3(b, c, d);
    assert [a, b, c, d][1..] == [b, c, d];
  }

  lemma LayoutSizeT(m: Fcall)
    requires TypeCode(m) % 2 == 0 && TypeCode(m) <= 110
    ensures FieldsSize(Layout(m)) == BodySize(m)
  {
    match m
    case Tversion(_, msize, version) => Sum2(F32(msize), FStr(version));
    case Tattach(_, fid, afid, uname, aname) => Sum4(F32(fid), F32(afid), FStr(uname), FStr(aname));
    case Twalk(_, fid, newfid, wname) => Sum3(F32(fid), F32(newfid), FNames(wname));
    case Topen(_, fid, mode) => Sum2(F32(fid), F8(mode));
    case Tcreate(_, fid, name, perm, mode) => Sum4(F32(fid), FStr(name), F32(perm), F8(mode));
  }

  lemma LayoutSizeT2(m: Fcall)
    requires TypeCode(m) % 2 == 0 && TypeCode(m) > 110
    ensures FieldsSize(Layout(m)) == BodySize(m)
  {
    match m
    case Tread(_, fid, offset, count) => Sum3(F32(fid), F64(offset), F32(count));
    case Twrite(_, fid, offset, data) => Sum3(F32(fid), F64(offset), FData(data));
    case Tclunk(_, fid) => Sum1(F32(fid));
    case Tstat(_, fid) => Sum1(F32(fid));
    case Tmount(_, fid, mfid) => Sum2(F32(fid), F32(mfid));
  }

  lemma LayoutSizeR(m: Fcall)
    requires TypeCode(m) % 2 == 1
    ensures FieldsSize(Layout(m)) == BodySize(m)
  {
    match m
    case Rversion(_, msize, version) => Sum2(F32(msize), FStr(version));
    case Rerror(_, ename) => Sum1(FStr(ename));
    case Rattach(_, qid) => Sum1(FQid(qid));
    case Rwalk(_, wqid) => Sum1(FQids(wqid));
    case Ropen(_, qid, iounit) => Sum2(FQid(qid), F32(iounit));
    case Rcreate(_, qid, iounit) => Sum2(FQid(qid), F32(iounit));
    case Rread(_, data) => Sum1(FData(data));
    case Rwrite(_, count) => Sum1(F32(count));
    case Rclunk(_) =>
    case Rstat(_, stat) => Sum1(FStat(stat));
    case Rmount(_, qid) => Sum1(FQid(qid));
  }

  lemma BodySizeIsSize(m: Fcall)
    requires Wellformed(m)
    ensures Size(m) == 7 + BodySize(m)
  {
    FieldsSizeBytes(Layout(m));
    if TypeCode(m) % 2 == 0 {
      if TypeCode(m) <= 110 { LayoutSizeT(m); } else { LayoutSizeT2(m); }
    } else {
      LayoutSizeR(m);
    }
  }

  /** `fcall_msg_size`, before the conversion to 32 bits. */
  method TrueSize(m: Fcall) returns (size: nat)
    requires Wellformed(m)
    ensures size == Size(m)
  {
    BodySizeIsSize(m);
    size := 4 + 1 + 2;
    match m {
      case Tversion(_, _, version) => size := size + 4; size := size + 2 + |version|;
      case Rversion(_, _, version) => size := size + 4; size := size + 2 + |version|;
      case Rerror(_, ename) => size := size + 2 + |ename|;
      case Tattach(_, _, _, uname, aname) =>
        size := size + 4;
        size := size + 4;
        size := size + 2 + |uname|;
        size := size + 2 + |aname|;
      case Rattach(_, _) => size := size + 16;
      case Twalk(_, _, _, wname) =>
        size := size + 4;
        size := size + 4;
        size := size + 2;
        assert wname[..0] == [] && wname[..|wname|] == wname;
        for i := 0 to |wname|
          invariant size == 17 + NamesSize(wname[..i])
        {
          NamesSnoc(wname[..i], wname[i]);
          assert wname[..i + 1] == wname[..i] + [wname[i]];
          size := size + 2 + |wname[i]|;
        }
      case Rwalk(_, wqid) => size := size + 2; size := size + 16 * |wqid|;
      case Topen(_, _, _) => size := size + 4; size := size + 1;
      case Ropen(_, _, _) => size := size + 16; size := size + 4;
      case Tcreate(_, _, name, _, _) =>
        size := size + 4;
        size := size + 2 + |name|;
        size := size + 4;
        size := size + 1;
      case Rcreate(_, _, _) => size := size + 16; size := size + 4;
      case Tread(_, _, _, _) => size := size + 4; size := size + 8; size := size + 4;
      case Rread(_, data) => size := size + 4; size := size + |data|;
      case Twrite(_, _, _, data) => size := size + 4; size := size + 8; size := size + 4; size := size + |data|;
      case Rwrite(_, _) => size := size + 4;
      case Tclunk(_, _) => size := size + 4;
      case Rclunk(_) =>
      case Tstat(_, _) => size := size + 4;
      case Rstat(_, stat) => size := size + 2; size := size + |stat|;
      case Tmount(_, _, _) => size := size + 4; size := size + 4;
      case Rmount(_, _) => size := size + 16;
    }
  }

  /** What a struct can hold: a message, or a type value that no message has. */
  datatype AnyFcall = Known(m: Fcall) | Unknown(kind: Byte)

  /** `fcall_msg_size`: the result has 32 bits, and 0 stands for failure. */
  method MsgSize(f: AnyFcall) returns (size: U32)
    requires f.Known? ==> Wellformed(f.m)
    ensures size == if f.Known? then Size(f.m) % TWO32 else 0
  {
    if f.Unknown? {
      return 0;
    }
    var all := TrueSize(f.m);
    size := all % TWO32;
  }

  // ---------------------------------------------------------------- writing

  /** `b` with the bytes `x` written at `p`. */
  function Patch(b: Bytes, p: nat, x: Bytes): (r: Bytes)
    requires p + |x| <= |b|
    ensures |r| == |b|
  {
    b[..p] + x + b[p + |x|..]
  }

  lemma PatchTwice(b: Bytes, p: nat, x: Bytes, y: Bytes)
    requires p + |x| + |y| <= |b|
    ensures Patch(Patch(b, p, x), p + |x|, y) == Patch(b, p, x + y)
  {
    var c := Patch(b, p, x);
    assert c[..p + |x|] == b[..p] + x;
    assert c[p + |x| + |y|..] == b[p + |x| + |y|..];
  }

  /** The buffer held `was`; it now starts with `head` and the bytes of `fs`, which end at `ptr`. */
  ghost predicate Written(now: Bytes, was: Bytes, head: Bytes, fs: seq<Field>, ptr: nat) {
    && AllFit(fs) && ptr == |head + FieldsBytes(fs)| <= |was|
    && now == Patch(was, 0, head + FieldsBytes(fs))
  }

  lemma PatchedStart(b: Bytes, x: Bytes)
    requires |x| <= |b|
    ensures x <= Patch(b, 0, x)
  {}

  /** One more byte of `s` written behind the first `i`. */
  lemma PatchNext(was: Bytes, p: nat, s: Bytes, i: nat)
    requires i < |s| && p + |s| <= |was|
    ensures Patch(Patch(was, p, s[..i]), p + i, [s[i]]) == Patch(was, p, s[..i + 1])
  {
    assert s[..i + 1] == s[..i] + [s[i]];
    PatchTwice(was, p, s[..i], [s[i]]);
  }

  lemma DataMore(head: Bytes, fs: seq<Field>, f: Field)
    requires AllFit(fs) && Fits(f)
    ensures AllFit(fs + [f]) && head + FieldsBytes(fs + [f]) == head + FieldsBytes(fs) + FieldBytes(f)
  {
    FieldsSnoc(fs, f);
  }

  lemma WrittenMore(before: Bytes, was: Bytes, head: Bytes, fs: seq<Field>, ptr: nat, f: Field, x: Bytes)
    requires Written(before, was, head, fs, ptr) && Fits(f) && x == FieldBytes(f) && ptr + |x| <= |was|
    ensures Written(Patch(before, ptr, x), was, head, fs + [f], ptr + |x|)
  {
    DataMore(head, fs, f);
    PatchTwice(was, 0, head + FieldsBytes(fs), x);
  }

  /** `_put_uchar` */
  method PutUchar(buf: array<Byte>, ptr: nat, val: Byte) returns (n: nat)
    requires ptr + 1 <= buf.Length
    modifies buf
    ensures n == 1 && buf[..] == Patch(old(buf[..]), ptr, [val])
  {
    buf[ptr] := val;
    return 1;
  }

  /** `_put_ushort` */
  method PutUshort(buf: array<Byte>, ptr: nat, val: U16) returns (n: nat)
    requires ptr + 2 <= buf.Length
    modifies buf
    ensures n == 2 && buf[..] == Patch(old(buf[..]), ptr, Le16(val))
  {
    buf[ptr] := val % 0x100;
    buf[ptr + 1] := val / 0x100 % 0x100;
    return 2;
  }

  lemma Digits(x: U32, a: Byte, b: Byte, c: Byte, d: Byte)
    requires x == a as int + 0x100 * b as int + 0x1_0000 * c as int + 0x100_0000 * d as int
    ensures x % 0x100 == a && x / 0x100 % 0x100 == b && x / 0x1_0000 % 0x100 == c && x / 0x100_0000 % 0x100 == d
  {
    Digit(x, 1, 0, a, b as int + 0x100 * c as int + 0x1_0000 * d as int);
    Digit(x, 0x100, a as int, b, c as int + 0x100 * d as int);
    Digit(x, 0x1_0000, a as int + 0x100 * b as int, c, d as int);
    Digit(x, 0x100_0000, a as int + 0x100 * b as int + 0x1_0000 * c as int, d, 0);
  }

  /** The digit of weight `w`, below it `low`, above it `high`. */
  lemma Digit(x: nat, w: nat, low: nat, digit: Byte, high: nat)
    requires w == 1 || w == 0x100 || w == 0x1_0000 || w == 0x100_0000
    requires low < w && x == low + w * (digit as int + 0x100 * high)
    ensures x / w % 0x100 == digit
  {
    assert x / w == digit as int + 0x100 * high;
  }

  lemma Bytes32(x: U32)
    ensures Le32(x) == [x % 0x100, x / 0x100 % 0x100, x / 0x1_0000 % 0x100, x / 0x100_0000 % 0x100]
  {
    var b := Le32(x);
    Digits(x, b[0], b[1], b[2], b[3]);
  }

  /** `_put_uint` */
  method PutUint(buf: array<Byte>, ptr: nat, val: U32) returns (n: nat)
    requires ptr + 4 <= buf.Length
    modifies buf
    ensures n == 4 && buf[..] == Patch(old(buf[..]), ptr, Le32(val))
  {
    Bytes32(val);
    buf[ptr], buf[ptr + 1], buf[ptr + 2], buf[ptr + 3] :=
      val % 0x100, val / 0x100 % 0x100, val / 0x1_0000 % 0x100, val / 0x100_0000 % 0x100;
    return 4;
  }

  /** `_put_ulong` */
  method PutUlong(buf: array<Byte>, ptr: nat, val: U64) returns (n: nat)
    requires ptr + 8 <= buf.Length
    modifies buf
    ensures n == 8 && buf[..] == Patch(old(buf[..]), ptr, Le64(val))
  {
    PatchTwice(buf[..], ptr, Le32(val % TWO32), Le32(val / TWO32));
    var low := PutUint(buf, ptr, val % TWO32);
    var high := PutUint(buf, ptr + 4, val / TWO32);
    return low + high;
  }

  /** The bytes of a string, or of message data that is moved into the buffer as a whole. */
  method PutBytes(buf: array<Byte>, ptr: nat, data: Bytes) returns (n: nat)
    requires ptr + |data| <= buf.Length
    modifies buf
    ensures n == |data| && buf[..] == Patch(old(buf[..]), ptr, data)
  {
    ghost var was := buf[..];
    for i := 0 to |data|
      invariant buf[..] == Patch(was, ptr, data[..i])
    {
      PatchNext(was, ptr, data, i);
      var k := PutUchar(buf, ptr + i, data[i]);
    }
    assert data[..|data|] == data;
    return |data|;
  }

  /** `_put_pstring` */
  method PutPstring(buf: array<Byte>, ptr: nat, s: Str) returns (n: nat)
    requires ptr + 2 + |s| <= buf.Length
    modifies buf
    ensures n == 2 + |s| && buf[..] == Patch(old(buf[..]), ptr, StrBytes(s))
  {
    PatchTwice(buf[..], ptr, Le16(|s|), s);
    n := PutUshort(buf, ptr, |s|);
    var k := PutBytes(buf, ptr + n, s);
    n := n + k;
  }

  /** `_put_qid` */
  method PutQid(buf: array<Byte>, ptr: nat, q: Qid) returns (n: nat)
    requires ptr + 16 <= buf.Length
    modifies buf
    ensures n == 16 && buf[..] == Patch(old(buf[..]), ptr, QidBytes(q))
  {
    PatchTwice(buf[..], ptr, Le32(q.kind), Le32(q.version));
    PatchTwice(buf[..], ptr, Le32(q.kind) + Le32(q.version), Le64(q.id));
    n := PutUint(buf, ptr, q.kind);
    var m := PutUint(buf, ptr + n, q.version);
    n := n + m;
    m := PutUlong(buf, ptr + n, q.id);
    n := n + m;
  }

  /** The first `i` path elements have been written from `p` on, as `n` bytes. */
  ghost predicate NamesAt(now: Bytes, was: Bytes, p: nat, names: seq<Str>, i: nat, n: nat) {
    && i <= |names| && n == NamesSize(names[..i]) == |NamesBytes(names[..i])| && p + n <= |was| == |now|
    && now == Patch(was, p, NamesBytes(names[..i]))
  }

  lemma NamesNext(before: Bytes, now: Bytes, was: Bytes, p: nat, names: seq<Str>, i: nat, n: nat)
    requires i < |names| && p + NamesSize(names) <= |was| && NamesAt(before, was, p, names, i, n)
    ensures p + n + 2 + |names[i]| <= |before|
    ensures now == Patch(before, p + n, StrBytes(names[i])) ==> NamesAt(now, was, p, names, i + 1, n + 2 + |names[i]|)
  {
    assert names[..i + 1] == names[..i] + [names[i]];
    NamesSnoc(names[..i], names[i]);
    NamesPrefix(names, i + 1);
    NamesSizeBytes(names[..i + 1]);
    PatchTwice(was, p, NamesBytes(names[..i]), StrBytes(names[i]));
  }

  lemma NamesNone(was: Bytes, p: nat, names: seq<Str>)
    requires p <= |was|
    ensures NamesAt(was, was, p, names, 0, 0)
  {
    assert names[..0] == [];
  }

  lemma NamesAll(now: Bytes, was: Bytes, p: nat, names: seq<Str>, n: nat)
    requires NamesAt(now, was, p, names, |names|, n)
    ensures n == NamesSize(names) == |NamesBytes(names)| && now == Patch(was, p, NamesBytes(names))
  {
    assert names[..|names|] == names;
  }

  /** The loop over the path elements of Twalk. */
  method PutNames(buf: array<Byte>, ptr: nat, names: seq<Str>) returns (n: nat)
    requires ptr + NamesSize(names) <= buf.Length
    modifies buf
    ensures n == NamesSize(names) == |NamesBytes(names)|
    ensures buf[..] == Patch(old(buf[..]), ptr, NamesBytes(names))
  {
    NamesSizeBytes(names);
    n := 0;
    ghost var was := buf[..];
    NamesNone(was, ptr, names);
    for i := 0 to |names|
      invariant NamesAt(buf[..], was, ptr, names, i, n)
    {
      ghost var before := buf[..];
      NamesNext(before, before, was, ptr, names, i, n);
      var k := PutPstring(buf, ptr + n, names[i]);
      NamesNext(before, buf[..], was, ptr, names, i, n);
      n := n + k;
    }
    NamesAll(buf[..], was, ptr, names, n);
  }

  lemma {:induction false} NamesPrefix(names: seq<Str>, i: nat)
    requires i <= |names|
    ensures NamesSize(names[..i]) <= NamesSize(names)
  {
    if i > 0 {
      NamesPrefix(names[1..], i - 1);
      assert names[..i][1..] == names[1..][..i - 1];
    }
  }

  /** The loop over the qids of Rwalk. */
  method PutQids(buf: array<Byte>, ptr: nat, qids: seq<Qid>) returns (n: nat)
    requires ptr + 16 * |qids| <= buf.Length
    modifies buf
    ensures n == 16 * |qids| && buf[..] == Patch(old(buf[..]), ptr, QidsBytes(qids))
  {
    n := 0;
    ghost var was := buf[..];
    for i := 0 to |qids|
      invariant n == |QidsBytes(qids[..i])| && n == 16 * i && ptr + n <= buf.Length
      invariant buf[..] == Patch(was, ptr, QidsBytes(qids[..i]))
    {
      QidsSnoc(qids[..i], qids[i]);
      assert qids[..i + 1] == qids[..i] + [qids[i]];
      PatchTwice(was, ptr, QidsBytes(qids[..i]), QidBytes(qids[i]));
      var k := PutQid(buf, ptr + n, qids[i]);
      n := n + k;
    }
    assert qids[..|qids|] == qids;
  }

  lemma {:induction false} QidsSnoc(qids: seq<Qid>, q: Qid)
    ensures QidsBytes(qids + [q]) == QidsBytes(qids) + QidBytes(q)
  {
    if qids == [] {
      assert qids + [q] == [q];
    } else {
      QidsSnoc(qids[1..], q);
      assert (qids + [q])[1..] == qids[1..] + [q];
      Regroup(QidBytes(qids[0]), QidsBytes(qids[1..]), QidBytes(q));
    }
  }

  // ---------------------------------------------------------------- writing one field of a message

  /** Fields that consist of a count and what it counts. */
  method PutNamesField(buf: array<Byte>, ptr: nat, names: seq<Str>) returns (n: nat)
    requires |names| < 0x1_0000 && ptr + 2 + NamesSize(names) <= buf.Length
    modifies buf
    ensures n == 2 + NamesSize(names) == |Le16(|names|) + NamesBytes(names)|
    ensures buf[..] == Patch(old(buf[..]), ptr, Le16(|names|) + NamesBytes(names))
  {
    NamesSizeBytes(names);
    PatchTwice(buf[..], ptr, Le16(|names|), NamesBytes(names));
    n := PutUshort(buf, ptr, |names|);
    var k := PutNames(buf, ptr + n, names);
    n := n + k;
  }

  method PutQidsField(buf: array<Byte>, ptr: nat, qids: seq<Qid>) returns (n: nat)
    requires |qids| < 0x1_0000 && ptr + 2 + 16 * |qids| <= buf.Length
    modifies buf
    ensures n == 2 + 16 * |qids| && buf[..] == Patch(old(buf[..]), ptr, Le16(|qids|) + QidsBytes(qids))
  {
    PatchTwice(buf[..], ptr, Le16(|qids|), QidsBytes(qids));
    n := PutUshort(buf, ptr, |qids|);
    var k := PutQids(buf, ptr + n, qids);
    n := n + k;
  }

  method PutDataField(buf: array<Byte>, ptr: nat, data: Bytes) returns (n: nat)
    requires |data| < TWO32 && ptr + 4 + |data| <= buf.Length
    modifies buf
    ensures n == 4 + |data| && buf[..] == Patch(old(buf[..]), ptr, Le32(|data|) + data)
  {
    PatchTwice(buf[..], ptr, Le32(|data|), data);
    n := PutUint(buf, ptr, |data|);
    var k := PutBytes(buf, ptr + n, data);
    n := n + k;
  }

  method PutStatField(buf: array<Byte>, ptr: nat, stat: Bytes) returns (n: nat)
    requires |stat| < 0x1_0000 && ptr + 2 + |stat| <= buf.Length
    modifies buf
    ensures n == 2 + |stat| && buf[..] == Patch(old(buf[..]), ptr, Le16(|stat|) + stat)
  {
    PatchTwice(buf[..], ptr, Le16(|stat|), stat);
    n := PutUshort(buf, ptr, |stat|);
    var k := PutBytes(buf, ptr + n, stat);
    n := n + k;
  }

  /** Writes one field behind the fields `fs` and returns where it ends.  The source has these calls in the
      branches of its switch. */
  method PutField(buf: array<Byte>, ptr: nat, f: Field, ghost was: Bytes, ghost head: Bytes, ghost fs: seq<Field>)
    returns (end: nat)
    requires Fits(f) && ptr + FieldSize(f) <= buf.Length && |was| == buf.Length
    requires Written(buf[..], was, head, fs, ptr)
    modifies buf
    ensures end == ptr + FieldSize(f) && Written(buf[..], was, head, fs + [f], end)
  {
    FieldSizeBytes(f);
    WrittenMore(buf[..], was, head, fs, ptr, f, FieldBytes(f));
    var n;
    match f {
      case F8(b) => n := PutUchar(buf, ptr, b);
      case F16(h) => n := PutUshort(buf, ptr, h);
      case F32(w) => n := PutUint(buf, ptr, w);
      case F64(l) => n := PutUlong(buf, ptr, l);
      case FStr(s) => n := PutPstring(buf, ptr, s);
      case FQid(qid) => n := PutQid(buf, ptr, qid);
      case FNames(names) => n := PutNamesField(buf, ptr, names);
      case FQids(qids) => n := PutQidsField(buf, ptr, qids);
      case FData(data) => n := PutDataField(buf, ptr, data);
      case FStat(stat) => n := PutStatField(buf, ptr, stat);
    }
    end := ptr + n;
  }

  // ---------------------------------------------------------------- fcall_msg_to_buf

  /** The fields of a message with one to four of them, after the seven bytes of its header. */
  method Put1(buf: array<Byte>, a: Field, ghost was: Bytes, ghost head: Bytes) returns (ptr: nat)
    requires Fits(a) && 7 + FieldSize(a) <= buf.Length
    requires |was| == buf.Length && |head| == 7 && Written(buf[..], was, head, [], 7)
    modifies buf
    ensures ptr == 7 + FieldSize(a) && Written(buf[..], was, head, [a], ptr)
  {
    ptr := PutField(buf, 7, a, was, head, []);
    assert [] + [a] == [a];
  }

  method Put2(buf: array<Byte>, a: Field, b: Field, ghost was: Bytes, ghost head: Bytes) returns (ptr: nat)
    requires Fits(a) && Fits(b) && 7 + FieldSize(a) + FieldSize(b) <= buf.Length
    requires |was| == buf.Length && |head| == 7 && Written(buf[..], was, head, [], 7)
    modifies buf
    ensures ptr == 7 + FieldSize(a) + FieldSize(b) && Written(buf[..], was, head, [a, b], ptr)
  {
    ptr := Put1(buf, a, was, head);
    ptr := PutField(buf, ptr, b, was, head, [a]);
    assert [a] + [b] == [a, b];
  }

  method Put3(buf: array<Byte>, a: Field, b: Field, c: Field, ghost was: Bytes, ghost head: Bytes) returns (ptr: nat)
    requires Fits(a) && Fits(b) && Fits(c) && 7 + FieldSize(a) + FieldSize(b) + FieldSize(c) <= buf.Length
    requires |was| == buf.Length && |head| == 7 && Written(buf[..], was, head, [], 7)
    modifies buf
    ensures ptr == 7 + FieldSize(a) + FieldSize(b) + FieldSize(c) && Written(buf[..], was, head, [a, b, c], ptr)
  {
    ptr := Put2(buf, a, b, was, head);
    ptr := PutField(buf, ptr, c, was, head, [a, b]);
    assert [a, b] + [c] == [a, b, c];
  }

  method Put4(buf: array<Byte>, a: Field, b: Field, c: Field, d: Field, ghost was: Bytes, ghost head: Bytes)
    returns (ptr: nat)
    requires Fits(a) && Fits(b) && Fits(c) && Fits(d)
    requires 7 + FieldSize(a) + FieldSize(b) + FieldSize(c) + FieldSize(d) <= buf.Length
    requires |was| == buf.Length && |head| == 7 && Written(buf[..], was, head, [], 7)
    modifies buf
    ensures Written(buf[..], was, head, [a, b, c, d], ptr)
  {
    ptr := Put3(buf, a, b, c, was, head);
    ptr := PutField(buf, ptr, d, was, head, [a, b, c]);
    assert [a, b, c] + [d] == [a, b, c, d];
  }

  /** The switch of `fcall_msg_to_buf`. */
  method PutBody(buf: array<Byte>, m: Fcall, ghost was: Bytes, ghost head: Bytes) returns (ptr: nat)
    requires Wellformed(m) && Size(m) <= buf.Length && |was| == buf.Length && |head| == 7
    requires Written(buf[..], was, head, [], 7)
    modifies buf
    ensures Written(buf[..], was, head, Layout(m), ptr)
  {
    BodySizeIsSize(m);
    LayoutFits(m);
    match m {
      case Tversion(_, msize, version) => ptr := Put2(buf, F32(msize), FStr(version), was, head);
      case Rversion(_, msize, version) => ptr := Put2(buf, F32(msize), FStr(version), was, head);
      case Rerror(_, ename) => ptr := Put1(buf, FStr(ename), was, head);
      case Tattach(_, fid, afid, uname, aname) =>
        ptr := Put4(buf, F32(fid), F32(afid), FStr(uname), FStr(aname), was, head);
      case Rattach(_, qid) => ptr := Put1(buf, FQid(qid), was, head);
      case Twalk(_, fid, newfid, wname) => ptr := Put3(buf, F32(fid), F32(newfid), FNames(wname), was, head);
      case Rwalk(_, wqid) => ptr := Put1(buf, FQids(wqid), was, head);
      case Topen(_, fid, mode) => ptr := Put2(buf, F32(fid), F8(mode), was, head);
      case Ropen(_, qid, iounit) => ptr := Put2(buf, FQid(qid), F32(iounit), was, head);
      case Tcreate(_, fid, name, perm, mode) =>
        ptr := Put4(buf, F32(fid), FStr(name), F32(perm), F8(mode), was, head);
      case Rcreate(_, qid, iounit) => ptr := Put2(buf, FQid(qid), F32(iounit), was, head);
      case Tread(_, fid, offset, count) => ptr := Put3(buf, F32(fid), F64(offset), F32(count), was, head);
      case Rread(_, data) => ptr := Put1(buf, FData(data), was, head);
      case Twrite(_, fid, offset, data) => ptr := Put3(buf, F32(fid), F64(offset), FData(data), was, head);
      case Rwrite(_, count) => ptr := Put1(buf, F32(count), was, head);
      case Tclunk(_, fid) => ptr := Put1(buf, F32(fid), was, head);
      case Rclunk(_) => ptr := 7;
      case Tstat(_, fid) => ptr := Put1(buf, F32(fid), was, head);
      case Rstat(_, stat) => ptr := Put1(buf, FStat(stat), was, head);
      case Tmount(_, fid, mfid) => ptr := Put2(buf, F32(fid), F32(mfid), was, head);
      case Rmount(_, qid) => ptr := Put1(buf, FQid(qid), was, head);
    }
  }

  lemma LayoutFits(m: Fcall)
    requires Wellformed(m)
    ensures match m
      case Twalk(_, _, _, wname) => |wname| < 0x1_0000
      case Rwalk(_, wqid) => |wqid| < 0x1_0000
      case Rread(_, data) => |data| < TWO32
      case Twrite(_, _, _, data) => |data| < TWO32
      case Rstat(_, stat) => |stat| < 0x1_0000
      case _ => true
  {
    assert forall i :: 0 <= i < |Layout(m)| ==> Fits(Layout(m)[i]);
    match m {
      case Twalk(_, _, _, _) => assert Fits(Layout(m)[2]);
      case Twrite(_, _, _, _) => assert Fits(Layout(m)[2]);
      case Rwalk(_, _) => assert Fits(Layout(m)[0]);
      case Rread(_, _) => assert Fits(Layout(m)[0]);
      case Rstat(_, _) => assert Fits(Layout(m)[0]);
      case _ =>
    }
  }

  /** `fcall_msg_to_buf`.  The check against `length` sees the size modulo 2^32; a message that passes it
      must really fit the buffer. */
  method MsgToBuf(f: AnyFcall, buf: array<Byte>, length: U32) returns (r: U32)
    requires length <= buf.Length
    requires f.Known? ==> Wellformed(f.m) && (0 < Size(f.m) % TWO32 <= length ==> Size(f.m) <= buf.Length)
    modifies buf
    ensures f.Known? && 0 < Size(f.m) % TWO32 <= length ==>
      r == Size(f.m) % TWO32 && buf[..] == Patch(old(buf[..]), 0, WireForm(f.m))
    ensures !(f.Known? && 0 < Size(f.m) % TWO32 <= length) ==> r == 0 && buf[..] == old(buf[..])
  {
    var size := MsgSize(f);
    if size == 0 || size > length {
      return 0;
    }
    var m := f.m;
    ghost var was := buf[..];
    ghost var head := Le32(size) + [TypeCode(m)] + Le16(m.tag);
    PatchTwice(was, 0, Le32(size), [TypeCode(m)]);
    PatchTwice(was, 0, Le32(size) + [TypeCode(m)], Le16(m.tag));
    var ptr := PutUint(buf, 0, size);
    var n := PutUchar(buf, ptr, TypeCode(m));
    ptr := ptr + n;
    n := PutUshort(buf, ptr, m.tag);
    ptr := ptr + n;
    assert head + FieldsBytes([]) == head;
    ptr := PutBody(buf, m, was, head);
    assert head + Body(m) == WireForm(m);
    return ptr % TWO32;
  }

  // ---------------------------------------------------------------- reading

  /** From `ptr` to `stop` the buffer holds the fields `fs`. */
  ghost predicate Holding(buf: Bytes, ptr: nat, fs: seq<Field>, stop: nat) {
    && ptr <= |buf| && AllFit(fs) && FieldsBytes(fs) <= buf[ptr..]
    && stop == ptr + |FieldsBytes(fs)|
  }

  lemma ReadsNext(buf: Bytes, ptr: nat, fs: seq<Field>, stop: nat)
    requires Holding(buf, ptr, fs, stop) && fs != []
    ensures Fits(fs[0]) && ptr + |FieldBytes(fs[0])| <= |buf|
    ensures buf[ptr..ptr + |FieldBytes(fs[0])|] == FieldBytes(fs[0])
    ensures Holding(buf, ptr + |FieldBytes(fs[0])|, fs[1..], stop)
  {
    HeadTail(buf[ptr..], fs);
    var x, y := FieldBytes(fs[0]), FieldsBytes(fs[1..]);
    assert FieldsBytes(fs) == x + y;
    Halved(buf, ptr, x, y);
  }

  lemma Halved(buf: Bytes, ptr: nat, x: Bytes, y: Bytes)
    requires ptr <= |buf| && x + y <= buf[ptr..]
    ensures ptr + |x| <= |buf| && buf[ptr..ptr + |x|] == x && y <= buf[ptr + |x|..]
  {
    var b := buf[ptr..];
    assert b[|x|..] == buf[ptr + |x|..] && buf[ptr..ptr + |x|] == b[..|x|];
    Prefixes(b, x, y);
  }

  /** `_get_ushort` */
  function GetUshort(buf: Bytes, ptr: nat): U16
    requires ptr + 2 <= |buf|
  {
    buf[ptr] as int + buf[ptr + 1] as int * 0x100
  }

  /** `_get_uint` */
  function GetUint(buf: Bytes, ptr: nat): U32
    requires ptr + 4 <= |buf|
  {
    buf[ptr] as int + buf[ptr + 1] as int * 0x100 + buf[ptr + 2] as int * 0x1_0000 + buf[ptr + 3] as int * 0x100_0000
  }

  /** `_get_ulong` */
  function GetUlong(buf: Bytes, ptr: nat): U64
    requires ptr + 8 <= |buf|
  {
    GetUint(buf, ptr) + GetUint(buf, ptr + 4) * TWO32
  }

  lemma GetNumbers(buf: Bytes, ptr: nat)
    requires ptr <= |buf|
    ensures ptr + 2 <= |buf| ==> GetUshort(buf, ptr) == Val16(buf[ptr..ptr + 2])
    ensures ptr + 4 <= |buf| ==> GetUint(buf, ptr) == Val32(buf[ptr..ptr + 4])
    ensures ptr + 8 <= |buf| ==> GetUlong(buf, ptr) == Val64(buf[ptr..ptr + 8])
  {
    if ptr + 4 <= |buf| {
      Get32(buf, ptr, buf[ptr..ptr + 4]);
    }
    if ptr + 8 <= |buf| {
      var b := buf[ptr..ptr + 8];
      Get32(buf, ptr, b[..4]);
      Get32(buf, ptr + 4, b[4..]);
    }
  }

  lemma Get32(buf: Bytes, ptr: nat, b: Bytes)
    requires ptr + 4 <= |buf| && |b| == 4 && b == buf[ptr..ptr + 4]
    ensures GetUint(buf, ptr) == Val32(b)
  {
    assert b[..2] == [buf[ptr], buf[ptr + 1]] && b[2..] == [buf[ptr + 2], buf[ptr + 3]];
  }

  lemma ReadUchar(buf: Bytes, ptr: nat, fs: seq<Field>, stop: nat)
    requires Holding(buf, ptr, fs, stop) && fs != [] && fs[0].F8?
    ensures ptr + 1 <= |buf| && buf[ptr] == fs[0].b && Holding(buf, ptr + 1, fs[1..], stop)
  {
    ReadsNext(buf, ptr, fs, stop);
    assert buf[ptr..ptr + 1][0] == fs[0].b;
  }

  lemma ReadUint(buf: Bytes, ptr: nat, fs: seq<Field>, stop: nat)
    requires Holding(buf, ptr, fs, stop) && fs != [] && fs[0].F32?
    ensures ptr + 4 <= |buf| && GetUint(buf, ptr) == fs[0].w && Holding(buf, ptr + 4, fs[1..], stop)
  {
    ReadsNext(buf, ptr, fs, stop);
    GetNumbers(buf, ptr);
    Number32(fs[0].w, Le32(fs[0].w));
  }

  lemma ReadUlong(buf: Bytes, ptr: nat, fs: seq<Field>, stop: nat)
    requires Holding(buf, ptr, fs, stop) && fs != [] && fs[0].F64?
    ensures ptr + 8 <= |buf| && GetUlong(buf, ptr) == fs[0].l && Holding(buf, ptr + 8, fs[1..], stop)
  {
    ReadsNext(buf, ptr, fs, stop);
    GetNumbers(buf, ptr);
    Number64(fs[0].l, Le64(fs[0].l));
  }

  lemma ReadCount16(buf: Bytes, ptr: nat, n: U16, rest: Bytes)
    requires ptr <= |buf| && Le16(n) + rest <= buf[ptr..]
    ensures ptr + 2 + |rest| <= |buf| && GetUshort(buf, ptr) == n && buf[ptr + 2..ptr + 2 + |rest|] == rest
  {
    assert buf[ptr..ptr + 2] == buf[ptr..][..2] == Le16(n);
    GetNumbers(buf, ptr);
    Number16(n, Le16(n));
    assert buf[ptr + 2..ptr + 2 + |rest|] == buf[ptr..][2..2 + |rest|];
  }

  lemma ReadCount32(buf: Bytes, ptr: nat, n: U32, rest: Bytes)
    requires ptr <= |buf| && Le32(n) + rest <= buf[ptr..]
    ensures ptr + 4 + |rest| <= |buf| && GetUint(buf, ptr) == n && buf[ptr + 4..ptr + 4 + |rest|] == rest
  {
    assert buf[ptr..ptr + 4] == buf[ptr..][..4] == Le32(n);
    GetNumbers(buf, ptr);
    Number32(n, Le32(n));
    assert buf[ptr + 4..ptr + 4 + |rest|] == buf[ptr..][4..4 + |rest|];
  }

  /** A string in the buffer. */
  method GetPstring(buf: Bytes, ptr: nat, ghost s: Str) returns (r: Str, end: nat)
    requires ptr <= |buf| && StrBytes(s) <= buf[ptr..]
    ensures r == s && end == ptr + 2 + |s| <= |buf|
  {
    ReadCount16(buf, ptr, |s|, s);
    var len := GetUshort(buf, ptr);
    r := buf[ptr + 2..ptr + 2 + len];
    end := ptr + 2 + len;
  }

  method GetStrField(buf: Bytes, ptr: nat, ghost fs: seq<Field>, ghost stop: nat) returns (r: Str, end: nat)
    requires Holding(buf, ptr, fs, stop) && fs != [] && fs[0].FStr?
    ensures r == fs[0].s && Holding(buf, end, fs[1..], stop)
  {
    ReadsNext(buf, ptr, fs, stop);
    HeadTail(buf[ptr..], fs);
    r, end := GetPstring(buf, ptr, fs[0].s);
  }

  method GetUintField(buf: Bytes, ptr: nat, ghost fs: seq<Field>, ghost stop: nat) returns (r: U32, end: nat)
    requires Holding(buf, ptr, fs, stop) && fs != [] && fs[0].F32?
    ensures r == fs[0].w && Holding(buf, end, fs[1..], stop)
  {
    ReadUint(buf, ptr, fs, stop);
    r, end := GetUint(buf, ptr), ptr + 4;
  }

  method GetUlongField(buf: Bytes, ptr: nat, ghost fs: seq<Field>, ghost stop: nat) returns (r: U64, end: nat)
    requires Holding(buf, ptr, fs, stop) && fs != [] && fs[0].F64?
    ensures r == fs[0].l && Holding(buf, end, fs[1..], stop)
  {
    ReadUlong(buf, ptr, fs, stop);
    r, end := GetUlong(buf, ptr), ptr + 8;
  }

  method GetUcharField(buf: Bytes, ptr: nat, ghost fs: seq<Field>, ghost stop: nat) returns (r: Byte, end: nat)
    requires Holding(buf, ptr, fs, stop) && fs != [] && fs[0].F8?
    ensures r == fs[0].b && Holding(buf, end, fs[1..], stop)
  {
    ReadUchar(buf, ptr, fs, stop);
    r, end := buf[ptr], ptr + 1;
  }

  /** Sixteen bytes of the buffer as a `struct qid`. */
  function GetQid(buf: Bytes, ptr: nat): Qid
    requires ptr + 16 <= |buf|
  {
    Qid(GetUint(buf, ptr), GetUint(buf, ptr + 4), GetUlong(buf, ptr + 8))
  }

  lemma ReadQid(buf: Bytes, ptr: nat, q: Qid)
    requires ptr <= |buf| && QidBytes(q) <= buf[ptr..]
    ensures ptr + 16 <= |buf| && GetQid(buf, ptr) == q
  {
    var b := QidBytes(q);
    assert buf[ptr..ptr + 4] == buf[ptr..][..4] == b[..4] == Le32(q.kind);
    assert buf[ptr + 4..ptr + 8] == buf[ptr..][4..8] == b[4..8] == Le32(q.version);
    assert buf[ptr + 8..ptr + 16] == buf[ptr..][8..16] == b[8..16] == Le64(q.id);
    GetNumbers(buf, ptr);
    GetNumbers(buf, ptr + 4);
    GetNumbers(buf, ptr + 8);
    Number32(q.kind, Le32(q.kind));
    Number32(q.version, Le32(q.version));
    Number64(q.id, Le64(q.id));
  }

  method GetQidField(buf: Bytes, ptr: nat, ghost fs: seq<Field>, ghost stop: nat) returns (r: Qid, end: nat)
    requires Holding(buf, ptr, fs, stop) && fs != [] && fs[0].FQid?
    ensures r == fs[0].qid && Holding(buf, end, fs[1..], stop)
  {
    ReadsNext(buf, ptr, fs, stop);
    HeadTail(buf[ptr..], fs);
    ReadQid(buf, ptr, fs[0].qid);
    r, end := GetQid(buf, ptr), ptr + 16;
  }

  /** The loop over the path elements of Twalk. */
  method GetNames(buf: Bytes, ptr: nat, n: nat, ghost names: seq<Str>) returns (r: seq<Str>, end: nat)
    requires ptr <= |buf| && NamesBytes(names) <= buf[ptr..] && n == |names|
    ensures r == names && end == ptr + |NamesBytes(names)| <= |buf|
  {
    r, end := [], ptr;
    for i := 0 to n
      invariant r == names[..i] && end <= |buf| && NamesBytes(names[i..]) <= buf[end..]
      invariant end + |NamesBytes(names[i..])| == ptr + |NamesBytes(names)|
    {
      assert names[i..][1..] == names[i + 1..];
      Prefixes(buf[end..], StrBytes(names[i]), NamesBytes(names[i + 1..]));
      var s, next := GetPstring(buf, end, names[i]);
      assert buf[end..][next - end..] == buf[next..];
      r, end := r + [s], next;
    }
  }

  /** `n` consecutive `struct qid`. */
  function GetQids(buf: Bytes, ptr: nat, n: nat): seq<Qid>
    requires ptr + 16 * n <= |buf|
    decreases n
  {
    if n == 0 then [] else [GetQid(buf, ptr)] + GetQids(buf, ptr + 16, n - 1)
  }

  lemma {:induction false} ReadQids(buf: Bytes, ptr: nat, qids: seq<Qid>)
    requires ptr <= |buf| && QidsBytes(qids) <= buf[ptr..]
    ensures ptr + 16 * |qids| <= |buf| && GetQids(buf, ptr, |qids|) == qids
    decreases |qids|
  {
    if qids != [] {
      Prefixes(buf[ptr..], QidBytes(qids[0]), QidsBytes(qids[1..]));
      ReadQid(buf, ptr, qids[0]);
      assert buf[ptr..][16..] == buf[ptr + 16..];
      ReadQids(buf, ptr + 16, qids[1..]);
    }
  }

  method GetNamesField(buf: Bytes, ptr: nat, ghost fs: seq<Field>, ghost stop: nat) returns (r: seq<Str>, end: nat)
    requires Holding(buf, ptr, fs, stop) && fs != [] && fs[0].FNames?
    ensures r == fs[0].names && Holding(buf, end, fs[1..], stop)
  {
    ReadsNext(buf, ptr, fs, stop);
    HeadTail(buf[ptr..], fs);
    ReadCount16(buf, ptr, |fs[0].names|, NamesBytes(fs[0].names));
    var n := GetUshort(buf, ptr);
    r, end := GetNames(buf, ptr + 2, n, fs[0].names);
  }

  lemma ReadQidsField(buf: Bytes, ptr: nat, fs: seq<Field>, stop: nat)
    requires Holding(buf, ptr, fs, stop) && fs != [] && fs[0].FQids?
    ensures ptr + 2 <= |buf|
    ensures var n := GetUshort(buf, ptr);
            && n == |fs[0].qids| && ptr + 2 + 16 * n <= |buf| && GetQids(buf, ptr + 2, n) == fs[0].qids
            && Holding(buf, ptr + 2 + 16 * n, fs[1..], stop)
  {
    ReadsNext(buf, ptr, fs, stop);
    HeadTail(buf[ptr..], fs);
    var qids := fs[0].qids;
    ReadCount16(buf, ptr, |qids|, QidsBytes(qids));
    ReadQids(buf, ptr + 2, qids);
  }

  method GetQidsField(buf: Bytes, ptr: nat, ghost fs: seq<Field>, ghost stop: nat) returns (r: seq<Qid>, end: nat)
    requires Holding(buf, ptr, fs, stop) && fs != [] && fs[0].FQids?
    ensures r == fs[0].qids && Holding(buf, end, fs[1..], stop)
  {
    ReadQidsField(buf, ptr, fs, stop);
    var n: nat := GetUshort(buf, ptr);
    r, end := GetQids(buf, ptr + 2, n), ptr + 2 + 16 * n;
  }

  method GetDataField(buf: Bytes, ptr: nat, ghost fs: seq<Field>, ghost stop: nat) returns (r: Bytes, end: nat)
    requires Holding(buf, ptr, fs, stop) && fs != [] && fs[0].FData?
    ensures r == fs[0].data && Holding(buf, end, fs[1..], stop)
  {
    ReadsNext(buf, ptr, fs, stop);
    HeadTail(buf[ptr..], fs);
    ReadCount32(buf, ptr, |fs[0].data|, fs[0].data);
    var n := GetUint(buf, ptr);
    r, end := buf[ptr + 4..ptr + 4 + n], ptr + 4 + n;
  }

  method GetStatField(buf: Bytes, ptr: nat, ghost fs: seq<Field>, ghost stop: nat) returns (r: Bytes, end: nat)
    requires Holding(buf, ptr, fs, stop) && fs != [] && fs[0].FStat?
    ensures r == fs[0].stat && Holding(buf, end, fs[1..], stop)
  {
    ReadsNext(buf, ptr, fs, stop);
    HeadTail(buf[ptr..], fs);
    ReadCount16(buf, ptr, |fs[0].stat|, fs[0].stat);
    var n := GetUshort(buf, ptr);
    r, end := buf[ptr + 2..ptr + 2 + n], ptr + 2 + n;
  }

  // ---------------------------------------------------------------- fcall_buf_to_msg

  method GetFirstHalf(buf: Bytes, tag: U16, ghost m0: Fcall) returns (m: Fcall, ptr: nat)
    requires Holds(buf, m0) && tag == m0.tag && buf[4] in {100, 101, 103, 104, 105, 121, 106, 107, 108, 109, 111}
    ensures m == m0 && ptr == Size(m0)
  {
    ghost var l, stop := Layout(m0), Size(m0);
    assert Holding(buf, 7, l, stop);
    var t := buf[4];
    ptr := 7;
    if t == 100 || t == 101 {
      var msize, version;
      msize, ptr := GetUintField(buf, ptr, l, stop);
      version, ptr := GetStrField(buf, ptr, l[1..], stop);
      m := if t == 100 then Tversion(tag, msize, version) else Rversion(tag, msize, version);
    } else if t == 103 {
      var ename;
      ename, ptr := GetStrField(buf, ptr, l, stop);
      m := Rerror(tag, ename);
    } else if t == 104 {
      var fid, afid, uname, aname;
      fid, ptr := GetUintField(buf, ptr, l, stop);
      afid, ptr := GetUintField(buf, ptr, l[1..], stop);
      uname, ptr := GetStrField(buf, ptr, l[1..][1..], stop);
      aname, ptr := GetStrField(buf, ptr, l[1..][1..][1..], stop);
      m := Tattach(tag, fid, afid, uname, aname);
    } else if t == 105 || t == 121 {
      var qid;
      qid, ptr := GetQidField(buf, ptr, l, stop);
      m := if t == 105 then Rattach(tag, qid) else Rmount(tag, qid);
    } else if t == 106 {
      var fid, newfid, wname;
      fid, ptr := GetUintField(buf, ptr, l, stop);
      newfid, ptr := GetUintField(buf, ptr, l[1..], stop);
      wname, ptr := GetNamesField(buf, ptr, l[1..][1..], stop);
      m := Twalk(tag, fid, newfid, wname);
    } else if t == 107 {
      var wqid;
      wqid, ptr := GetQidsField(buf, ptr, l, stop);
      m := Rwalk(tag, wqid);
    } else if t == 108 {
      var fid, mode;
      fid, ptr := GetUintField(buf, ptr, l, stop);
      mode, ptr := GetUcharField(buf, ptr, l[1..], stop);
      m := Topen(tag, fid, mode);
    } else {
      var qid, iounit;
      qid, ptr := GetQidField(buf, ptr, l, stop);
      iounit, ptr := GetUintField(buf, ptr, l[1..], stop);
      m := if t == 109 then Ropen(tag, qid, iounit) else Rcreate(tag, qid, iounit);
    }
  }

  method GetSecondHalf(buf: Bytes, tag: U16, ghost m0: Fcall) returns (m: Fcall, ptr: nat)
    requires Holds(buf, m0) && tag == m0.tag && buf[4] in {110, 112, 113, 114, 115, 116, 117, 118, 119, 120}
    ensures m == m0 && ptr == Size(m0)
  {
    ghost var l, stop := Layout(m0), Size(m0);
    assert Holding(buf, 7, l, stop);
    var t := buf[4];
    ptr := 7;
    if t == 110 {
      var fid, name, perm, mode;
      fid, ptr := GetUintField(buf, ptr, l, stop);
      name, ptr := GetStrField(buf, ptr, l[1..], stop);
      perm, ptr := GetUintField(buf, ptr, l[1..][1..], stop);
      mode, ptr := GetUcharField(buf, ptr, l[1..][1..][1..], stop);
      m := Tcreate(tag, fid, name, perm, mode);
    } else if t == 112 {
      var fid, offset, count;
      fid, ptr := GetUintField(buf, ptr, l, stop);
      offset, ptr := GetUlongField(buf, ptr, l[1..], stop);
      count, ptr := GetUintField(buf, ptr, l[1..][1..], stop);
      m := Tread(tag, fid, offset, count);
    } else if t == 113 {
      var data;
      data, ptr := GetDataField(buf, ptr, l, stop);
      m := Rread(tag, data);
    } else if t == 114 {
      var fid, offset, data;
      fid, ptr := GetUintField(buf, ptr, l, stop);
      offset, ptr := GetUlongField(buf, ptr, l[1..], stop);
      data, ptr := GetDataField(buf, ptr, l[1..][1..], stop);
      m := Twrite(tag, fid, offset, data);
    } else if t == 115 {
      var count;
      count, ptr := GetUintField(buf, ptr, l, stop);
      m := Rwrite(tag, count);
    } else if t == 116 || t == 118 {
      var fid;
      fid, ptr := GetUintField(buf, ptr, l, stop);
      m := if t == 116 then Tclunk(tag, fid) else Tstat(tag, fid);
    } else if t == 117 {
      m := Rclunk(tag);
    } else if t == 119 {
      var stat;
      stat, ptr := GetStatField(buf, ptr, l, stop);
      m := Rstat(tag, stat);
    } else {
      var fid, mfid;
      fid, ptr := GetUintField(buf, ptr, l, stop);
      mfid, ptr := GetUintField(buf, ptr, l[1..], stop);
      m := Tmount(tag, fid, mfid);
    }
  }

  /** The switch of `fcall_buf_to_msg`: the message that the bytes after the header spell. */
  method GetBody(buf: Bytes, tag: U16, ghost m0: Fcall) returns (m: Fcall, ptr: nat)
    requires Holds(buf, m0) && tag == m0.tag
    ensures m == m0 && ptr == Size(m0)
  {
    if buf[4] in {100, 101, 103, 104, 105, 121, 106, 107, 108, 109, 111} {
      m, ptr := GetFirstHalf(buf, tag, m0);
    } else {
      m, ptr := GetSecondHalf(buf, tag, m0);
    }
  }

  /** `fcall_buf_to_msg`.  The decoder gets no length: the buffer must hold all that its own length fields
      announce.  A message is accepted, with its size as the result, exactly when the size field is right. */
  method BufToMsg(buf: Bytes) returns (size: nat, f: AnyFcall)
    requires |buf| >= 7 && (IsType(buf[4]) ==> Enough(buf))
    ensures IsType(buf[4]) ==>
      f.Known? && Holds(buf, f.m) && size == if Val32(buf[..4]) == Size(f.m) then Size(f.m) else 0
    ensures !IsType(buf[4]) ==> size == 0 && f == Unknown(buf[4])
  {
    GetNumbers(buf, 0);
    GetNumbers(buf, 5);
    var z := GetUint(buf, 0);
    var t := buf[4];
    var tag := GetUshort(buf, 5);
    if !IsType(t) {
      return 0, Unknown(t);
    }
    ghost var m0 := EnoughHolds(buf);
    Number16(m0.tag, Le16(m0.tag));
    var m, ptr := GetBody(buf, tag, m0);
    f := Known(m);
    size := if z != ptr then 0 else z;
  }

  // ---------------------------------------------------------------- the three switches agree

  /** The message passes the test against `length` that `fcall_msg_to_buf` makes. */
  predicate PassesTest(m: Fcall, length: U32)
    requires Wellformed(m)
  {
    0 < Size(m) % TWO32 <= length
  }

  /** The test lets a message through that is longer than `length`, for some length, exactly when its size does not
      fit 32 bits and does not come out as zero. */
  lemma LengthTest(m: Fcall)
    requires Wellformed(m)
    ensures (exists length: U32 :: PassesTest(m, length) && length < Size(m)) <==> Size(m) > TWO32 && Size(m) % TWO32 != 0
  {
    if Size(m) > TWO32 && Size(m) % TWO32 != 0 {
      var length: U32 := Size(m) % TWO32;
      assert PassesTest(m, length) && length < Size(m);
    }
  }

  /** Ten bytes short of 4 GiB in an Rread: the size field says 1. */
  lemma LengthTestFails(tag: U16, data: Bytes)
    requires |data| == TWO32 - 10
    ensures var m := Rread(tag, data);
            Wellformed(m) && Size(m) == TWO32 + 1 && PassesTest(m, 1)
  {
    var m := Rread(tag, data);
    assert Layout(m) == [FData(data)];
    BodySizeIsSize(m);
  }

  /** Decoding undoes encoding: whatever buffer starts with the wire form of a message that fits 32 bits, the
      decoder can read it, accepts it, and can only come back with that message. */
  lemma DecodeEncode(b: Bytes, m: Fcall)
    requires Wellformed(m) && Size(m) < TWO32 && WireForm(m) <= b
    ensures |b| >= 7 && IsType(b[4]) && Enough(b) && Holds(b, m) && Val32(b[..4]) == Size(m)
    ensures forall n :: Holds(b, n) ==> n == m
  {
    HoldsWire(b, m);
    HoldsEnough(b, m);
    forall n | Holds(b, n)
      ensures n == m
    {
      HoldsUnique(b, m, n);
    }
  }

  /** Encoding undoes decoding: an accepted buffer starts with the wire form of the message it was read as. */
  lemma EncodeDecode(b: Bytes, m: Fcall)
    requires Holds(b, m) && Val32(b[..4]) == Size(m)
    ensures Size(m) < TWO32 && WireForm(m) <= b
  {
    HoldsWire(b, m);
  }

  /** A message sent through a buffer arrives as it was sent. */
  method RoundTrip(m: Fcall, buf: array<Byte>, length: U32) returns (sent: U32, received: nat, f: AnyFcall)
    requires length <= buf.Length && Wellformed(m) && Size(m) <= length
    modifies buf
    ensures sent == received == Size(m) && f == Known(m)
  {
    sent := MsgToBuf(Known(m), buf, length);
    PatchedStart(old(buf[..]), WireForm(m));
    received, f := Arrives(buf[..], m);
  }

  /** The receiver's side. */
  method Arrives(b: Bytes, m: Fcall) returns (received: nat, f: AnyFcall)
    requires Wellformed(m) && Size(m) < TWO32 && WireForm(m) <= b
    ensures received == Size(m) && f == Known(m)
  {
    DecodeEncode(b, m);
    received, f := BufToMsg(b);
  }
}
