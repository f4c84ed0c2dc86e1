/** Paths and their elements (fcall_path_split.c, fcall_path_size.c).  A path is split at its slashes into
    length-prefixed strings that lie one after the other in memory. */
module PathSplit {
  import opened Options

  type Byte = b: nat | b < 0x100
  type Text = seq<Byte>

  const SLASH: Byte := 47
  const SHRT_MAX: nat := 32767

  /** `strchr` for a slash, from index `i` on; the length of the path if there is none. */
  function NextSlash(p: Text, i: nat): (j: nat)
    requires i <= |p|
    ensures i <= j <= |p| && (j < |p| ==> p[j] == SLASH) && forall k :: i <= k < j ==> p[k] != SLASH
    decreases |p| - i
  {
    if i == |p| || p[i] == SLASH then i else NextSlash(p, i + 1)
  }

  /** `strcnt` for slashes, from index `i` on. */
  function Slashes(p: Text, i: nat): nat
    requires i <= |p|
    decreases |p| - i
  {
    if i == |p| then 0 else (if p[i] == SLASH then 1 else 0) + Slashes(p, i + 1)
  }

  /** The elements behind the slash at `l`. */
  function Parts(p: Text, l: nat): (r: seq<Text>)
    requires l < |p|
    ensures r != []
    decreases |p| - l
  {
    var r := NextSlash(p, l + 1);
    [p[l + 1..r]] + if r < |p| then Parts(p, r) else []
  }

  /** A slash before every element. */
  function Join(es: seq<Text>): Text {
    if es == [] then [] else [SLASH] + es[0] + Join(es[1..])
  }

  predicate NoSlash(e: Text) { SLASH !in e }

  // ---------------------------------------------------------------- splitting and joining

  /** Joining the elements gives back the path. */
  lemma {:induction false} JoinParts(p: Text, l: nat)
    requires l < |p| && p[l] == SLASH
    ensures Join(Parts(p, l)) == p[l..]
    decreases |p| - l
  {
    var r := NextSlash(p, l + 1);
    var e := p[l + 1..r];
    assert p[l..] == [SLASH] + e + p[r..];
    if r < |p| {
      JoinParts(p, r);
      assert Parts(p, l)[1..] == Parts(p, r);
    } else {
      assert Parts(p, l) == [e];
      assert Join([e]) == [SLASH] + e + [];
      assert p[r..] == [];
    }
  }

  lemma {:induction false} NoSlashBetween(p: Text, i: nat, j: nat)
    requires i <= j <= |p| && forall k :: i <= k < j ==> p[k] != SLASH
    ensures Slashes(p, i) == Slashes(p, j)
    decreases j - i
  {
    if i < j { NoSlashBetween(p, i + 1, j); }
  }

  /** There is an element for every slash, and no element holds one. */
  lemma {:induction false} PartsCount(p: Text, l: nat)
    requires l < |p| && p[l] == SLASH
    ensures |Parts(p, l)| == Slashes(p, l) && forall k :: 0 <= k < |Parts(p, l)| ==> NoSlash(Parts(p, l)[k])
    decreases |p| - l
  {
    var r := NextSlash(p, l + 1);
    NoSlashBetween(p, l + 1, r);
    if r < |p| { PartsCount(p, r); }
  }

  lemma JoinHead(p: Text, l: nat, es: seq<Text>)
    requires l <= |p| && es != [] && p[l..] == Join(es)
    ensures var r := l + 1 + |es[0]|;
            && r <= |p| && p[l] == SLASH && p[l + 1..r] == es[0] && p[r..] == Join(es[1..])
            && (r < |p| <==> |es| > 1) && (r < |p| ==> p[r] == SLASH)
  {
    var r := l + 1 + |es[0]|;
    assert p[l] == p[l..][0] && p[l + 1..r] == p[l..][1..r - l];
    assert p[r..] == p[l..][r - l..];
    if r < |p| { assert p[r] == p[r..][0]; }
  }

  /** Splitting a path put together from elements without slashes gives back the elements. */
  lemma {:induction false} PartsJoin(p: Text, l: nat, es: seq<Text>)
    requires l <= |p| && es != [] && p[l..] == Join(es) && forall k :: 0 <= k < |es| ==> NoSlash(es[k])
    ensures l < |p| && Parts(p, l) == es
    decreases |es|
  {
    var r := l + 1 + |es[0]|;
    JoinHead(p, l, es);
    forall k | l + 1 <= k < r
      ensures p[k] != SLASH
    {
      assert p[k] == es[0][k - l - 1];
    }
    NextSlashIs(p, l + 1, r);
    PartsStep(p, l, es[0]);
    assert es == [es[0]] + es[1..];
    if |es| > 1 { PartsJoin(p, r, es[1..]); }
  }

  lemma PartsStep(p: Text, l: nat, e: Text)
    requires l + 1 + |e| <= |p| && NextSlash(p, l + 1) == l + 1 + |e| && p[l + 1..l + 1 + |e|] == e
    ensures Parts(p, l) == [e] + if l + 1 + |e| < |p| then Parts(p, l + 1 + |e|) else []
  {}

  lemma {:induction false} NextSlashIs(p: Text, i: nat, r: nat)
    requires i <= r <= |p| && (forall k :: i <= k < r ==> p[k] != SLASH) && (r < |p| ==> p[r] == SLASH)
    ensures NextSlash(p, i) == r
    decreases r - i
  {
    if i < r { NextSlashIs(p, i + 1, r); }
  }

  // ---------------------------------------------------------------- elements in memory

  /** A `pstring`: the length in 16 bits, then the characters; longer elements keep all their characters. */
  function Packed(e: Text): Text { [|e| % 0x100, |e| / 0x100 % 0x100] + e }

  /** A `pstring`: the length in two bytes, the low one first, of which only 16 bits are kept, and the characters. */
  lemma PackedIs(e: Text)
    ensures |Packed(e)| == 2 + |e| && Packed(e)[2..] == e
    ensures Packed(e)[0] as int + 0x100 * Packed(e)[1] as int == |e| % 0x1_0000
  {}

  function Pack(es: seq<Text>): Text {
    if es == [] then [] else Packed(es[0]) + Pack(es[1..])
  }

  function Length(m: Text, at: nat): (n: nat)
    requires at + 2 <= |m|
    ensures n < 0x1_0000
  {
    (m[at] as int) + 0x100 * (m[at + 1] as int)
  }

  /** What a reader of `n` elements finds, if the memory is large enough. */
  function Unpack(m: Text, n: nat): Option<seq<Text>> {
    if n == 0 then Some([])
    else if |m| < 2 || |m| < 2 + Length(m, 0) then None
    else match Unpack(m[2 + Length(m, 0)..], n - 1)
      case None => None
      case Some(es) => Some([m[2..2 + Length(m, 0)]] + es)
  }

  /** A well-formed element in front of `rest`. */
  lemma UnpackFits(e: Text, rest: Text, n: nat)
    requires |e| < 0x1_0000 && n > 0
    ensures Unpack(Packed(e) + rest, n)
            == match Unpack(rest, n - 1) { case None => None case Some(es) => Some([e] + es) }
  {
    var m := Packed(e) + rest;
    assert Length(m, 0) == |e|;
    assert m[2..2 + |e|] == e && m[2 + |e|..] == rest;
  }

  /** The first element found in front of `rest` has a length of 16 bits. */
  lemma UnpackShort(m: Text, n: nat)
    requires n > 0 && Unpack(m, n).Some?
    ensures Unpack(m, n).value != [] && |Unpack(m, n).value[0]| < 0x1_0000
  {}

  /** Reading the elements back works exactly when their lengths fit 16 bits. */
  lemma {:induction false} UnpackPack(es: seq<Text>)
    ensures Unpack(Pack(es), |es|) == Some(es) <==> forall k :: 0 <= k < |es| ==> |es[k]| < 0x1_0000
  {
    if es != [] {
      var e, tail := es[0], es[1..];
      UnpackPack(tail);
      assert es == [e] + tail;
      if |e| < 0x1_0000 {
        UnpackFits(e, Pack(tail), |es|);
        assert forall ts: seq<Text> :: [e] + ts == es ==> ts == ([e] + ts)[1..] == tail;
        assert forall k :: 0 < k < |es| ==> es[k] == tail[k - 1];
      } else if Unpack(Pack(es), |es|).Some? {
        UnpackShort(Pack(es), |es|);
      }
    }
  }

  // ---------------------------------------------------------------- sizes

  /** Characters of the elements and a delimiter between two of them. */
  function TotalLength(es: seq<Text>): nat {
    if es == [] then 0 else |es[0]| + (if |es| != 1 then 1 else 0) + TotalLength(es[1..])
  }

  lemma {:induction false} JoinLength(es: seq<Text>)
    ensures |Join(es)| == TotalLength(es) + (if es == [] then 0 else 1)
  {
    if es != [] { JoinLength(es[1..]); }
  }

  lemma {:induction false} PackLength(es: seq<Text>)
    ensures |Pack(es)| == |Join(es)| + |es|
  {
    if es != [] { PackLength(es[1..]); }
  }

  /** The elements of a path, with their lengths, fit the memory that is allocated for them. */
  lemma PackFits(p: Text)
    requires p != [] && NextSlash(p, 0) < |p|
    ensures var f := NextSlash(p, 0);
            |Pack(Parts(p, f))| == |p| - f + Slashes(p, 0) && |Parts(p, f)| == Slashes(p, 0)
  {
    var f := NextSlash(p, 0);
    JoinParts(p, f);
    PartsCount(p, f);
    PackLength(Parts(p, f));
    NoSlashBetween(p, 0, f);
  }

  /** The size of the elements of a path that starts with a slash is the length of the path without it. */
  lemma SizeOfParts(p: Text)
    requires p != [] && p[0] == SLASH
    ensures TotalLength(Parts(p, 0)) == |p| - 1
  {
    JoinParts(p, 0);
    JoinLength(Parts(p, 0));
    assert p[0..] == p;
  }

  lemma {:induction false} PackAppend(es: seq<Text>, e: Text)
    ensures Pack(es + [e]) == Pack(es) + Packed(e)
  {
    if es == [] {
      assert es + [e] == [e];
      assert Pack([e]) == Packed(e) + [];
    } else {
      PackAppend(es[1..], e);
      assert (es + [e])[1..] == es[1..] + [e];
    }
  }

  // ---------------------------------------------------------------- the code

  method StrChr(p: Text, i: nat) returns (j: nat)
    requires i <= |p|
    ensures j == NextSlash(p, i)
  {
    j := i;
    while j < |p| && p[j] != SLASH
      invariant i <= j <= |p| && NextSlash(p, i) == NextSlash(p, j)
    {
      j := j + 1;
    }
  }

  method StrCnt(p: Text) returns (n: nat)
    ensures n == Slashes(p, 0)
  {
    n := 0;
    var i := 0;
    while i < |p|
      invariant 0 <= i <= |p| && n + Slashes(p, i) == Slashes(p, 0)
    {
      if p[i] == SLASH { n := n + 1; }
      i := i + 1;
    }
  }

  /** One element is written at `at`. */
  method PutElement(buf: array<Byte>, at: nat, e: Text)
    requires at + 2 + |e| <= buf.Length
    modifies buf
    ensures buf[..at] == old(buf[..at]) && buf[at..at + 2 + |e|] == Packed(e)
  {
    buf[at] := |e| % 0x100;
    buf[at + 1] := |e| / 0x100 % 0x100;
    for k := 0 to |e|
      invariant buf[..at] == old(buf[..at])
      invariant buf[at] == |e| % 0x100 && buf[at + 1] == |e| / 0x100 % 0x100
      invariant buf[at + 2..at + 2 + k] == e[..k]
    {
      buf[at + 2 + k] := e[k];
    }
    assert e[..|e|] == e;
  }

  /** The body of the loop of `fcall_path_split`. */
  method PutNext(buf: array<Byte>, path: Text, l: nat, at: nat, ghost es: seq<Text>, ghost done: seq<Text>)
    returns (r: nat, ptr: nat)
    requires l < |path| && path[l] == SLASH && es == done + Parts(path, l) && |Pack(es)| <= buf.Length
    requires at == |Pack(done)| <= buf.Length && buf[..at] == Pack(done)
    modifies buf
    ensures l < r <= |path| && (r < |path| ==> path[r] == SLASH)
    ensures r < |path| ==> es == done + [path[l + 1..r]] + Parts(path, r)
    ensures r == |path| ==> es == done + [path[l + 1..r]]
    ensures ptr == |Pack(done + [path[l + 1..r]])| <= buf.Length && buf[..ptr] == Pack(done + [path[l + 1..r]])
  {
    r := StrChr(path, l + 1);
    var e := path[l + 1..r];
    ElementFits(es, done, path, l, e, r);
    PutElement(buf, at, e);
    ptr := at + 2 + |e|;
    assert buf[..ptr] == buf[..at] + buf[at..ptr];
  }

  /** `fcall_path_split`; `memory` says whether the allocation succeeds.  The source needs a slash in the path. */
  method Split(path: Text, memory: bool) returns (n: int, wname: array?<Byte>)
    requires NextSlash(path, 0) < |path|
    ensures path == [SLASH] ==> n == 0 && wname == null
    ensures path != [SLASH] && (Slashes(path, 0) > 32767 || !memory) ==> n == -1 && wname == null
    ensures path != [SLASH] && Slashes(path, 0) <= 32767 && memory ==>
              var es := Parts(path, NextSlash(path, 0));
              && n == |es| && wname != null && wname.Length == |path| + 2 * n
              && |Pack(es)| <= wname.Length && wname[..|Pack(es)|] == Pack(es)
  {
    if path == [SLASH] { return 0, null; }
    var nwname := StrCnt(path);
    if nwname > SHRT_MAX || !memory { return -1, null; }
    var buf := new Byte[|path| + 2 * nwname];
    var ptr := 0;
    var r := StrChr(path, 0);
    PackFits(path);
    ghost var es, done: seq<Text> := Parts(path, r), [];
    assert es == done + Parts(path, r) && buf[..0] == Pack(done);
    while true
      invariant 0 <= r < |path| && path[r] == SLASH && es == done + Parts(path, r)
      invariant 0 <= ptr <= buf.Length && ptr == |Pack(done)| && buf[..ptr] == Pack(done)
      decreases |path| - r
    {
      ghost var l := r;
      r, ptr := PutNext(buf, path, r, ptr, es, done);
      done := done + [path[l + 1..r]];
      if r == |path| { break; }
    }
    return nwname, buf;
  }

  lemma ElementFits(es: seq<Text>, done: seq<Text>, path: Text, l: nat, e: Text, r: nat)
    requires l < r <= |path| && r == NextSlash(path, l + 1) && e == path[l + 1..r] && es == done + Parts(path, l)
    ensures Pack(done + [e]) == Pack(done) + Packed(e) && |Pack(done + [e])| <= |Pack(es)|
    ensures r < |path| ==> es == done + [e] + Parts(path, r)
    ensures r == |path| ==> es == done + [e]
  {
    PackAppend(done, e);
    var rest := if r < |path| then Parts(path, r) else [];
    RegroupParts(done, e, rest);
    PackMore(done + [e], rest);
  }

  lemma RegroupParts(done: seq<Text>, e: Text, rest: seq<Text>)
    ensures done + ([e] + rest) == (done + [e]) + rest && done + [e] + [] == done + [e]
  {}

  lemma {:induction false} PackMore(a: seq<Text>, b: seq<Text>)
    ensures |Pack(a)| <= |Pack(a + b)|
  {
    if a != [] {
      PackMore(a[1..], b);
      assert (a + b)[1..] == a[1..] + b;
    }
  }

  lemma {:induction false} UnpackCount(m: Text, n: nat)
    requires Unpack(m, n).Some?
    ensures |Unpack(m, n).value| == n
    decreases n
  {
    if n > 0 { UnpackCount(m[2 + Length(m, 0)..], n - 1); }
  }

  /** `fcall_path_size` on `n` elements in memory. */
  method PathSize(n: nat, m: Text, ghost es: seq<Text>) returns (size: nat)
    requires n < 0x1_0000 && Unpack(m, n) == Some(es)
    ensures size == if TotalLength(es) > 32767 then 0 else TotalLength(es)
  {
    var total, ptr := 0, 0;
    ghost var rest := es;
    UnpackCount(m, n);
    assert m[0..] == m;
    for i := 0 to n
      invariant 0 <= ptr <= |m| && Unpack(m[ptr..], n - i) == Some(rest) && |rest| == n - i
      invariant total + TotalLength(rest) == TotalLength(es)
    {
      var len := Length(m[ptr..], 0);
      total := total + len;
      if n - i != 1 {
        total := total + 1;
      }
      assert m[ptr..][2 + len..] == m[ptr + 2 + len..];
      ptr := ptr + 2 + len;
      rest := rest[1..];
    }
    if total > SHRT_MAX { return 0; }
    return total;
  }
}
