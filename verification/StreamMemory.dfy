/**
 Buffers with a bump position, vectors that refer to them, and what the vectors stand for.  Used by module EncodeStream.
 */
module StreamMemory {
  import opened Lists

  const ENCODE_BUF_SIZE: nat := 1024

  type BufId = nat

  /** Bytes and bump position of a struct EncodeBuf. */
  datatype Buf = Buf(data: string, pos: nat)

  /** A struct iovec: memory of the caller, or a part of a buffer. */
  datatype Vec = Outside(bytes: string) | Slice(buf: BufId, off: nat, len: nat)

  type Memory = map<BufId, Buf>

  /** ALIGN(x, 8) */
  function Align(x: nat): (r: nat)
    ensures x <= r < x + 8 && r % 8 == 0
  {
    (x + 7) / 8 * 8
  }

  /** The room that new char[n] gives for len bytes of data */
  function Capacity(len: nat): (r: nat)
    ensures r >= len && r >= ENCODE_BUF_SIZE && r >= Align(len)
  {
    if len > ENCODE_BUF_SIZE then Align(len) else ENCODE_BUF_SIZE
  }

  /** A vector that refers to bytes below the bump position of its buffer. */
  predicate Live(v: Vec, m: Memory) {
    v.Slice? ==> v.buf in m && v.off + v.len <= m[v.buf].pos <= |m[v.buf].data|
  }

  function Content(v: Vec, m: Memory): string
    requires Live(v, m)
  {
    if v.Outside? then v.bytes else m[v.buf].data[v.off..v.off + v.len]
  }

  predicate AllLive(vs: seq<Vec>, m: Memory) {
    forall i :: 0 <= i < |vs| ==> Live(vs[i], m)
  }

  /** What a list of vectors stands for. */
  function Joined(vs: seq<Vec>, m: Memory): string
    requires AllLive(vs, m)
  {
    if vs == [] then "" else Joined(vs[..|vs| - 1], m) + Content(vs[|vs| - 1], m)
  }

  function Write(data: string, off: nat, s: string): (r: string)
    requires off + |s| <= |data|
    ensures |r| == |data|
  {
    data[..off] + s + data[off + |s|..]
  }

  lemma {:induction false} JoinedMore(vs: seq<Vec>, v: Vec, m: Memory)
    requires AllLive(vs, m) && Live(v, m)
    ensures AllLive(vs + [v], m) && Joined(vs + [v], m) == Joined(vs, m) + Content(v, m)
  {
    assert (vs + [v])[..|vs|] == vs;
  }

  lemma {:induction false} JoinedAppend(x: seq<Vec>, y: seq<Vec>, m: Memory)
    requires AllLive(x, m) && AllLive(y, m)
    ensures AllLive(x + y, m) && Joined(x + y, m) == Joined(x, m) + Joined(y, m)
    decreases |y|
  {
    if y == [] {
      assert x + y == x;
    } else {
      var t, v := y[..|y| - 1], y[|y| - 1];
      JoinedAppend(x, t, m);
      assert x + y == (x + t) + [v];
      JoinedMore(x + t, v, m);
      Assoc(Joined(x, m), Joined(t, m), Content(v, m));
    }
  }

  lemma {:induction false} Assoc(x: string, y: string, z: string)
    ensures (x + y) + z == x + (y + z)
  {
  }

  /** The memory m' only has more buffers, and more bytes above the bump positions of m. */
  ghost predicate Grown(m: Memory, m': Memory) {
    forall b :: b in m && m[b].pos <= |m[b].data| ==>
      b in m' && m[b].pos <= m'[b].pos <= |m'[b].data| && m'[b].data[..m[b].pos] == m[b].data[..m[b].pos]
  }

  lemma {:induction false} SliceOfPrefix(d: string, p: nat, i: nat, j: nat)
    requires i <= j <= p <= |d|
    ensures d[i..j] == d[..p][i..j]
  {
    forall k | 0 <= k < j - i
      ensures d[i..j][k] == d[..p][i..j][k]
    {
      assert d[i..j][k] == d[i + k] == d[..p][i + k] == d[..p][i..j][k];
    }
  }

  lemma {:induction false} SamePart(d: string, d': string, p: nat, i: nat, j: nat)
    requires i <= j <= p <= |d| && p <= |d'| && d'[..p] == d[..p]
    ensures d'[i..j] == d[i..j]
  {
    SliceOfPrefix(d, p, i, j);
    SliceOfPrefix(d', p, i, j);
  }

  /** Bump allocation keeps what every live vector refers to. */
  lemma {:induction false} ContentKept(v: Vec, m: Memory, m': Memory)
    requires Live(v, m) && Grown(m, m')
    ensures Live(v, m') && Content(v, m') == Content(v, m)
  {
    if v.Slice? {
      SamePart(m[v.buf].data, m'[v.buf].data, m[v.buf].pos, v.off, v.off + v.len);
    }
  }

  lemma {:induction false} JoinedKept(vs: seq<Vec>, m: Memory, m': Memory)
    requires AllLive(vs, m) && Grown(m, m')
    ensures AllLive(vs, m') && Joined(vs, m') == Joined(vs, m)
    decreases |vs|
  {
    if vs != [] {
      JoinedKept(vs[..|vs| - 1], m, m');
      ContentKept(vs[|vs| - 1], m, m');
      assert forall i :: 0 <= i < |vs| - 1 ==> vs[..|vs| - 1][i] == vs[i];
    }
  }

  /** A new buffer. */
  lemma {:induction false} NewBuffer(m: Memory, b: BufId, buf: Buf)
    requires b !in m && buf.pos <= |buf.data|
    ensures Grown(m, m[b := buf])
  {
  }

  /** Writing at the bump position and moving it behind the new bytes. */
  lemma {:induction false} Bumped(m: Memory, b: BufId, s: string, p: nat)
    requires b in m && m[b].pos + |s| <= |m[b].data| && m[b].pos + |s| <= p <= |m[b].data|
    ensures Grown(m, m[b := Buf(Write(m[b].data, m[b].pos, s), p)])
    ensures Live(Slice(b, m[b].pos, |s|), m[b := Buf(Write(m[b].data, m[b].pos, s), p)])
    ensures Content(Slice(b, m[b].pos, |s|), m[b := Buf(Write(m[b].data, m[b].pos, s), p)]) == s
  {
    var d := Write(m[b].data, m[b].pos, s);
    assert d[..m[b].pos] == m[b].data[..m[b].pos];
    assert d[m[b].pos..m[b].pos + |s|] == s;
  }

  /** list_move to the head of the list */
  function ToFront(s: seq<BufId>, b: BufId): seq<BufId> {
    [b] + Unlink(s, b)
  }

  lemma {:induction false} PartLive(vs: seq<Vec>, m: Memory, i: nat, j: nat)
    requires AllLive(vs, m) && i <= j <= |vs|
    ensures AllLive(vs[i..j], m)
  {
  }

  lemma {:induction false} WriteFront(data: string, p: nat, c: string)
    requires p + |c| <= |data|
    ensures Write(data, p, c)[..p + |c|] == data[..p] + c
  {
    var w := data[..p] + c;
    assert Write(data, p, c) == w + data[p + |c|..];
    assert (w + data[p + |c|..])[..|w|] == w;
  }

  lemma {:induction false} CopyStep(all: seq<Vec>, m: Memory, k: nat, data: string, p: nat, len: nat)
    requires AllLive(all, m) && k < |all| && |Joined(all, m)| == len <= |data| && AllLive(all[..k], m)
    requires p == |Joined(all[..k], m)| <= len && data[..p] == Joined(all[..k], m)
    ensures AllLive(all[..k + 1], m) && p + |Content(all[k], m)| == |Joined(all[..k + 1], m)| <= len
    ensures Write(data, p, Content(all[k], m))[..p + |Content(all[k], m)|] == Joined(all[..k + 1], m)
  {
    OneFurther(all, m, k);
    WriteFront(data, p, Content(all[k], m));
  }

  lemma {:induction false} OneFurther(all: seq<Vec>, m: Memory, k: nat)
    requires AllLive(all, m) && k < |all| && AllLive(all[..k], m)
    ensures AllLive(all[..k + 1], m) && Joined(all[..k + 1], m) == Joined(all[..k], m) + Content(all[k], m)
    ensures |Joined(all[..k + 1], m)| <= |Joined(all, m)|
  {
    assert all[..k + 1] == all[..k] + [all[k]];
    JoinedMore(all[..k], all[k], m);
    assert all == all[..k + 1] + all[k + 1..];
    PartLive(all, m, k + 1, |all|);
    JoinedAppend(all[..k + 1], all[k + 1..], m);
  }

  lemma {:induction false} MergedAs(front: seq<Vec>, rest: seq<Vec>, m: Memory, b: BufId, buf: Buf, len: nat)
    requires AllLive(front, m) && AllLive(rest, m) && b !in m && len <= buf.pos <= |buf.data|
    requires buf.data[..len] == Joined(rest, m)
    ensures var v := Slice(b, 0, len);
            AllLive(front + [v], m[b := buf]) && Joined(front + [v], m[b := buf]) == Joined(front + rest, m)
            && Grown(m, m[b := buf])
  {
    var m', v := m[b := buf], Slice(b, 0, len);
    NewBuffer(m, b, buf);
    JoinedKept(front, m, m');
    JoinedMore(front, v, m');
    JoinedAppend(front, rest, m);
  }

  /** The buffers: below the next identifier, bumped within their bytes and to multiples of eight. */
  ghost predicate Sound(m: Memory, list: seq<BufId>, next: BufId) {
    && (forall b :: b in m ==> b < next && m[b].pos <= |m[b].data| && |m[b].data| >= ENCODE_BUF_SIZE
                               && m[b].pos % 8 == 0)
    && (forall i :: 0 <= i < |list| ==> list[i] in m)
  }

  lemma {:induction false} SoundNew(m: Memory, list: seq<BufId>, next: BufId, buf: Buf)
    requires Sound(m, list, next) && buf.pos <= |buf.data| && |buf.data| >= ENCODE_BUF_SIZE && buf.pos % 8 == 0
    ensures next !in m && Sound(m[next := buf], [next] + list, next + 1)
    ensures Sound(m[next := buf], list + [next], next + 1)
  {
  }

  lemma {:induction false} SoundBump(m: Memory, list: seq<BufId>, next: BufId, b: BufId, buf: Buf)
    requires Sound(m, list, next) && b in m && buf.pos <= |buf.data| && |buf.data| == |m[b].data| && buf.pos % 8 == 0
    ensures Sound(m[b := buf], list, next) && Sound(m[b := buf], ToFront(list, b), next)
  {
    UnlinkWithin(list, b);
    var front := ToFront(list, b);
    forall i | 0 <= i < |front|
      ensures front[i] in m
    {
      if i > 0 {
        assert front[i] in Unlink(list, b);
      }
    }
  }

  lemma {:induction false} BumpFits(pos: nat, len: nat)
    requires pos % 8 == 0 && pos + len <= ENCODE_BUF_SIZE
    ensures pos + Align(len) <= ENCODE_BUF_SIZE
  {
  }

  lemma {:induction false} AlignedSum(pos: nat, len: nat)
    requires pos % 8 == 0
    ensures (pos + Align(len)) % 8 == 0
  {
  }

  /** k vectors are copied to the front of data. */
  ghost predicate Copied(all: seq<Vec>, m: Memory, k: nat, data: string, p: nat, len: nat) {
    && k <= |all| && AllLive(all, m) && |Joined(all, m)| == len && |data| == Capacity(len)
    && AllLive(all[..k], m) && p == |Joined(all[..k], m)| <= len && data[..p] == Joined(all[..k], m)
  }

  lemma {:induction false} CopyStart(all: seq<Vec>, m: Memory, data: string, len: nat)
    requires AllLive(all, m) && |Joined(all, m)| == len && |data| == Capacity(len)
    ensures Copied(all, m, 0, data, 0, len)
  {
    assert all[..0] == [];
  }

  lemma {:induction false} CopyOne(all: seq<Vec>, m: Memory, k: nat, data: string, p: nat, len: nat)
    requires Copied(all, m, k, data, p, len) && k < |all|
    ensures p + |Content(all[k], m)| <= |data|
    ensures Copied(all, m, k + 1, Write(data, p, Content(all[k], m)), p + |Content(all[k], m)|, len)
  {
    CopyStep(all, m, k, data, p, len);
  }

  lemma {:induction false} CopyDone(all: seq<Vec>, m: Memory, data: string, p: nat, len: nat)
    requires Copied(all, m, |all|, data, p, len)
    ensures data[..len] == Joined(all, m)
  {
    assert all[..|all|] == all;
  }

  /** The vectors of which the first k are merged. */
  ghost predicate Stands(vs: seq<Vec>, m: Memory, k: nat, appended: string, mergedBytes: nat) {
    && k <= |vs| && AllLive(vs, m) && Joined(vs, m) == appended
    && AllLive(vs[..k], m) && |Joined(vs[..k], m)| == mergedBytes
  }

  lemma {:induction false} StandsMore(vs: seq<Vec>, m: Memory, k: nat, appended: string, mergedBytes: nat, v: Vec)
    requires Stands(vs, m, k, appended, mergedBytes) && Live(v, m)
    ensures Stands(vs + [v], m, k, appended + Content(v, m), mergedBytes)
  {
    JoinedMore(vs, v, m);
    assert (vs + [v])[..k] == vs[..k];
  }

  lemma {:induction false} StandsKept(vs: seq<Vec>, m: Memory, m': Memory, k: nat, appended: string, mergedBytes: nat)
    requires Stands(vs, m, k, appended, mergedBytes) && Grown(m, m')
    ensures Stands(vs, m', k, appended, mergedBytes)
  {
    JoinedKept(vs, m, m');
    JoinedKept(vs[..k], m, m');
  }

  lemma {:induction false} StandsSplit(vs: seq<Vec>, m: Memory, k: nat, appended: string, mergedBytes: nat)
    requires Stands(vs, m, k, appended, mergedBytes)
    ensures AllLive(vs[k..], m) && |appended| == mergedBytes + |Joined(vs[k..], m)|
  {
    assert vs == vs[..k] + vs[k..];
    JoinedAppend(vs[..k], vs[k..], m);
  }

  /** The unmerged vectors in one new buffer. */
  lemma {:induction false} StandsMerged(vs: seq<Vec>, m: Memory, k: nat, appended: string, mergedBytes: nat, b: BufId,
                                        buf: Buf, len: nat)
    requires Stands(vs, m, k, appended, mergedBytes) && AllLive(vs[k..], m)
    requires b !in m && len <= buf.pos <= |buf.data| && buf.data[..len] == Joined(vs[k..], m)
    ensures Stands(vs[..k] + [Slice(b, 0, len)], m[b := buf], k + 1, appended, |appended|)
  {
    var front, rest, r := vs[..k], vs[k..], vs[..k] + [Slice(b, 0, len)];
    assert vs == front + rest;
    MergedAs(front, rest, m, b, buf, len);
    StandsAll(r, m[b := buf], appended);
    assert |r| == k + 1;
  }

  lemma {:induction false} StandsAll(vs: seq<Vec>, m: Memory, appended: string)
    requires AllLive(vs, m) && Joined(vs, m) == appended
    ensures Stands(vs, m, |vs|, appended, |appended|)
  {
    assert vs[..|vs|] == vs;
  }
}
