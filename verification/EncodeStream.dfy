/**
 The vector stream of src/util/EncodeStream.cc: data is appended by reference or by copy into bump-allocated
 buffers, and when the vectors run out those not merged yet are copied into one.

 A buffer is its bytes and the bump position; a vector refers to the caller's data or to a slice of a
 buffer, so what a vector stands for depends on the memory at the time it is read.
 */
module EncodeStream {
  import opened StreamMemory

  class Stream {
    var vec: array<Vec>
    var max: nat
    var size: nat
    var bytes: nat
    var mergedSize: nat
    var mergedBytes: nat
    var bufList: seq<BufId>
    var memory: Memory
    var next: BufId
    /** Everything appended since the vectors were set. */
    ghost var appended: string

    predicate Overflowed()
      reads this
    {
      size > max
    }

    /** The vectors in use stand for everything appended. */
    ghost predicate Valid()
      reads this, vec
    {
      && max <= vec.Length && Sound(memory, bufList, next)
      && (Overflowed() ==> size == max + 1 && mergedSize + 1 >= max)
      && (!Overflowed() ==> bytes == |appended| && Stands(vec[..size], memory, mergedSize, appended, mergedBytes))
    }

    /** The constructor and reset */
    constructor (vectors: array<Vec>, limit: nat)
      requires limit <= vectors.Length
      ensures Valid() && appended == "" && vec == vectors && max == limit && !Overflowed()
    {
      vec, max, bytes, size, mergedBytes, mergedSize := vectors, limit, 0, 0, 0, 0;
      bufList, memory, next, appended := [], map[], 0, "";
    }

    /** The copy loop of merge: the unmerged vectors one after the other. */
    method CopyVectors(len: nat) returns (data: string)
      requires Valid() && !Overflowed() && len == bytes - mergedBytes
      ensures |data| == Capacity(len) && AllLive(vec[..size][mergedSize..], memory)
      ensures data[..len] == Joined(vec[..size][mergedSize..], memory)
    {
      StandsSplit(vec[..size], memory, mergedSize, appended, mergedBytes);
      data := CopyFrom(vec[..size], memory, mergedSize, len);
    }

    /** The loop over the vectors from the first unmerged one on */
    static method CopyFrom(vs: seq<Vec>, m: Memory, from: nat, len: nat) returns (data: string)
      requires from <= |vs| && AllLive(vs[from..], m) && |Joined(vs[from..], m)| == len
      ensures |data| == Capacity(len) && data[..len] == Joined(vs[from..], m)
    {
      ghost var all := vs[from..];
      data := seq(Capacity(len), i => '\0');
      CopyStart(all, m, data, len);
      var p: nat, i: nat := 0, from;
      ghost var k := 0;
      while i < |vs|
        invariant from <= i <= |vs| && i == from + k && Copied(all, m, k, data, p, len)
      {
        assert vs[i] == all[k];
        CopyOne(all, m, k, data, p, len);
        var piece := Content(vs[i], m);
        data := Write(data, p, piece);
        p, i, k := p + |piece|, i + 1, k + 1;
      }
      assert k == |all|;
      CopyDone(all, m, data, p, len);
    }

    /** The new buffer of merge, and the vector for it */
    method Gather(ghost vs: seq<Vec>) returns (v: Vec)
      requires Valid() && !Overflowed() && vs == vec[..size]
      modifies `memory, `bufList, `next
      ensures Sound(memory, bufList, next)
      ensures mergedSize <= |vs| && Stands(vs[..mergedSize] + [v], memory, mergedSize + 1, appended, |appended|)
    {
      StandsSplit(vs, memory, mergedSize, appended, mergedBytes);
      var len := bytes - mergedBytes;
      var data := CopyVectors(len);
      var buf := Buf(data, Align(len));
      StandsMerged(vs, memory, mergedSize, appended, mergedBytes, next, buf, len);
      v := Slice(next, 0, len);
      AddBuffer(buf);
    }

    /** list_add of a new buffer */
    method AddBuffer(buf: Buf)
      requires Sound(memory, bufList, next) && buf.pos <= |buf.data| && |buf.data| >= ENCODE_BUF_SIZE
      requires buf.pos % 8 == 0
      modifies `memory, `bufList, `next
      ensures Sound(memory, bufList, next) && memory == old(memory)[old(next) := buf]
    {
      SoundNew(memory, bufList, next, buf);
      memory, bufList, next := memory[next := buf], [next] + bufList, next + 1;
    }

    /** merge */
    method Merge()
      requires Valid() && size == max && mergedSize + 1 < max
      modifies this, vec
      ensures Valid() && !Overflowed() && size < max && appended == old(appended) && vec == old(vec) && max == old(max)
    {
      ghost var vs := vec[..size];
      var v := Gather(vs);
      Replace(v, vs);
    }

    /** One vector takes the place of the unmerged ones. */
    method Replace(v: Vec, ghost vs: seq<Vec>)
      requires max <= vec.Length && size == max && mergedSize + 1 < max && Sound(memory, bufList, next)
      requires bytes == |appended|
      requires vs == vec[..size] && Stands(vs[..mergedSize] + [v], memory, mergedSize + 1, appended, |appended|)
      modifies `mergedSize, `mergedBytes, `size, vec
      ensures Valid() && !Overflowed() && size < max
    {
      vec[mergedSize] := v;
      assert vec[..mergedSize + 1] == vs[..mergedSize] + [v];
      mergedSize := mergedSize + 1;
      mergedBytes := bytes;
      size := mergedSize;
    }

    /** The test that both appends start with; overflow is for good. */
    method MakeRoom() returns (ok: bool)
      requires Valid()
      modifies this, vec
      ensures Valid() && vec == old(vec) && max == old(max)
      ensures ok == (old(size) < max || (old(size) == max && old(mergedSize) + 1 < max))
      ensures ok ==> size < max && appended == old(appended)
      ensures !ok ==> Overflowed()
    {
      ok := true;
      if size >= max {
        if mergedSize + 1 < max {
          Merge();
        } else {
          size := max + 1;
          ok := false;
        }
      }
    }

    /** Room for one more vector. */
    ghost predicate HasRoom()
      reads this
    {
      size < max || (size == max && mergedSize + 1 < max)
    }

    /** append_nocopy */
    method AppendNocopy(data: string)
      requires Valid()
      modifies this, vec
      ensures Valid() && vec == old(vec) && max == old(max)
      ensures if old(HasRoom()) then !Overflowed() && appended == old(appended) + data else Overflowed()
    {
      var ok := MakeRoom();
      if ok {
        PutVector(Outside(data));
      }
    }

    method PutVector(v: Vec)
      requires Valid() && size < max && Live(v, memory)
      modifies `size, `bytes, `appended, vec
      ensures Valid() && !Overflowed() && appended == old(appended) + Content(v, memory)
    {
      ghost var front := vec[..size];
      StandsMore(front, memory, mergedSize, appended, mergedBytes, v);
      vec[size] := v;
      assert vec[..size + 1] == front + [v];
      appended := appended + Content(v, memory);
      size := size + 1;
      bytes := bytes + (if v.Outside? then |v.bytes| else v.len);
    }

    /** The buffer that append_copy writes to: the last one, or a new one when it is missing or too full. */
    method PickBuffer(len: nat) returns (b: BufId)
      requires Valid() && size < max
      modifies `memory, `bufList, `next
      ensures Valid() && b in memory && memory[b].pos + Align(len) <= |memory[b].data|
    {
      if bufList != [] {
        b := bufList[|bufList| - 1];
        if memory[b].pos + len <= ENCODE_BUF_SIZE {
          BumpFits(memory[b].pos, len);
          return;
        }
      }
      b := next;
      var buf := Buf(seq(Capacity(len), i => '\0'), 0);
      SoundNew(memory, bufList, next, buf);
      NewBuffer(memory, b, buf);
      StandsKept(vec[..size], memory, memory[b := buf], mergedSize, appended, mergedBytes);
      memory := memory[b := buf];
      bufList := bufList + [b];
      next := next + 1;
    }

    /** memcpy to the bump position, which moves on to the next multiple of eight */
    method Bump(b: BufId, data: string) returns (v: Vec)
      requires Valid() && size < max && b in memory && memory[b].pos + Align(|data|) <= |memory[b].data|
      modifies `memory, `bufList
      ensures Valid() && Live(v, memory) && Content(v, memory) == data
    {
      var at := memory[b].pos;
      var buf := Buf(Write(memory[b].data, at, data), at + Align(|data|));
      AlignedSum(at, |data|);
      SoundBump(memory, bufList, next, b, buf);
      Bumped(memory, b, data, buf.pos);
      StandsKept(vec[..size], memory, memory[b := buf], mergedSize, appended, mergedBytes);
      memory := memory[b := buf];
      if buf.pos >= ENCODE_BUF_SIZE {
        bufList := ToFront(bufList, b);
      }
      v := Slice(b, at, |data|);
    }

    /** append_copy */
    method AppendCopy(data: string)
      requires Valid()
      modifies this, vec
      ensures Valid() && vec == old(vec) && max == old(max)
      ensures if old(HasRoom()) then !Overflowed() && appended == old(appended) + data else Overflowed()
    {
      var ok := MakeRoom();
      if ok {
        var b := PickBuffer(|data|);
        var v := Bump(b, data);
        PutVector(v);
      }
    }
  }
}
