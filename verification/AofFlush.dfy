/**
 Flushing the append-only buffer (aof.c): the write loop, the undoing of short writes, and the fsync policies, for
 every outcome of write(2), ftruncate(2) and fsync(2).
 */
module AofFlush {
  import opened AofLog

  // ------------------------------------------------------------------ files

  /** An open file: its bytes, the descriptor's offset, and whether it was opened with O_APPEND. */
  datatype OpenFile = OpenFile(data: Bytes, offset: nat, append: bool)

  function Zeros(n: nat): Bytes { seq(n, _ => 0) }

  /** write(2): at the end, or at the offset with the gap, if any, filled with zeros. */
  function WriteAt(f: OpenFile, chunk: Bytes): OpenFile {
    var pos := if f.append then |f.data| else f.offset;
    var filled := if pos > |f.data| then f.data + Zeros(pos - |f.data|) else f.data;
    var after := if pos + |chunk| < |filled| then filled[pos + |chunk|..] else [];
    OpenFile(filled[..pos] + chunk + after, pos + |chunk|, f.append)
  }

  /** ftruncate(2) does not move the offset. */
  function Truncate(f: OpenFile, size: nat): OpenFile {
    f.(data := if size <= |f.data| then f.data[..size] else f.data + Zeros(size - |f.data|))
  }

  /** The next write goes to the end. */
  predicate Aligned(f: OpenFile) { f.append || f.offset == |f.data| }

  lemma WriteAppends(f: OpenFile, chunk: Bytes)
    requires Aligned(f)
    ensures WriteAt(f, chunk).data == f.data + chunk && Aligned(WriteAt(f, chunk)) && WriteAt(f, chunk).append == f.append
  {
  }

  /** A write extends the file by its bytes if and only if it goes to the end. */
  lemma WriteAppendsOnlyAligned(f: OpenFile, chunk: Bytes)
    requires |chunk| > 0
    ensures WriteAt(f, chunk).data == f.data + chunk <==> Aligned(f)
  {
    if Aligned(f) {
      WriteAppends(f, chunk);
    } else {
      assert |WriteAt(f, chunk).data| != |f.data + chunk|;
    }
  }

  /**
   Without O_APPEND a short write that is undone leaves the offset behind the end, and the retry leaves a hole of
   zeros where the loader expects a command.
   */
  lemma RetryLeavesHole(f: OpenFile, buf: Bytes, k: nat)
    requires !f.append && f.offset == |f.data| && 0 < k < |buf|
    ensures var undone := Truncate(WriteAt(f, buf[..k]), |f.data|);
      undone.data == f.data && !Aligned(undone) && WriteAt(undone, buf).data == f.data + Zeros(k) + buf
  {
    WriteAppends(f, buf[..k]);
    var undone := Truncate(WriteAt(f, buf[..k]), |f.data|);
    assert undone.data == f.data;
    assert WriteAt(undone, buf).data == (f.data + Zeros(k))[..|f.data| + k] + buf + [];
  }

  // ------------------------------------------------------------------ the write loop

  /** What one call of write(2) does: some bytes, EINTR, or another error. */
  datatype WriteCall = Wrote(n: nat) | Interrupted | Failed

  /** How many of `len` bytes the calls get written; running out of calls counts as an error. */
  function Total(calls: seq<WriteCall>, len: nat): (t: nat)
    ensures t <= len
  {
    if len == 0 || |calls| == 0 then 0
    else
      match calls[0]
      case Wrote(n) => var k := if n < len then n else len; k + Total(calls[1..], len - k)
      case Interrupted => Total(calls[1..], len)
      case Failed => 0
  }

  lemma TotalStep(calls: seq<WriteCall>, i: nat, len: nat)
    requires i <= |calls| && len > 0
    ensures i == |calls| ==> Total(calls[i..], len) == 0
    ensures i < |calls| && calls[i].Wrote? ==>
      (var k := if calls[i].n < len then calls[i].n else len; Total(calls[i..], len) == k + Total(calls[i + 1..], len - k))
    ensures i < |calls| && calls[i].Interrupted? ==> Total(calls[i..], len) == Total(calls[i + 1..], len)
    ensures i < |calls| && calls[i].Failed? ==> Total(calls[i..], len) == 0
  {
    if i < |calls| { assert calls[i..][1..] == calls[i + 1..]; }
  }

  lemma TotalNone(calls: seq<WriteCall>)
    ensures Total(calls, 0) == 0
  {
  }

  function Sum(calls: seq<WriteCall>): nat {
    if |calls| == 0 then 0 else (if calls[0].Wrote? then calls[0].n else 0) + Sum(calls[1..])
  }

  /** That is all the calls before the first error get written, EINTR being none, up to what there is to write. */
  lemma {:induction false} TotalIsSum(calls: seq<WriteCall>, len: nat, ok: nat)
    requires ok <= |calls| && (forall i | 0 <= i < ok :: !calls[i].Failed?) && (ok < |calls| ==> calls[ok].Failed?)
    ensures Total(calls, len) == if Sum(calls[..ok]) < len then Sum(calls[..ok]) else len
  {
    if len > 0 && ok > 0 {
      var n := if calls[0].Wrote? then calls[0].n else 0;
      TotalIsSum(calls[1..], if n < len then len - n else 0, ok - 1);
      assert calls[..ok][1..] == calls[1..][..ok - 1];
    }
  }

  datatype Policy = Always | EverySec | No

  /** What the environment decides during one flush. */
  datatype Env = Env(calls: seq<WriteCall>, truncates: bool, fsyncs: bool, syncing: bool, childActive: bool, now: int)

  /** The part of the server a flush touches. */
  class Server {
    const policy: Policy
    const noFsyncOnRewrite: bool
    var file: OpenFile
    var buf: Bytes
    var lastIncrSize: nat
    var currentSize: nat
    var fsyncOffset: nat
    var postponedStart: int
    var lastFsync: int
    var writeOk: bool

    constructor (policy: Policy, noFsyncOnRewrite: bool, file: OpenFile)
      requires Aligned(file)
      ensures Valid() && Aligned(this.file) && this.file == file && buf == [] && this.policy == policy
    {
      this.policy, this.noFsyncOnRewrite, this.file := policy, noFsyncOnRewrite, file;
      buf, lastIncrSize, currentSize, fsyncOffset := [], |file.data|, |file.data|, |file.data|;
      postponedStart, lastFsync, writeOk := 0, 0, true;
    }

    /** The size kept in memory is the file's, and no more than the file was ever synced. */
    ghost predicate Valid()
      reads this
    {
      lastIncrSize == |file.data| && fsyncOffset <= lastIncrSize
    }

    /** `aofWrite` on the whole buffer. */
    method AofWrite(calls: seq<WriteCall>) returns (r: int)
      requires Aligned(file)
      modifies `file
      ensures file.data == old(file.data) + buf[..Total(calls, |buf|)] && Aligned(file) && file.append == old(file.append)
      ensures !file.append ==> file.offset == |file.data|
      ensures r == var t := Total(calls, |buf|); if t == |buf| || t > 0 then t else -1
    {
      hide WriteAt, Total;
      var i, done := 0, 0;
      assert calls[0..] == calls;
      while done < |buf|
        invariant 0 <= i <= |calls| && 0 <= done <= |buf|
        invariant Aligned(file) && file.append == old(file.append) && file.data == old(file.data) + buf[..done]
        invariant done + Total(calls[i..], |buf| - done) == Total(calls, |buf|)
        decreases |calls| - i
      {
        TotalStep(calls, i, |buf| - done);
        if i == |calls| { return if done > 0 then done else -1; }
        var call := calls[i];
        i := i + 1;
        match call {
          case Interrupted =>
          case Failed => return if done > 0 then done else -1;
          case Wrote(n) =>
            var k := if n < |buf| - done then n else |buf| - done;
            var chunk := buf[done..done + k];
            WriteAppends(file, chunk);
            file := WriteAt(file, chunk);
            assert buf[..done] + chunk == buf[..done + k];
            done := done + k;
        }
      }
      TotalNone(calls[i..]);
      return done;
    }

    /** The middle of `flushAppendOnlyFile`: the write, and what is done when it fails. */
    method WriteBuffer(env: Env) returns (done: bool, exited: bool)
      requires Valid() && Aligned(file) && |buf| > 0
      modifies `file, `buf, `lastIncrSize, `currentSize, `writeOk, `postponedStart
      ensures file.append == old(file.append)
      ensures !exited ==> Valid() && file.data + buf == old(file.data) + old(buf)
      ensures !exited ==> (Aligned(file) <==> file.append || !(0 < Total(env.calls, |old(buf)|) < |old(buf)| && env.truncates))
      ensures done <==> Total(env.calls, |old(buf)|) == |old(buf)|
      ensures exited <==> !done && policy == Always
      ensures !exited ==> buf == if done then [] else if env.truncates then old(buf) else old(buf)[Total(env.calls, |old(buf)|)..]
      ensures !exited ==> (writeOk <==> done)
      ensures !exited ==> currentSize - lastIncrSize == old(currentSize) - old(lastIncrSize)
      ensures postponedStart == 0
      ensures exited ==> exists k | 0 <= k <= |old(buf)| :: file.data == old(file.data) + old(buf)[..k]
    {
      hide WriteAt, Total;
      ghost var data0, t := file.data, Total(env.calls, |buf|);
      var nwritten := AofWrite(env.calls);
      postponedStart := 0;
      if nwritten == |buf| {
        writeOk := true;
        currentSize := currentSize + nwritten;
        lastIncrSize := lastIncrSize + nwritten;
        assert buf[..|buf|] == buf;
        buf := [];
        return true, false;
      }
      assert file.data == data0 + buf[..t];
      if nwritten != -1 && env.truncates {
        file := Truncate(file, lastIncrSize);
        nwritten := -1;
        assert file.data == data0 + buf[..0];
      }
      if policy == Always { return false, true; }
      writeOk := false;
      if nwritten > 0 {
        currentSize := currentSize + nwritten;
        lastIncrSize := lastIncrSize + nwritten;
        assert buf[..nwritten] + buf[nwritten..] == buf;
        buf := buf[nwritten..];
      }
      return false, false;
    }

    /** The end of `flushAppendOnlyFile`. */
    method TryFsync(env: Env, syncing: bool) returns (exited: bool)
      requires Valid()
      modifies `fsyncOffset, `lastFsync
      ensures Valid() && fsyncOffset >= old(fsyncOffset)
      ensures exited <==> policy == Always && !env.fsyncs && !(noFsyncOnRewrite && env.childActive)
      ensures var due := !exited && !(noFsyncOnRewrite && env.childActive) && (policy == Always || (policy == EverySec && env.now > old(lastFsync)));
        && fsyncOffset == (if due && (policy == Always || !syncing) then lastIncrSize else old(fsyncOffset))
        && lastFsync == if due then env.now else old(lastFsync)
    {
      if noFsyncOnRewrite && env.childActive { return false; }
      if policy == Always {
        if !env.fsyncs { return true; }
        fsyncOffset := lastIncrSize;
        lastFsync := env.now;
      } else if policy == EverySec && env.now > lastFsync {
        if !syncing { fsyncOffset := lastIncrSize; }
        lastFsync := env.now;
      }
      return false;
    }

    /**
     `flushAppendOnlyFile`. No byte is lost or doubled: what the file holds and what the buffer holds stay the same
     bytes in the same order, and the size in memory stays the file's. The next write goes to the end, except when a
     short write was undone on a file that was not opened for appending.
     */
    method FlushAppendOnlyFile(force: bool, env: Env) returns (exited: bool)
      requires Valid() && Aligned(file)
      modifies this
      ensures file.append == old(file.append)
      ensures !exited ==> Valid() && file.data + buf == old(file.data) + old(buf)
      ensures var postpones := |old(buf)| > 0 && policy == EverySec && !force && env.syncing && (old(postponedStart) == 0 || env.now - old(postponedStart) < 2);
        var held := noFsyncOnRewrite && env.childActive; var t := Total(env.calls, |old(buf)|);
        && (postpones ==> !exited && file == old(file) && buf == old(buf) && fsyncOffset == old(fsyncOffset)
                          && postponedStart == if old(postponedStart) == 0 then env.now else old(postponedStart))
        && (!postpones ==>
            && (exited <==> policy == Always && (t != |old(buf)| || ((|old(buf)| > 0 || old(fsyncOffset) != old(lastIncrSize)) && !env.fsyncs && !held)))
            && (!exited ==> (Aligned(file) <==> file.append || !(0 < t < |old(buf)| && env.truncates)))
            && (!exited ==> buf == if t == |old(buf)| then [] else if env.truncates then old(buf) else old(buf)[t..])
            && (!exited && policy == Always && !held ==> fsyncOffset == |file.data|)
            && (!exited && policy == EverySec && !held && t == |old(buf)| && env.now > old(lastFsync) && !env.syncing ==> fsyncOffset == |file.data|)
            && (|old(buf)| > 0 ==> postponedStart == 0 && (!exited ==> (writeOk <==> t == |old(buf)|))))
      ensures policy == No ==> fsyncOffset == old(fsyncOffset)
      ensures exited ==> policy == Always && exists k | 0 <= k <= |old(buf)| :: file.data == old(file.data) + old(buf)[..k]
    {
      hide WriteAt, Total;
      ghost var data0, buf0 := file.data, buf;
      assert data0 + buf0[..|buf0|] == data0 + buf0;
      var syncing := false;
      if |buf| == 0 {
        if !((policy == EverySec && fsyncOffset != lastIncrSize && env.now > lastFsync && !env.syncing)
             || (policy == Always && fsyncOffset != lastIncrSize)) {
          return false;
        }
      } else {
        if policy == EverySec { syncing := env.syncing; }
        if policy == EverySec && !force && syncing {
          if postponedStart == 0 {
            postponedStart := env.now;
            return false;
          } else if env.now - postponedStart < 2 {
            return false;
          }
        }
        var done;
        done, exited := WriteBuffer(env);
        if !done { return exited; }
        assert file.data == data0 + buf0[..|buf0|];
      }
      exited := TryFsync(env, syncing);
    }
  }

  /**
   With fsync every second a write waits at most two seconds: however long a background fsync takes, the second of two
   flushes that lie so far apart writes what was in the buffer, if the calls write at all.
   */
  method WritesWithinTwoSeconds(s: Server, first: Env, second: Env)
    requires s.Valid() && Aligned(s.file) && s.policy == EverySec && |s.buf| > 0
    requires first.syncing && s.postponedStart == 0 && first.now != 0 && second.now - first.now >= 2 && Total(second.calls, |s.buf|) == |s.buf|
    modifies s
    ensures s.Valid() && s.buf == [] && s.file.data == old(s.file.data) + old(s.buf)
  {
    hide Total, WriteAt;
    var exited := s.FlushAppendOnlyFile(false, first);
    exited := s.FlushAppendOnlyFile(false, second);
    assert s.file.data + [] == s.file.data;
  }
}
