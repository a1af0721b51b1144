// Copying and moving a received file to its final place, for every schedule of
// short, interrupted and failing system calls.
module FileHelper {
  import opened Bytes

  const BUFFER_SIZE := 2048

  // What one read or write does: EINTR, a fatal error, or at most n bytes. A
  // read before the end of the file returns at least one byte; a write may
  // return 0. A finished schedule stands for calls that move all they can.
  datatype Call = Interrupted | Failed | AtMost(n: nat)

  function Min(a: nat, b: nat): nat { if a < b then a else b }

  // The next call and the schedule after it.
  function Next(schedule: seq<Call>, all: nat): Call { if schedule == [] then AtMost(all) else schedule[0] }

  function Later(schedule: seq<Call>): (r: seq<Call>)
    ensures |r| <= |schedule|
    ensures Next(schedule, 0) == Interrupted ==> |r| < |schedule|
  {
    if schedule == [] then [] else schedule[1..]
  }

  // How the inner loop ends: the chunk is written, a fatal error, a write of 0.
  datatype End = Full | Fatal | Zero

  // n bytes were written by the first `calls` entries of the schedule.
  datatype Chunked = Chunked(n: nat, end: End, calls: nat)

  // The inner loop: count bytes are written piece by piece.
  function WriteOut(count: nat, writing: seq<Call>): (r: Chunked)
    requires count > 0
    ensures r.n <= count && r.calls <= |writing|
  {
    if writing == [] then Chunked(count, Full, 0)
    else match writing[0]
      case Failed => Chunked(0, Fatal, 1)
      case Interrupted =>
        var r := WriteOut(count, writing[1..]);
        r.(calls := r.calls + 1)
      case AtMost(k) =>
        if k == 0 then Chunked(0, Zero, 1)
        else if k >= count then Chunked(count, Full, 1)
        else
          var r := WriteOut(count - k, writing[1..]);
          Chunked(r.n + k, r.end, r.calls + 1)
  }

  // What a call of file_helper_copy with both files open returns, the bytes it
  // writes, whether a write of 0 was met, and how many entries of the two
  // schedules it used up.
  datatype Copied = Copied(ret: int, bytes: Bytes, zero: bool, readsMade: nat, writesMade: nat)

  // Bytes the next read returns when it may return k and left remain.
  function ReadSize(k: nat, left: nat): (n: nat)
    requires left > 0
    ensures 1 <= n <= left && n <= BUFFER_SIZE
  {
    Min(Min(if k == 0 then 1 else k, BUFFER_SIZE), left)
  }

  // The outer loop over what is left of the source.
  function Copying(s: Bytes, reading: seq<Call>, writing: seq<Call>): (c: Copied)
    ensures c.readsMade <= |reading| && c.writesMade <= |writing|
    decreases |reading|, |s|
  {
    if s == [] then Copied(0, [], false, 0, 0)
    else
      var later := Later(reading);
      var used := |reading| - |later|;
      match Next(reading, |s|)
      case Failed => Copied(-1, [], false, used, 0)
      case Interrupted =>
        var c := Copying(s, later, writing);
        c.(readsMade := c.readsMade + used)
      case AtMost(k) =>
        var n := ReadSize(k, |s|);
        var w := WriteOut(n, writing);
        if w.end == Fatal then Copied(-1, s[..w.n], false, used, w.calls)
        else
          var c := Copying(s[n..], later, writing[w.calls..]);
          Copied(c.ret, s[..w.n] + c.bytes, w.end == Zero || c.zero, c.readsMade + used, c.writesMade + w.calls)
  }

  // ---- properties of the loops ----

  // The bytes that a schedule of calls moves.
  function Moves(calls: seq<Call>): nat {
    if calls == [] then 0 else (if calls[0].AtMost? then calls[0].n else 0) + Moves(calls[1..])
  }

  // The inner loop stops short of the chunk exactly at the first error or
  // write of 0 among its calls.
  lemma {:induction false} WriteOutEnds(count: nat, writing: seq<Call>)
    requires count > 0
    ensures var r := WriteOut(count, writing);
            && (r.end == Full <==> r.n == count)
            && (r.end == Fatal <==> Failed in writing[..r.calls])
            && (r.end == Zero <==> AtMost(0) in writing[..r.calls])
            && (r.end != Full ==> r.n == Moves(writing[..r.calls]))
  {
    if writing != [] {
      var rest := writing[1..];
      if writing[0] == Interrupted {
        WriteOutEnds(count, rest);
      } else if writing[0].AtMost? && 0 < writing[0].n < count {
        WriteOutEnds(count - writing[0].n, rest);
      }
      var r := WriteOut(count, writing);
      assert writing[..r.calls] == [writing[0]] + rest[..r.calls - 1];
      assert writing[..r.calls][1..] == rest[..r.calls - 1];
    }
  }

  lemma InEither(x: Call, a: seq<Call>, b: seq<Call>)
    ensures x in a + b <==> x in a || x in b
  {
  }

  // The calls made, split at the first chunk.
  lemma CallsMade(schedule: seq<Call>, first: nat, later: nat, x: Call)
    requires first + later <= |schedule|
    ensures x in schedule[..first + later] <==> x in schedule[..first] || x in schedule[first..][..later]
  {
    assert schedule[..first + later] == schedule[..first] + schedule[first..][..later];
    InEither(x, schedule[..first], schedule[first..][..later]);
  }

  // A copy fails exactly when one of its calls fails, and meets a write of 0
  // exactly when one of its writes returns 0.
  lemma {:induction false} CopyingEnds(s: Bytes, reading: seq<Call>, writing: seq<Call>)
    ensures var c := Copying(s, reading, writing);
            && c.ret in {0, -1}
            && (c.ret == -1 <==> Failed in reading[..c.readsMade] || Failed in writing[..c.writesMade])
            && (c.zero <==> AtMost(0) in writing[..c.writesMade])
    decreases |reading|, |s|
  {
    hide WriteOut, ReadSize;
    if s != [] {
      var c, call, later := Copying(s, reading, writing), Next(reading, |s|), Later(reading);
      FirstCall(reading, |s|);
      if call == Interrupted {
        CopyingEnds(s, later, writing);
        CallsMade(reading, 1, c.readsMade - 1, Failed);
      } else if call.AtMost? {
        var n := ReadSize(call.n, |s|);
        var w := WriteOut(n, writing);
        WriteOutEnds(n, writing);
        if w.end != Fatal {
          var used := |reading| - |later|;
          CopyingEnds(s[n..], later, writing[w.calls..]);
          CallsMade(reading, used, c.readsMade - used, Failed);
          CallsMade(writing, w.calls, c.writesMade - w.calls, Failed);
          CallsMade(writing, w.calls, c.writesMade - w.calls, AtMost(0));
        }
      }
    }
  }

  lemma FirstCall(schedule: seq<Call>, all: nat)
    ensures var used := |schedule| - |Later(schedule)|;
            && 0 <= used <= |schedule| && schedule[used..] == Later(schedule)
            && (Failed in schedule[..used] <==> Next(schedule, all) == Failed)
            && (Next(schedule, all) == Interrupted ==> used == 1)
  {
    if schedule != [] {
      assert schedule[..1] == [schedule[0]];
    }
  }

  // How often a call occurs in a schedule.
  function Times(calls: seq<Call>, x: Call): nat {
    if calls == [] then 0 else (if calls[0] == x then 1 else 0) + Times(calls[1..], x)
  }

  lemma {:induction false} TimesConcat(a: seq<Call>, b: seq<Call>, x: Call)
    ensures Times(a + b, x) == Times(a, x) + Times(b, x)
  {
    if a == [] {
      assert a + b == b;
    } else {
      TimesConcat(a[1..], b, x);
      assert (a + b)[1..] == a[1..] + b;
    }
  }

  lemma TimesMade(schedule: seq<Call>, first: nat, later: nat, x: Call)
    requires first + later <= |schedule|
    ensures Times(schedule[..first + later], x) == Times(schedule[..first], x) + Times(schedule[first..][..later], x)
  {
    assert schedule[..first + later] == schedule[..first] + schedule[first..][..later];
    TimesConcat(schedule[..first], schedule[first..][..later], x);
  }

  lemma {:induction false} WriteOutFailure(count: nat, writing: seq<Call>)
    requires count > 0
    ensures var r := WriteOut(count, writing);
            Times(writing[..r.calls], Failed) == if r.end == Fatal then 1 else 0
  {
    if writing != [] {
      var rest := writing[1..];
      if writing[0] == Interrupted {
        WriteOutFailure(count, rest);
      } else if writing[0].AtMost? && 0 < writing[0].n < count {
        WriteOutFailure(count - writing[0].n, rest);
      }
      var r := WriteOut(count, writing);
      assert writing[..r.calls] == [writing[0]] + rest[..r.calls - 1];
      assert writing[..r.calls][1..] == rest[..r.calls - 1];
    }
  }

  // The first call that fails is the last one made.
  lemma {:induction false} StopsAtFailure(s: Bytes, reading: seq<Call>, writing: seq<Call>)
    ensures var c := Copying(s, reading, writing);
            Times(reading[..c.readsMade], Failed) + Times(writing[..c.writesMade], Failed) == if c.ret == 0 then 0 else 1
    decreases |reading|, |s|
  {
    hide WriteOut, ReadSize, Times;
    NoCalls();
    if s != [] {
      var c, call, later := Copying(s, reading, writing), Next(reading, |s|), Later(reading);
      var used := |reading| - |later|;
      FirstCallTimes(reading, |s|);
      if call == Interrupted {
        StopsAtFailure(s, later, writing);
        TimesMade(reading, 1, c.readsMade - 1, Failed);
      } else if call.AtMost? {
        var n := ReadSize(call.n, |s|);
        var w := WriteOut(n, writing);
        WriteOutFailure(n, writing);
        if w.end != Fatal {
          StopsAtFailure(s[n..], later, writing[w.calls..]);
          TimesMade(reading, used, c.readsMade - used, Failed);
          TimesMade(writing, w.calls, c.writesMade - w.calls, Failed);
        }
      }
    }
  }

  lemma NoCalls()
    ensures forall schedule: seq<Call>, x :: Times(schedule[..0], x) == 0
  {
  }

  lemma FirstCallTimes(schedule: seq<Call>, all: nat)
    ensures var used := |schedule| - |Later(schedule)|;
            && 0 <= used <= |schedule| && schedule[used..] == Later(schedule)
            && Times(schedule[..used], Failed) == (if Next(schedule, all) == Failed then 1 else 0)
            && (Next(schedule, all) == Interrupted ==> used == 1)
  {
    if schedule != [] {
      assert schedule[..1] == [schedule[0]];
    }
  }

  // What was written: the source, or a prefix of it when the copy fails, as
  // long as no write returned 0; with such a write, bytes are missing.
  lemma {:induction false} CopyingBytes(s: Bytes, reading: seq<Call>, writing: seq<Call>)
    ensures var c := Copying(s, reading, writing);
            && (!c.zero ==> c.bytes <= s && (c.ret == 0 ==> c.bytes == s))
            && (c.zero ==> |c.bytes| < |s|)
    decreases |reading|, |s|
  {
    hide WriteOut, ReadSize;
    if s != [] {
      var call, later := Next(reading, |s|), Later(reading);
      if call == Interrupted {
        CopyingBytes(s, later, writing);
      } else if call.AtMost? {
        var n := ReadSize(call.n, |s|);
        var w := WriteOut(n, writing);
        WriteOutEnds(n, writing);
        if w.end != Fatal {
          CopyingBytes(s[n..], later, writing[w.calls..]);
          PrefixAfter(s, n, Copying(s[n..], later, writing[w.calls..]).bytes);
        }
      }
    }
  }

  lemma PrefixAfter(s: Bytes, n: nat, b: Bytes)
    requires n <= |s|
    ensures b <= s[n..] ==> s[..n] + b <= s
    ensures b == s[n..] ==> s[..n] + b == s
  {
    assert s == s[..n] + s[n..];
  }

  // Some write made during the copy of s returned 0.
  predicate ZeroWritten(s: Bytes, reading: seq<Call>, writing: seq<Call>) {
    AtMost(0) in writing[..Copying(s, reading, writing).writesMade]
  }

  // For every schedule: a copy fails if and only if a call it made failed; one
  // that does not has written the whole source if and only if no write it made
  // returned 0. Calls that are not in the schedule are not made.
  lemma ExactIffNoZeroWrite(s: Bytes, reading: seq<Call>, writing: seq<Call>)
    ensures var c := Copying(s, reading, writing);
            && (c.ret == -1 <==> Failed in reading[..c.readsMade] || Failed in writing[..c.writesMade])
            && (c.ret != -1 ==> c.ret == 0 && (c.bytes == s <==> !ZeroWritten(s, reading, writing)))
            && (Failed !in reading && Failed !in writing ==> c.ret == 0)
            && (AtMost(0) !in writing ==> !ZeroWritten(s, reading, writing))
  {
    CopyingEnds(s, reading, writing);
    CopyingBytes(s, reading, writing);
  }

  // ---- the file system ----

  class FileSystem {
    var files: map<string, Bytes>

    constructor (files: map<string, Bytes>)
      ensures this.files == files
    {
      this.files := files;
    }
  }

  // What the destination holds before the copy; open creates it empty.
  function Contents(files: map<string, Bytes>, name: string): Bytes {
    if name in files then files[name] else []
  }

  // Writing data at the end of the written prefix w of a file that held d.
  lemma OverlayExtend(w: Bytes, data: Bytes, d: Bytes)
    ensures var v := Overlay(w, d);
            Overlay(w + data, d) == v[..|w|] + data + (if |w| + |data| <= |v| then v[|w| + |data|..] else [])
  {
    var v := Overlay(w, d);
    assert v[..|w|] == w;
    if |w| + |data| <= |d| {
      assert v[|w| + |data|..] == d[|w| + |data|..];
    }
  }

  // write(to_fd, ptr, count) at offset |w| of the destination, which so far
  // holds w over old contents d.
  method WriteAt(fs: FileSystem, des: string, at: nat, data: Bytes,
                 ghost files: map<string, Bytes>, ghost w: Bytes, ghost d: Bytes)
    requires fs.files == files[des := Overlay(w, d)] && at == |w|
    modifies fs
    ensures fs.files == files[des := Overlay(w + data, d)]
  {
    var v := fs.files[des];
    var rest := if at + |data| <= |v| then v[at + |data|..] else [];
    OverlayExtend(w, data, d);
    hide Overlay;
    fs.files := fs.files[des := v[..at] + data + rest];
  }

  // One step of the inner loop, as seen in its specification.
  lemma WriteOutStep(count: nat, writing: seq<Call>)
    requires count > 0
    ensures var r, later := WriteOut(count, writing), Later(writing);
            var used := |writing| - |later|;
            match Next(writing, count)
            case Failed => r == Chunked(0, Fatal, used)
            case Interrupted => used == 1 && Continues(r, 0, 1, WriteOut(count, later))
            case AtMost(k) =>
              if k == 0 then r == Chunked(0, Zero, used)
              else if k >= count then r == Chunked(count, Full, used)
              else Continues(r, k, used, WriteOut(count - k, later))
  {
  }

  // What one write of at most n of the bytes chunk[offset..] leaves on disk.
  method WritePiece(fs: FileSystem, des: string, at: nat, chunk: Bytes, offset: nat, n: nat,
                    ghost files: map<string, Bytes>, ghost w: Bytes, ghost d: Bytes)
    requires offset + n <= |chunk| && at == |w|
    requires fs.files == files[des := Overlay(w + chunk[..offset], d)]
    modifies fs
    ensures fs.files == files[des := Overlay(w + chunk[..offset + n], d)]
  {
    hide Overlay;
    WriteAt(fs, des, at + offset, chunk[offset..offset + n], files, w + chunk[..offset], d);
    assert w + chunk[..offset] + chunk[offset..offset + n] == w + chunk[..offset + n];
  }

  // The whole run of the inner loop is what came before plus what is to come.
  ghost predicate Continues(whole: Chunked, offset: nat, calls: nat, t: Chunked) {
    whole == Chunked(offset + t.n, t.end, calls + t.calls)
  }

  // The inner loop writes one chunk from file offset `at` on.
  method WriteChunk(fs: FileSystem, des: string, at: nat, chunk: Bytes, writing: seq<Call>,
                    ghost files: map<string, Bytes>, ghost w: Bytes, ghost d: Bytes)
      returns (bytesWrite: int, calls: nat, offset: nat)
    requires fs.files == files[des := Overlay(w, d)] && at == |w| && chunk != []
    modifies fs
    ensures var r := WriteOut(|chunk|, writing);
            && offset == r.n && calls == r.calls
            && fs.files == files[des := Overlay(w + chunk[..r.n], d)]
            && (bytesWrite == -1 <==> r.end == Fatal)
            && (bytesWrite == 0 <==> r.end == Zero)
  {
    hide Overlay, WriteOut;
    calls, offset := 0, 0;
    var rest := writing;
    ghost var r := WriteOut(|chunk|, writing);
    assert w + chunk[..0] == w;
    while true
      invariant offset < |chunk| && Continues(r, offset, calls, WriteOut(|chunk| - offset, rest))
      invariant fs.files == files[des := Overlay(w + chunk[..offset], d)]
      decreases |rest|, |chunk| - offset
    {
      var count := |chunk| - offset;
      var call := Next(rest, count);
      WriteOutStep(count, rest);
      calls := calls + |rest| - |Later(rest)|;
      rest := Later(rest);
      if call == Failed {
        return -1, calls, offset;
      }
      if call.AtMost? {
        var n := Min(call.n, count);
        if n == 0 {
          return 0, calls, offset;
        }
        WritePiece(fs, des, at, chunk, offset, n, files, w, d);
        offset := offset + n;
        if n == count {
          return n, calls, offset;
        }
      }
    }
  }

  // The part of the source still to be read is as it was, even if source and
  // destination are the same file.
  lemma SourceUnchanged(files: map<string, Bytes>, src: string, des: string, copied: Bytes, from: nat)
    requires src in files && |copied| <= from <= |files[src]|
    ensures var now := files[des := Overlay(copied, Contents(files, des))];
            |now[src]| == |files[src]| && now[src][from..] == files[src][from..]
  {
  }

  // t is what remains of the copy c after `copied` was written.
  ghost predicate Remaining(c: Copied, copied: Bytes, t: Copied) {
    c.ret == t.ret && c.bytes == copied + t.bytes
  }

  // One turn of the outer loop, as seen in its specification.
  lemma CopyingTurn(s: Bytes, reading: seq<Call>, writing: seq<Call>, copied: Bytes, c: Copied)
    requires s != [] && Remaining(c, copied, Copying(s, reading, writing))
    ensures match Next(reading, |s|)
            case Failed => c.ret == -1 && c.bytes == copied
            case Interrupted => |Later(reading)| < |reading| && Remaining(c, copied, Copying(s, Later(reading), writing))
            case AtMost(k) =>
              var n := ReadSize(k, |s|);
              var w := WriteOut(n, writing);
              if w.end == Fatal then c.ret == -1 && c.bytes == copied + s[..w.n]
              else Remaining(c, copied + s[..w.n], Copying(s[n..], Later(reading), writing[w.calls..]))
  {
    hide WriteOut, ReadSize;
    var call := Next(reading, |s|);
    if call.AtMost? {
      var w := WriteOut(ReadSize(call.n, |s|), writing);
      assert forall b: Bytes :: copied + (s[..w.n] + b) == (copied + s[..w.n]) + b;
    } else if call == Failed {
      assert copied + [] == copied;
    }
  }

  // A read that may return k bytes, and the inner loop on what it returned.
  method CopyChunk(fs: FileSystem, src: string, des: string, bytesIn: nat, bytesOut: nat, k: nat, writing: seq<Call>,
                   ghost files: map<string, Bytes>, ghost copied: Bytes)
      returns (bytesWrite: int, n: nat, calls: nat, offset: nat)
    requires src in files && bytesOut == |copied| <= bytesIn < |files[src]|
    requires fs.files == files[des := Overlay(copied, Contents(files, des))]
    modifies fs
    ensures n == ReadSize(k, |files[src]| - bytesIn)
    ensures var w := WriteOut(n, writing);
            && offset == w.n && calls == w.calls
            && fs.files == files[des := Overlay(copied + files[src][bytesIn..][..w.n], Contents(files, des))]
            && (bytesWrite == -1 <==> w.end == Fatal)
  {
    SourceUnchanged(files, src, des, copied, bytesIn);
    hide Overlay, WriteOut, Contents, ReadSize;
    n := ReadSize(k, |fs.files[src]| - bytesIn);
    var buffer := fs.files[src][bytesIn..][..n];
    bytesWrite, calls, offset := WriteChunk(fs, des, bytesOut, buffer, writing, files, copied, Contents(files, des));
    assert buffer[..offset] == files[src][bytesIn..][..offset];
  }

  // The outer loop, both files being open.
  method CopyLoop(fs: FileSystem, src: string, des: string, reading: seq<Call>, writing: seq<Call>,
                  ghost files: map<string, Bytes>)
      returns (ret: int)
    requires src in files && fs.files == files[des := Contents(files, des)]
    modifies fs
    ensures var c := Copying(files[src], reading, writing);
            ret == c.ret && fs.files == files[des := Overlay(c.bytes, Contents(files, des))]
  {
    ghost var s, c, copied: Bytes := files[src], Copying(files[src], reading, writing), [];
    OverlayNothing(Contents(files, des));
    CopyingStarts(c);
    hide Overlay, WriteOut, Copying, Contents, ReadSize, Next, Remaining;
    var bytesIn: nat, bytesOut: nat, ins, outs := 0, 0, reading, writing;
    ghost var rest := s;
    while true
      invariant bytesOut == |copied| <= bytesIn <= |s| && rest == s[bytesIn..]
      invariant Remaining(c, copied, Copying(rest, ins, outs))
      invariant fs.files == files[des := Overlay(copied, Contents(files, des))]
      decreases |ins|, |rest|
    {
      SourceUnchanged(files, src, des, copied, bytesIn);
      var left := |fs.files[src]| - bytesIn;
      if left == 0 {
        CopyingFinished(c, copied, ins, outs);
        return 0;
      }
      CopyingTurn(rest, ins, outs, copied, c);
      var call := Next(ins, left);
      ins := Later(ins);
      if call == Failed {
        return -1;
      }
      if call.AtMost? {
        var bytesWrite, n, calls, offset := CopyChunk(fs, src, des, bytesIn, bytesOut, call.n, outs, files, copied);
        copied := copied + rest[..offset];
        if bytesWrite == -1 {
          return -1;
        }
        outs := outs[calls..];
        bytesOut := bytesOut + offset;
        bytesIn := bytesIn + n;
        rest := rest[n..];
      }
    }
  }

  lemma CopyingStarts(c: Copied)
    ensures Remaining(c, [], c)
  {
    assert [] + c.bytes == c.bytes;
  }

  lemma CopyingFinished(c: Copied, copied: Bytes, reading: seq<Call>, writing: seq<Call>)
    requires Remaining(c, copied, Copying([], reading, writing))
    ensures c.ret == 0 && c.bytes == copied
  {
  }

  lemma OverlayNothing(d: Bytes)
    ensures Overlay([], d) == d
  {
  }

  // file_helper_copy; opens tells whether the destination can be opened. The
  // destination is not truncated, so old bytes past the copy stay.
  method Copy(fs: FileSystem, src: string, des: string, opens: bool, reading: seq<Call>, writing: seq<Call>)
      returns (ret: int)
    modifies fs
    ensures src !in old(fs.files) || !opens ==> ret == -1 && fs.files == old(fs.files)
    ensures src in old(fs.files) && opens ==>
              var c, d := Copying(old(fs.files)[src], reading, writing), Contents(old(fs.files), des);
              && ret == c.ret && fs.files == old(fs.files)[des := Overlay(c.bytes, d)]
              && (ret == 0 && AtMost(0) !in writing ==> fs.files == old(fs.files)[des := Overlay(old(fs.files)[src], d)])
              && (Failed !in reading && Failed !in writing ==> ret == 0)
  {
    hide Copying;
    if src !in fs.files {
      return -1;
    }
    if !opens {
      return -1;
    }
    ghost var files := fs.files;
    if des !in fs.files {
      fs.files := fs.files[des := []];
    }
    assert fs.files == files[des := Contents(files, des)];
    ret := CopyLoop(fs, src, des, reading, writing, files);
    ExactIffNoZeroWrite(files[src], reading, writing);
  }

  // The result and the files after file_helper_move. renames and unlinks tell
  // whether those calls succeed; rename moves the whole file at once.
  function Moved(files: map<string, Bytes>, src: string, des: string,
                 renames: bool, unlinks: bool, opens: bool, reading: seq<Call>, writing: seq<Call>)
      : (int, map<string, Bytes>)
  {
    if src !in files then (-1, files)
    else if renames then (0, if src == des then files else (files - {src})[des := files[src]])
    else if !opens then (-1, files)
    else
      var c := Copying(files[src], reading, writing);
      var copy := files[des := Overlay(c.bytes, Contents(files, des))];
      (c.ret, if c.ret == 0 && unlinks then copy - {src} else copy)
  }

  method Move(fs: FileSystem, src: string, des: string, renames: bool, unlinks: bool, opens: bool,
              reading: seq<Call>, writing: seq<Call>)
      returns (ret: int)
    modifies fs
    ensures (ret, fs.files) == Moved(old(fs.files), src, des, renames, unlinks, opens, reading, writing)
    ensures ret == 0 && src != des ==> src in old(fs.files) && (src !in fs.files <==> renames || unlinks)
    ensures ret == 0 && src != des ==>
              && des in fs.files
              && var s, d := old(fs.files)[src], Contents(old(fs.files), des);
              && (renames ==> fs.files[des] == s)
              && (!renames && AtMost(0) !in writing ==> fs.files[des] == s + if |s| <= |d| then d[|s|..] else [])
    ensures ret == 0 <==> src in old(fs.files) && (renames || (opens && Copying(old(fs.files)[src], reading, writing).ret == 0))
    ensures src in old(fs.files) && src != des && AtMost(0) !in writing ==>
              Survives(fs.files, src, des, old(fs.files)[src])
  {
    if src in fs.files {
      CopyLeaves(fs.files, src, des, reading, writing);
      if src != des && AtMost(0) !in writing {
        ExactIffNoZeroWrite(fs.files[src], reading, writing);
        MoveKeepsContent(fs.files, src, des, renames, unlinks, opens, reading, writing);
      }
    }
    hide Copying, Overlay, Contents;
    if renames && src in fs.files {
      if src != des {
        var content := fs.files[src];
        fs.files := (fs.files - {src})[des := content];
      }
      return 0;
    }
    ret := Copy(fs, src, des, opens, reading, writing);
    if ret == 0 {
      if unlinks {
        fs.files := fs.files - {src};
      }
    }
  }

  // What a copy without an error or a zero write leaves at the destination.
  lemma CopyLeaves(files: map<string, Bytes>, src: string, des: string, reading: seq<Call>, writing: seq<Call>)
    requires src in files
    ensures var s, d := files[src], Contents(files, des);
            var c := Copying(s, reading, writing);
            && (c.ret == 0 && AtMost(0) !in writing ==>
                  Overlay(c.bytes, d) == s + if |s| <= |d| then d[|s|..] else [])
            && c.ret in {0, -1}
  {
    CopyingEnds(files[src], reading, writing);
    ExactIffNoZeroWrite(files[src], reading, writing);
  }

  // The content is still on disk: in the source, or at the start of the
  // destination.
  ghost predicate Survives(files: map<string, Bytes>, src: string, des: string, s: Bytes) {
    (src in files && files[src] == s) || (des in files && s <= files[des])
  }

  // The source is removed after a copy with the result 0.
  predicate Removes(s: Bytes, renames: bool, unlinks: bool, opens: bool, reading: seq<Call>, writing: seq<Call>) {
    !renames && unlinks && opens && Copying(s, reading, writing).ret == 0
  }

  // The destination, which held d, starts with all of s once w was written.
  predicate Completes(s: Bytes, w: Bytes, d: Bytes) {
    w <= s && (w == s || (|s| <= |d| && d[|w|..|s|] == s[|w|..]))
  }

  lemma OverlayCompletes(s: Bytes, w: Bytes, d: Bytes)
    requires |w| <= |s|
    ensures s <= Overlay(w, d) <==> Completes(s, w, d)
    ensures |w| < |s| && |d| < |s| ==> !Completes(s, w, d)
    ensures w == s ==> Completes(s, w, d)
  {
    var v := Overlay(w, d);
    if s <= v {
      assert w == v[..|w|] == s[..|w|];
      if |w| < |s| {
        assert d[|w|..|s|] == v[|w|..|s|] == s[|w|..];
      }
    }
    if w <= s && |w| < |s| <= |d| && d[|w|..|s|] == s[|w|..] {
      assert v[..|s|] == w + d[|w|..|s|] == s;
    }
  }

  // The files a copy to another name leaves, with and without the source.
  lemma AfterCopy(files: map<string, Bytes>, src: string, des: string, copy: Bytes)
    requires src in files
    ensures var s, after := files[src], files[des := copy];
            && (src != des ==> Survives(after, src, des, s))
            && (src != des ==> (Survives(after - {src}, src, des, s) <==> s <= copy))
            && (src == des ==> !Survives(after - {src}, src, des, s))
            && (src == des && s <= copy ==> Survives(after, src, des, s))
  {
  }

  // Where the content goes, for every schedule: it survives a move to another
  // name unless the source is removed although a write returned 0. Then it is
  // gone, if the destination was shorter; if it was not, exactly unless what was
  // written and the bytes left over happen to make up the source. A file copied
  // onto itself and removed is gone.
  lemma MoveKeepsContent(files: map<string, Bytes>, src: string, des: string, renames: bool, unlinks: bool,
                         opens: bool, reading: seq<Call>, writing: seq<Call>)
    requires src in files
    ensures var s := files[src];
            var after := Moved(files, src, des, renames, unlinks, opens, reading, writing).1;
            var removed, zero := Removes(s, renames, unlinks, opens, reading, writing), ZeroWritten(s, reading, writing);
            && (src != des && !(removed && zero) ==> Survives(after, src, des, s))
            && (src != des && |Contents(files, des)| < |s| ==> (Survives(after, src, des, s) <==> !(removed && zero)))
            && (src != des && removed ==>
                  (Survives(after, src, des, s) <==>
                     Completes(s, Copying(s, reading, writing).bytes, Contents(files, des))))
            && (src == des && removed ==> !Survives(after, src, des, s))
            && (src == des && !removed && (renames || !opens || !zero) ==> Survives(after, src, des, s))
  {
    var s, d := files[src], Contents(files, des);
    var w := Copying(s, reading, writing).bytes;
    if renames || !opens {
      MoveWithoutCopy(files, src, des, renames, unlinks, opens, reading, writing);
    } else {
      CopyingBytes(s, reading, writing);
      CopyingEnds(s, reading, writing);
      OverlayCompletes(s, w, d);
      SelfCompletes(s, w);
      hide Copying, Overlay, Completes, Survives;
      AfterCopy(files, src, des, Overlay(w, d));
    }
  }

  // A rename, or a destination that cannot be opened.
  lemma MoveWithoutCopy(files: map<string, Bytes>, src: string, des: string, renames: bool, unlinks: bool,
                        opens: bool, reading: seq<Call>, writing: seq<Call>)
    requires src in files && (renames || !opens)
    ensures Survives(Moved(files, src, des, renames, unlinks, opens, reading, writing).1, src, des, files[src])
    ensures !Removes(files[src], renames, unlinks, opens, reading, writing)
  {
    hide Copying, Overlay;
  }

  lemma SelfCompletes(s: Bytes, w: Bytes)
    ensures w <= s ==> Completes(s, w, s)
  {
  }

  // No other file is touched, a failing move keeps the source, and a move that
  // returns 0 removes it exactly if rename or unlink succeeded; with no zero
  // write the whole content is at the destination.
  lemma MoveResult(files: map<string, Bytes>, src: string, des: string, renames: bool, unlinks: bool,
                   opens: bool, reading: seq<Call>, writing: seq<Call>)
    ensures var (ret, after) := Moved(files, src, des, renames, unlinks, opens, reading, writing);
            && (forall f | f !in {src, des} :: f in after <==> f in files)
            && (forall f | f !in {src, des} && f in after :: after[f] == files[f])
            && (ret != 0 && src != des ==> (src in after <==> src in files) && (src in files ==> after[src] == files[src]))
            && (ret == 0 && src != des ==>
                  src in files && des in after && (src !in after <==> renames || unlinks))
            && (ret == 0 && src != des && AtMost(0) !in writing ==> files[src] <= after[des])
  {
    if src in files {
      CopyingBytes(files[src], reading, writing);
      ExactIffNoZeroWrite(files[src], reading, writing);
    }
    hide Copying;
  }
}
