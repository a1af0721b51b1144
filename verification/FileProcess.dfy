// The receiving thread: it takes messages from the queue, first by the
// expected packet number and otherwise in arrival order, appends their
// payloads to the open file and decides when a file is complete.
module FileProcess {
  import opened Bytes
  import opened Wire
  import opened Segmentation
  import opened MessageQueue

  const TEXT_ROOM := 8192  // bytes of message text in the receive buffer
  const SLASH: Byte := 47
  const DOT: Byte := 46

  // A file handed to the thread pool: where it was saved and what was written.
  datatype Completion = Completion(path: Bytes, data: Bytes)

  // basename() of <libgen.h>.
  function StripSlashes(p: Bytes): (s: Bytes)
    ensures s <= p
    ensures s != [] ==> s[|s| - 1] != SLASH
  {
    if p == [] then [] else if p[|p| - 1] == SLASH then StripSlashes(p[..|p| - 1]) else p
  }

  function AfterLastSlash(p: Bytes): (s: Bytes)
    ensures SLASH !in s
    ensures |s| <= |p| && p[|p| - |s|..] == s
  {
    if p == [] || p[|p| - 1] == SLASH then []
    else AfterLastSlash(p[..|p| - 1]) + [p[|p| - 1]]
  }

  function Basename(p: Bytes): Bytes {
    if p == [] then [DOT]
    else if StripSlashes(p) == [] then [SLASH]
    else AfterLastSlash(StripSlashes(p))
  }

  // dir is "dir1/app_name/" of the receiving process.
  function SavePath(dir: Bytes, name: Bytes): Bytes { dir + Basename(name) }

  lemma AfterPush(p: Bytes, x: Byte)
    requires x != SLASH
    ensures AfterLastSlash(p + [x]) == AfterLastSlash(p) + [x]
  {
    assert (p + [x])[..|p|] == p;
  }

  // A path without a slash at its end is its last component.
  lemma {:induction false} LastOf(front: Bytes, b: Bytes)
    requires SLASH !in b && (front == [] || front[|front| - 1] == SLASH)
    ensures AfterLastSlash(front + b) == b
    decreases |b|
  {
    if b == [] {
      assert front + b == front;
    } else {
      hide AfterLastSlash;
      var older, last := b[..|b| - 1], b[|b| - 1];
      LastByte(front, b);
      LastOf(front, older);
      AfterPush(front + older, last);
    }
  }

  lemma LastByte(front: Bytes, b: Bytes)
    requires b != []
    ensures var older, last := b[..|b| - 1], b[|b| - 1];
            && b == older + [last] && front + b == front + older + [last]
            && (SLASH !in b ==> SLASH !in older && last != SLASH)
  {
  }

  // n slashes.
  function Slashes(n: nat): (s: Bytes)
    ensures |s| == n && forall i | 0 <= i < n :: s[i] == SLASH
  {
    seq(n, _ => SLASH)
  }

  lemma {:induction false} StripsAll(p: Bytes, n: nat)
    requires p == [] || p[|p| - 1] != SLASH
    ensures StripSlashes(p + Slashes(n)) == p
    decreases n
  {
    if n == 0 {
      assert p + Slashes(0) == p;
    } else {
      assert p + Slashes(n) == p + Slashes(n - 1) + [SLASH];
      assert (p + Slashes(n))[..|p| + n - 1] == p + Slashes(n - 1);
      StripsAll(p, n - 1);
    }
  }

  // Under what name a file is saved: its last component, whatever directories
  // come before it and however many slashes after it.
  lemma SavedAs(dir: Bytes, front: Bytes, b: Bytes, n: nat)
    requires b != [] && SLASH !in b && (front == [] || front[|front| - 1] == SLASH)
    ensures SavePath(dir, front + b + Slashes(n)) == dir + b
  {
    assert b[|b| - 1] in b;
    StripsAll(front + b, n);
    LastOf(front, b);
  }

  // Names without a component: the empty one and those of slashes only.
  lemma SavedAsNothing(dir: Bytes, n: nat)
    ensures SavePath(dir, Slashes(n)) == dir + if n == 0 then [DOT] else [SLASH]
  {
    StripsAll([], n);
    assert [] + Slashes(n) == Slashes(n);
  }

  // Every name is of one of these forms.
  lemma {:induction false} Components(p: Bytes) returns (front: Bytes, b: Bytes, n: nat)
    ensures p == front + b + Slashes(n) && SLASH !in b
    ensures front == [] || front[|front| - 1] == SLASH
    ensures b == [] ==> front == []
    decreases |p|
  {
    if p == [] {
      front, b, n := [], [], 0;
    } else {
      var older, last := p[..|p| - 1], p[|p| - 1];
      assert p == older + [last];
      front, b, n := Components(older);
      if last == SLASH {
        assert front + b + Slashes(n) + [SLASH] == front + b + Slashes(n + 1);
        n := n + 1;
      } else {
        assert older + [last] == (front + b + Slashes(n)) + [last];
        if n == 0 {
          assert front + b + Slashes(0) + [last] == front + (b + [last]) + Slashes(0);
          b := b + [last];
        } else {
          assert front + b + Slashes(n) + [last] == (front + b + Slashes(n)) + [last] + Slashes(0);
          front, b, n := front + b + Slashes(n), [last], 0;
        }
      }
    }
  }

  // Two files get the same path exactly when their last components are equal.
  lemma SamePathIff(dir: Bytes, f: Bytes, b: Bytes, m: nat, g: Bytes, c: Bytes, n: nat)
    requires b != [] && SLASH !in b && (f == [] || f[|f| - 1] == SLASH)
    requires c != [] && SLASH !in c && (g == [] || g[|g| - 1] == SLASH)
    ensures SavePath(dir, f + b + Slashes(m)) == SavePath(dir, g + c + Slashes(n)) <==> b == c
  {
    SavedAs(dir, f, b, m);
    SavedAs(dir, g, c, n);
    assert (dir + b)[|dir|..] == b && (dir + c)[|dir|..] == c;
  }

  function Zeros(): (z: Bytes)
    ensures |z| == TEXT_ROOM
  {
    seq(TEXT_ROOM, _ => 0)
  }

  // The local state of File_Process. path, nameLength and content belong to
  // the open file and keep stale values between files.
  datatype Receiver = Receiver(
    dir: Bytes,
    saved: int,       // pack_saved
    move: int,        // pack_move
    total: int,       // pack_total
    nameLength: int,
    path: Bytes,      // save_path
    content: Bytes,   // written through fp since it was opened
    buff: Bytes,
    done: seq<Completion>)

  // The statements after the label again.
  function Again(r: Receiver): Receiver {
    r.(saved := 0, move := 1, total := 10, buff := Zeros())
  }

  // A new file is opened: header fields are read from the buffer v.
  function Open(r: Receiver, v: Bytes): Receiver {
    r.(saved := 0,
       total := PackTotal(SizeOf(v)),
       nameLength := NameLengthOf(v),
       path := SavePath(r.dir, NameOf(v)),
       content := [])
  }

  // The checks after a write: all packets counted, or the last number seen.
  function Check(w: Receiver): Receiver {
    if w.total == w.saved then Again(w.(done := w.done + [Completion(w.path, w.content)]))
    else if w.total == w.move - 1 then Again(w)
    else w
  }

  // Message m is loaded; the first one of a file opens it.
  function Begin(r: Receiver, m: Message): Receiver {
    var t := r.(buff := Overlay(m.mtext, r.buff), move := m.mtype + 1);
    if t.saved == 0 || t.move == 2 then Open(t, t.buff) else t
  }

  // Its payload is appended, read with the name length of the open file.
  function Append(r: Receiver): Receiver {
    r.(saved := r.saved + 1, content := r.content + PayloadAt(r.buff, r.nameLength))
  }

  // The loop body once message m has been taken, whichever msgrcv took it.
  function Accept(r: Receiver, m: Message): Receiver {
    Check(Append(Begin(r, m)))
  }

  class Process {
    const dir: Bytes
    const buff: array<Byte>
    var packSaved: int
    var packMove: int
    var packTotal: int
    var fileNameLength: int
    var savePath: Bytes
    var written: Bytes
    var completed: seq<Completion>  // jobs given to threadpool_add_job

    ghost predicate Valid()
      reads this
    {
      buff.Length == TEXT_ROOM && packMove >= 1
    }

    ghost function State(): Receiver
      reads this, buff
    {
      Receiver(dir, packSaved, packMove, packTotal, fileNameLength, savePath, written, buff[..], completed)
    }

    constructor (dir: Bytes)
      ensures Valid() && fresh(buff) && this.dir == dir
      ensures State() == Again(State()) && completed == []
    {
      this.dir := dir;
      buff := new Byte[TEXT_ROOM](_ => 0);
      packSaved, packMove, packTotal := 0, 1, 10;
      fileNameLength, savePath, written, completed := 0, [], [], [];
      new;
      assert buff[..] == Zeros();
    }

    method Restart()
      requires Valid()
      modifies this, buff
      ensures Valid() && State() == Again(old(State()))
      ensures packSaved == 0 && packMove == 1 && packTotal == 10 && forall i | 0 <= i < buff.Length :: buff[i] == 0
    {
      packSaved, packMove, packTotal := 0, 1, 10;
      forall i | 0 <= i < buff.Length {
        buff[i] := 0;
      }
      assert buff[..] == Zeros();
    }

    // msgrcv's copy of the message text to the start of the buffer.
    method Load(m: Message)
      requires Valid() && |m.mtext| <= TEXT_ROOM
      modifies buff
      ensures buff[..] == Overlay(m.mtext, old(buff[..]))
    {
      forall i | 0 <= i < |m.mtext| {
        buff[i] := m.mtext[i];
      }
      assert buff[..] == m.mtext + old(buff[..])[|m.mtext|..];
    }

    // The header is read and the file opened for writing from its start.
    method OpenFile()
      requires Valid()
      modifies this
      requires packSaved == 0 || packMove == 2
      ensures Valid() && State() == Open(old(State()), old(buff[..]))
    {
      if packMove == 2 && packSaved != 0 {
        packSaved := 0;
      }
      var v := buff[..];
      packTotal := PackTotal(SizeOf(v));
      fileNameLength := NameLengthOf(v);
      savePath := SavePath(dir, NameOf(v));
      written := [];
    }

    method CheckSize()
      requires Valid()
      modifies this, buff
      ensures Valid() && State() == Check(old(State()))
    {
      if packTotal == packSaved {
        completed := completed + [Completion(savePath, written)];
        Restart();
      } else if packTotal == packMove - 1 {
        Restart();
      }
    }

    method BeginMessage(m: Message)
      requires Valid() && |m.mtext| <= TEXT_ROOM && m.mtype >= 1
      modifies this, buff
      ensures Valid() && State() == Begin(old(State()), m)
    {
      Load(m);
      packMove := m.mtype;
      packMove := packMove + 1;
      if packSaved == 0 || packMove == 2 {
        OpenFile();
      }
    }

    method WritePayload()
      requires Valid()
      modifies this
      ensures Valid() && State() == Append(old(State()))
    {
      written := written + PayloadAt(buff[..], fileNameLength);
      packSaved := packSaved + 1;
    }

    method Handle(m: Message)
      requires Valid() && |m.mtext| <= TEXT_ROOM && m.mtype >= 1
      modifies this, buff
      ensures Valid() && State() == Accept(old(State()), m)
    {
      BeginMessage(m);
      WritePayload();
      CheckSize();
    }

    // The first msgrcv of a turn: the expected number, without waiting.
    method TryExpected(q: Queue) returns (got: bool)
      requires Valid()
      requires forall m | m in q.messages :: |m.mtext| <= TEXT_ROOM && m.mtype >= 1
      modifies this, buff, q
      ensures Valid()
      ensures var i := Find(old(q.messages), old(packMove));
              && got == (i < |old(q.messages)|)
              && (got ==> State() == Accept(old(State()), old(q.messages)[i])
                          && q.messages == Without(old(q.messages), i))
      ensures !got ==> State() == old(State()) && q.messages == old(q.messages)
    {
      var m;
      got, m := q.TakeType(packMove);
      if got {
        Handle(m);
      }
    }

    // The second msgrcv, reached when the first found nothing.
    method TakeAny(q: Queue)
      requires Valid() && q.messages != []
      requires forall m | m in q.messages :: |m.mtext| <= TEXT_ROOM && m.mtype >= 1
      modifies this, buff, q
      ensures Valid()
      ensures State() == Accept(old(State()), old(q.messages)[0])
      ensures q.messages == old(q.messages)[1..]
    {
      var m := q.TakeHead();
      Handle(m);
    }
  }
}
