// A backlog in which the packets of each file are queued in any order: the
// typed msgrcv puts them back in order.
module Backlog {
  import opened Bytes
  import opened Wire
  import opened Segmentation
  import opened MessageQueue
  import opened FileProcess
  import opened Sudp
  import opened Transfer

  function Flatten(blocks: seq<seq<Message>>): seq<Message> {
    if blocks == [] then [] else blocks[0] + Flatten(blocks[1..])
  }

  // blocks[i] is some permutation of the packets of files[i].
  predicate Permuted(files: seq<File>, blocks: seq<seq<Message>>) {
    && |blocks| == |files|
    && forall i | 0 <= i < |files| :: multiset(blocks[i]) == multiset(MessagesFrom(files[i], 0))
  }

  function Takes(actions: seq<Action>): nat {
    if actions == [] then 0 else (if actions[0] == TryExpected then 1 else 0) + Takes(actions[1..])
  }

  lemma {:induction false} PacketsOfTail(f: File, k: nat, m: Message)
    requires k <= Count(f) && m in MessagesFrom(f, k)
    ensures k < m.mtype <= Count(f) && m == MessageOf(f, m.mtype - 1)
    decreases Count(f) - k
  {
    hide Encode, Chunk;
    if k < Count(f) && m != MessageOf(f, k) {
      assert m in MessagesFrom(f, k + 1);
      PacketsOfTail(f, k + 1, m);
    }
  }

  lemma WithoutPlus(block: seq<Message>, i: nat)
    requires i < |block|
    ensures multiset(block) == multiset(Without(block, i)) + multiset{block[i]}
  {
    assert block == block[..i] + ([block[i]] + block[i + 1..]);
  }

  lemma HeadPlus(m: Message, others: seq<Message>)
    ensures multiset([m] + others) == multiset(others) + multiset{m}
  {
  }

  lemma RemoveOne(block: seq<Message>, i: nat, others: seq<Message>)
    requires i < |block| && multiset(block) == multiset([block[i]] + others)
    ensures multiset(Without(block, i)) == multiset(others)
  {
    hide Without;
    WithoutPlus(block, i);
    HeadPlus(block[i], others);
    OneLess(multiset(Without(block, i)), multiset(others), block[i]);
  }

  lemma OneLess(a: multiset<Message>, b: multiset<Message>, m: Message)
    requires a + multiset{m} == b + multiset{m}
    ensures a == b
  {
    assert a == (a + multiset{m}) - multiset{m};
    assert b == (b + multiset{m}) - multiset{m};
  }

  lemma SameElements(a: seq<Message>, b: seq<Message>, m: Message)
    requires multiset(a) == multiset(b)
    ensures m in a <==> m in b
  {
    assert m in a <==> m in multiset(a);
    assert m in b <==> m in multiset(b);
  }

  lemma FindInFront(block: seq<Message>, later: seq<Message>, t: int)
    requires exists m | m in block :: m.mtype == t
    ensures var i := Find(block + later, t);
            && i < |block| && block[i].mtype == t && block[i] in block
            && Without(block + later, i) == Without(block, i) + later
  {
    hide Find;
    var j :| 0 <= j < |block| && block[j].mtype == t;
    assert (block + later)[j].mtype == t;
    var i := Find(block + later, t);
    assert (block + later)[i + 1..] == block[i + 1..] + later;
  }

  // Among the packets k.. of f in any order, followed by anything, the first
  // message of type k + 1 is packet k of f, and the others remain.
  lemma ExpectedInBlock(f: File, k: nat, block: seq<Message>, later: seq<Message>)
    requires k < Count(f) && multiset(block) == multiset(MessagesFrom(f, k))
    ensures var i := Find(block + later, k + 1);
            && i < |block| && block[i] == MessageOf(f, k)
            && Without(block + later, i) == Without(block, i) + later
            && multiset(Without(block, i)) == multiset(MessagesFrom(f, k + 1))
  {
    hide Find, Encode, Without;
    var m, i := MessageOf(f, k), Find(block + later, k + 1);
    assert MessagesFrom(f, k) == [m] + MessagesFrom(f, k + 1);
    SameElements(block, MessagesFrom(f, k), m);
    FindInFront(block, later, k + 1);
    SameElements(block, MessagesFrom(f, k), block[i]);
    PacketsOfTail(f, k, block[i]);
    RemoveOne(block, i, MessagesFrom(f, k + 1));
  }

  // files[0] is written up to packet k; the queue holds its other packets and
  // those of the following files, each block in any order, and then tail.
  predicate Backlogged(s: System, files: seq<File>, blocks: seq<seq<Message>>, k: nat, tail: seq<Message>) {
    && AllSendable(files) && |blocks| == |files| && !s.waiting
    && s.queue == Flatten(blocks) + tail
    && if files == [] then Idle(s.r)
       else
         && k < Count(files[0]) && Expects(s.r, files[0], k)
         && multiset(blocks[0]) == multiset(MessagesFrom(files[0], k))
         && Permuted(files[1..], blocks[1..])
  }

  // The queue after the expected packet was taken out of the first block.
  lemma TakeFromBlocks(f: File, k: nat, blocks: seq<seq<Message>>, tail: seq<Message>)
      returns (i: nat, blocks': seq<seq<Message>>)
    requires blocks != [] && k < Count(f) && multiset(blocks[0]) == multiset(MessagesFrom(f, k))
    ensures i == Find(Flatten(blocks) + tail, k + 1) < |Flatten(blocks)|
    ensures (Flatten(blocks) + tail)[i] == MessageOf(f, k)
    ensures Without(Flatten(blocks) + tail, i) == Flatten(blocks') + tail
    ensures |Flatten(blocks')| + 1 == |Flatten(blocks)|
    ensures if k + 1 < Count(f)
            then |blocks'| == |blocks| && blocks'[1..] == blocks[1..]
                 && multiset(blocks'[0]) == multiset(MessagesFrom(f, k + 1))
            else blocks' == blocks[1..]
  {
    hide MessageOf, Find, Without, MessagesFrom, Count;
    var block, rest := blocks[0], Flatten(blocks[1..]);
    i := Find(Flatten(blocks) + tail, k + 1);
    assert Flatten(blocks) + tail == block + (rest + tail);
    ExpectedInBlock(f, k, block, rest + tail);
    var block' := Without(block, i);
    BlockSize(block, k, f);
    BlockSize(block', k + 1, f);
    assert block' + (rest + tail) == (block' + rest) + tail;
    if k + 1 < Count(f) {
      blocks' := [block'] + blocks[1..];
      assert blocks'[1..] == blocks[1..];
    } else {
      blocks' := blocks[1..];
      assert block' + rest == rest;
    }
  }

  lemma TakeBacklogged(s: System, files: seq<File>, blocks: seq<seq<Message>>, k: nat, tail: seq<Message>)
      returns (blocks': seq<seq<Message>>)
    requires Backlogged(s, files, blocks, k, tail) && files != []
    ensures |Flatten(blocks')| + 1 == |Flatten(blocks)|
    ensures var t := Step(s, TryExpected);
            && t.r.dir == s.r.dir
            && if k + 1 < Count(files[0])
               then Backlogged(t, files, blocks', k + 1, tail) && t.r.done == s.r.done
               else Backlogged(t, files[1..], blocks', 0, tail) && t.r.done == s.r.done + [ReportOf(s.r.dir, files[0])]
  {
    hide Accept, MessageOf, Within, ReportOf, Find, Without, MessagesFrom, Flatten, Permuted, Count, Idle;
    var f := files[0];
    assert f in files && forall g | g in files[1..] :: g in files;
    ExpectsMove(s.r, f, k);
    var i;
    i, blocks' := TakeFromBlocks(f, k, blocks, tail);
    InOrderMessage(s.r, f, k);
    if k + 1 == Count(f) {
      PermutedHead(files[1..], blocks');
      if files[1..] != [] {
        assert files[1..][0] in files;
      }
    }
  }

  lemma ExpectsMove(r: Receiver, f: File, k: nat)
    requires k <= Count(f) && Expects(r, f, k)
    ensures r.move == k + 1
  {
  }

  lemma BlockSize(block: seq<Message>, k: nat, f: File)
    requires k <= Count(f) && multiset(block) == multiset(MessagesFrom(f, k))
    ensures |block| == Count(f) - k
  {
    hide MessagesFrom;
    assert |multiset(block)| == |block| && |multiset(MessagesFrom(f, k))| == |MessagesFrom(f, k)|;
  }

  lemma PermutedHead(files: seq<File>, blocks: seq<seq<Message>>)
    requires Permuted(files, blocks)
    ensures |blocks| == |files|
    ensures files != [] ==> multiset(blocks[0]) == multiset(MessagesFrom(files[0], 0)) && Permuted(files[1..], blocks[1..])
  {
    hide MessagesFrom;
  }

  lemma {:induction false} BacklogRun(s: System, files: seq<File>, blocks: seq<seq<Message>>, k: nat,
                                      tail: seq<Message>, actions: seq<Action>)
    requires Backlogged(s, files, blocks, k, tail)
    requires Takes(actions) == |Flatten(blocks)|
    ensures var t := Run(s, actions);
            t.r.done == s.r.done + Reports(s.r.dir, files) && Idle(t.r) && !t.waiting && tail <= t.queue
    decreases |actions|
  {
    hide Backlogged, ReportOf, Accept, Posted, Flatten, Find, Without;
    if actions == [] {
      NoBlocks(s, files, blocks, k, tail);
    } else if actions[0] == TryExpected {
      BacklogNotEmpty(s, files, blocks, k, tail);
      var blocks' := TakeBacklogged(s, files, blocks, k, tail);
      var t := Step(s, TryExpected);
      if k + 1 < Count(files[0]) {
        BacklogRun(t, files, blocks', k + 1, tail, actions[1..]);
      } else {
        BacklogRun(t, files[1..], blocks', 0, tail, actions[1..]);
      }
    } else {
      var t := Step(s, actions[0]);
      var tail' := OtherBacklogged(s, files, blocks, k, tail, actions[0]);
      BacklogRun(t, files, blocks, k, tail', actions[1..]);
    }
  }

  // Arrivals only add to the tail, and TakeAny is not reached.
  lemma OtherBacklogged(s: System, files: seq<File>, blocks: seq<seq<Message>>, k: nat, tail: seq<Message>, a: Action)
      returns (tail': seq<Message>)
    requires Backlogged(s, files, blocks, k, tail) && a != TryExpected
    ensures tail <= tail' && Backlogged(Step(s, a), files, blocks, k, tail') && Step(s, a).r == s.r
  {
    hide Posted, Flatten, Expects, Permuted, MessagesFrom, AllSendable;
    tail' := if a == Arrive && s.wire != [] then tail + Posted(s.rx, s.wire[0]) else tail;
    assert Flatten(blocks) + tail + tail'[|tail|..] == Flatten(blocks) + tail';
  }

  lemma BacklogNotEmpty(s: System, files: seq<File>, blocks: seq<seq<Message>>, k: nat, tail: seq<Message>)
    requires Backlogged(s, files, blocks, k, tail) && Flatten(blocks) != []
    ensures files != []
  {
  }

  lemma NoBlocks(s: System, files: seq<File>, blocks: seq<seq<Message>>, k: nat, tail: seq<Message>)
    requires Backlogged(s, files, blocks, k, tail) && Flatten(blocks) == []
    ensures files == [] && Idle(s.r) && !s.waiting && tail <= s.queue && Reports(s.r.dir, files) == []
  {
    hide MessagesFrom, Expects;
    if files != [] {
      BlockSize(blocks[0], k, files[0]);
    }
  }

  // With the packets of all files queued, each file's in any order, as many
  // receives as there are packets report every file byte for byte, in order,
  // whatever arrives meanwhile.
  lemma BacklogRestoresOrder(start: System, files: seq<File>, blocks: seq<seq<Message>>, tail: seq<Message>,
                             actions: seq<Action>)
    requires AllSendable(files) && Permuted(files, blocks)
    requires start.queue == Flatten(blocks) + tail && Idle(start.r) && !start.waiting
    requires Takes(actions) == |Flatten(blocks)|
    ensures var s := Run(start, actions);
            s.r.done == start.r.done + Reports(start.r.dir, files) && Idle(s.r) && tail <= s.queue
  {
    hide Permuted, Flatten, MessagesFrom, Run, Takes, Reports;
    PermutedHead(files, blocks);
    if files != [] {
      assert files[0] in files;
    }
    BacklogRun(start, files, blocks, 0, tail, actions);
  }
}
