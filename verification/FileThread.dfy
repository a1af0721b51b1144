// file_thread, the only consumer of a SendList, interleaved with any number of
// command handlers appending to it.
module FileThread {
  import opened Wrappers
  import opened SendList

  // Where the loop of file_thread is. Fault: get_next returned NULL and
  // data->filename was read. Lost: none of the known states was seen.
  datatype Consumer = Polling | SeenBusy | Fetching | Sending(item: Item) | Fault | Lost

  // What becomes of a file taken from the list: it is empty or cannot be read,
  // SendPack_ex fails, or it is sent.
  datatype Fate = Skipped | Failed | Sent

  datatype Handled = Handled(item: Item, fate: Fate)

  datatype World = World(list: List, consumer: Consumer, appended: seq<Item>, handled: seq<Handled>)

  // Advance carries the fate of the file in hand, for the move that ends it.
  datatype Event = AppendFile(item: Item) | Advance(fate: Fate)

  // The consumer takes the lock for each of its calls: get_stat for the test
  // against S_IDLE, get_stat again for the test against S_BUSY, get_next. A
  // file that is skipped or fails is dropped and the loop goes on.
  function AdvanceConsumer(w: World, fate: Fate): World {
    match w.consumer
    case Polling => if w.list.stat == S_IDLE then w else w.(consumer := SeenBusy)
    case SeenBusy => if w.list.stat == S_BUSY then w.(consumer := Fetching) else w.(consumer := Lost)
    case Fetching =>
      var (l, data) := GetNext(w.list);
      (match data
       case None => w.(list := l, consumer := Fault)
       case Some(x) => w.(list := l, consumer := Sending(x)))
    case Sending(x) => w.(consumer := Polling, handled := w.handled + [Handled(x, fate)])
    case Fault => w
    case Lost => w
  }

  function Step(w: World, e: Event): World {
    match e
    case AppendFile(x) =>
      var (l, code) := Append(w.list, x);
      w.(list := l, appended := if code == E_OK then w.appended + [x] else w.appended)
    case Advance(fate) => AdvanceConsumer(w, fate)
  }

  function Run(w: World, events: seq<Event>): World
    decreases |events|
  {
    if events == [] then w else Run(Step(w, events[0]), events[1..])
  }

  function InHand(c: Consumer): seq<Item> { if c.Sending? then [c.item] else [] }

  function ItemsOf(hs: seq<Handled>): (items: seq<Item>)
    ensures |items| == |hs| && forall i | 0 <= i < |hs| :: items[i] == hs[i].item
  {
    seq(|hs|, i requires 0 <= i < |hs| => hs[i].item)
  }

  // The thread is started on an empty list.
  function Init(max: int): World { World(List([], S_IDLE, max), Polling, [], []) }

  // What was appended is what was handled, what is in hand and what is queued,
  // in that order; a consumer that saw a busy list finds it non-empty.
  predicate Inv(w: World) {
    && Consistent(w.list)
    && w.appended == ItemsOf(w.handled) + InHand(w.consumer) + w.list.items
    && (w.consumer in {SeenBusy, Fetching} ==> w.list.items != [])
    && w.consumer != Fault && w.consumer != Lost
  }

  lemma StepInv(w: World, e: Event)
    requires Inv(w)
    ensures Inv(Step(w, e))
  {
    if e.AppendFile? {
      AppendInv(w, e.item);
    } else {
      AdvanceInv(w, e.fate);
    }
  }

  lemma AppendInv(w: World, x: Item)
    requires Inv(w)
    ensures Inv(Step(w, AppendFile(x)))
  {
    hide ItemsOf, InHand;
    var before := ItemsOf(w.handled) + InHand(w.consumer);
    assert before + w.list.items + [x] == before + (w.list.items + [x]);
  }

  lemma AdvanceInv(w: World, fate: Fate)
    requires Inv(w)
    ensures Inv(Step(w, Advance(fate)))
  {
    hide ItemsOf;
    if w.consumer == Fetching {
      var done, x := ItemsOf(w.handled), w.list.items[0];
      assert w.list.items == [x] + w.list.items[1..];
      assert done + [] + ([x] + w.list.items[1..]) == done + [x] + w.list.items[1..];
    } else if w.consumer.Sending? {
      var x := w.consumer.item;
      assert ItemsOf(w.handled + [Handled(x, fate)]) == ItemsOf(w.handled) + [x];
    }
  }

  lemma {:induction false} RunInv(w: World, events: seq<Event>)
    requires Inv(w)
    ensures Inv(Run(w, events))
    decreases |events|
  {
    hide Inv, Step;
    if events != [] {
      StepInv(w, events[0]);
      RunInv(Step(w, events[0]), events[1..]);
    }
  }

  // In every interleaving the list never exceeds its capacity, files are taken
  // in the order they were added, each accepted one once and whatever becomes of
  // the earlier ones, and the read of data->filename before the null check
  // never meets a null.
  lemma EveryFileInOrder(max: int, events: seq<Event>)
    ensures var v := Run(Init(max), events);
            && Inv(v) && v.consumer != Fault && v.consumer != Lost
            && (v.list.items == [] || |v.list.items| <= v.list.max)
            && v.appended == ItemsOf(v.handled) + InHand(v.consumer) + v.list.items
  {
    hide Run;
    assert Inv(Init(max));
    RunInv(Init(max), events);
  }

  lemma {:induction false} CapacityStays(w: World, events: seq<Event>)
    ensures Run(w, events).list.max == w.list.max
    decreases |events|
  {
    if events != [] {
      CapacityStays(Step(w, events[0]), events[1..]);
    }
  }

  // In every interleaving a file is refused exactly when as many accepted files
  // as the list has places were not taken yet.
  lemma RefusedOnlyWhenFull(max: int, events: seq<Event>, x: Item)
    ensures var v := Run(Init(max), events);
            var waiting := |v.appended| - |v.handled| - |InHand(v.consumer)|;
            var t := Step(v, AppendFile(x));
            && (waiting < max ==> t.appended == v.appended + [x] && t.list.items == v.list.items + [x])
            && (waiting >= max ==> t == v)
  {
    hide Run;
    EveryFileInOrder(max, events);
    CapacityStays(Init(max), events);
  }

  // Four moves of the consumer for each of these files.
  function Serving(fates: seq<Fate>): (es: seq<Event>)
    ensures |es| == 4 * |fates|
  {
    if fates == [] then []
    else [Advance(fates[0]), Advance(fates[0]), Advance(fates[0]), Advance(fates[0])] + Serving(fates[1..])
  }

  function Zip(items: seq<Item>, fates: seq<Fate>): (hs: seq<Handled>)
    requires |items| == |fates|
    ensures |hs| == |items|
  {
    if items == [] then [] else [Handled(items[0], fates[0])] + Zip(items[1..], fates[1..])
  }

  // Whatever is queued is handled, with any fates.
  lemma {:induction false} QueueDrains(w: World, fates: seq<Fate>)
    requires Inv(w) && w.consumer == Polling && |fates| == |w.list.items|
    ensures var v := Run(w, Serving(fates));
            && v.consumer == Polling && v.list.items == [] && v.appended == w.appended
            && v.handled == w.handled + Zip(w.list.items, fates)
    decreases |fates|
  {
    hide Step, Inv;
    if fates != [] {
      FourMoves(w, fates[0]);
      FourSteps(w, fates);
      var v := Step(Step(Step(Step(w, Advance(fates[0])), Advance(fates[0])), Advance(fates[0])), Advance(fates[0]));
      QueueDrains(v, fates[1..]);
    }
  }

  // One file is handled.
  lemma FourMoves(w: World, fate: Fate)
    requires Inv(w) && w.consumer == Polling && w.list.items != []
    ensures var v := Step(Step(Step(Step(w, Advance(fate)), Advance(fate)), Advance(fate)), Advance(fate));
            && Inv(v) && v.consumer == Polling && v.list.items == w.list.items[1..]
            && v.handled == w.handled + [Handled(w.list.items[0], fate)] && v.appended == w.appended
  {
    var w1 := Step(w, Advance(fate));
    var w2 := Step(w1, Advance(fate));
    var w3 := Step(w2, Advance(fate));
    AdvanceInv(w, fate);
    AdvanceInv(w1, fate);
    AdvanceInv(w2, fate);
    AdvanceInv(w3, fate);
    hide ItemsOf;
  }

  lemma FourSteps(w: World, fates: seq<Fate>)
    requires fates != []
    ensures var a := Advance(fates[0]);
            Run(w, Serving(fates)) == Run(Step(Step(Step(Step(w, a), a), a), a), Serving(fates[1..]))
  {
    hide Step;
    var a, es := Advance(fates[0]), Serving(fates);
    var w1 := Step(w, a);
    var w2 := Step(w1, a);
    var w3 := Step(w2, a);
    assert es[0] == es[1..][0] == es[2..][0] == es[3..][0] == a;
    assert es[1..][1..] == es[2..] && es[2..][1..] == es[3..] && es[3..][1..] == Serving(fates[1..]);
    assert Run(w3, es[3..]) == Run(Step(w3, a), Serving(fates[1..]));
    assert Run(w2, es[2..]) == Run(w3, es[3..]);
    assert Run(w1, es[1..]) == Run(w2, es[2..]);
  }
}
