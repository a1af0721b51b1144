// The queue of files an application still has to send: a doubly linked list,
// appended at `in` by the command handler and taken at `out` by the sending
// thread. per points to the next newer entry; next points to the next older
// one and dangles once that entry was taken, so nothing here relies on it.
module SendList {
  import opened Wrappers

  const S_IDLE := 0
  const S_BUSY := 1
  const E_OK := 0
  const E_FULL := 3
  const MAX_FILE := 20

  datatype Item = Item(filename: string, delect: bool)

  // The list as its users see it, oldest entry first.
  datatype List = List(items: seq<Item>, stat: int, max: int)

  function Append(l: List, x: Item): (r: (List, int)) {
    if |l.items| >= l.max then (l, E_FULL)
    else (l.(items := l.items + [x], stat := if l.stat == S_IDLE then S_BUSY else l.stat), E_OK)
  }

  function GetNext(l: List): (r: (List, Option<Item>)) {
    if l.items == [] then (l.(stat := S_IDLE), None)
    else (l.(items := l.items[1..], stat := if |l.items| == 1 then S_IDLE else l.stat), Some(l.items[0]))
  }

  // The state flag says whether there is anything to send.
  predicate Consistent(l: List) {
    && (l.stat == S_BUSY || l.stat == S_IDLE)
    && (l.stat == S_BUSY <==> l.items != [])
    && (l.items == [] || |l.items| <= l.max)
  }

  // A list takes a file exactly while there is room, and takes it last.
  lemma AppendAnswers(l: List, x: Item)
    ensures var (t, code) := Append(l, x);
            && (code == E_OK <==> |l.items| < l.max)
            && (code == E_OK ==> t.items == l.items + [x] && t.max == l.max)
            && (code != E_OK ==> code == E_FULL && t == l)
  {
  }

  // The oldest entry is handed out, if there is one.
  lemma GetNextAnswers(l: List)
    ensures var (t, data) := GetNext(l);
            && (data == None <==> l.items == [])
            && (data.Some? ==> l.items == [data.value] + t.items)
            && (data == None ==> t.items == [])
            && t.max == l.max
  {
    if l.items != [] {
      assert l.items == [l.items[0]] + l.items[1..];
    }
  }

  lemma AppendConsistent(l: List, x: Item)
    requires Consistent(l)
    ensures Consistent(Append(l, x).0)
  {
  }

  lemma GetNextConsistent(l: List)
    requires Consistent(l)
    ensures Consistent(GetNext(l).0)
  {
  }

  class SendData {
    const item: Item
    ghost const owner: SendList  // the list it was appended to
    var per: SendData?
    var next: SendData?

    constructor (item: Item, ghost owner: SendList)
      ensures this.item == item && this.owner == owner && per == null && next == null
    {
      this.item := item;
      this.owner := owner;
      per, next := null, null;
    }
  }

  // The entries, each pointing to the next newer one.
  ghost predicate Linked(oldest: SendData?, newest: SendData?, nodes: seq<SendData>)
    reads nodes`per
  {
    && (forall i, j | 0 <= i < j < |nodes| :: nodes[i] != nodes[j])
    && (forall i | 0 <= i < |nodes| - 1 :: nodes[i].per == nodes[i + 1])
    && (if nodes == [] then oldest == null && newest == null
        else oldest == nodes[0] && newest == nodes[|nodes| - 1] && newest.per == null)
  }

  class SendList {
    var stat: int
    var newest: SendData?   // in
    var oldest: SendData?   // out
    var listCount: int
    var maxCount: int
    ghost var nodes: seq<SendData>

    // The per chain from `out` visits listCount distinct entries and ends at `in`.
    ghost predicate Valid()
      reads this, nodes`per
    {
      && listCount == |nodes|
      && (forall n | n in nodes :: n.owner == this)
      && Linked(oldest, newest, nodes)
      && Consistent(State())
    }

    lemma Owned()
      requires Valid()
      ensures forall n | n in nodes :: n.owner == this
      ensures newest != null ==> newest in nodes
      ensures oldest == null <==> nodes == []
    {
    }

    static ghost function Items(nodes: seq<SendData>): (items: seq<Item>)
      ensures |items| == |nodes| && forall i | 0 <= i < |nodes| :: items[i] == nodes[i].item
    {
      seq(|nodes|, i requires 0 <= i < |nodes| => nodes[i].item)
    }

    ghost function State(): List
      reads this
    {
      List(Items(nodes), stat, maxCount)
    }

    constructor ()
      ensures Valid() && State() == List([], S_IDLE, 20) && nodes == []
    {
      stat := S_IDLE;
      newest, oldest := null, null;
      listCount := 0;
      maxCount := MAX_FILE;
      nodes := [];
    }

    // The registration command overwrites the capacity of a new list.
    method SetMax(max: int)
      requires Valid() && nodes == []
      modifies this`maxCount
      ensures Valid() && State() == old(State()).(max := max)
    {
      maxCount := max;
    }

    // The pointers of append_file.
    method Link(newData: SendData)
      requires Linked(oldest, newest, nodes) && newData !in nodes && newData.per == null
      modifies this`oldest, this`newest, this`nodes, newData, newest
      ensures Linked(oldest, newest, nodes) && nodes == old(nodes) + [newData]
    {
      if newest == null && oldest == null {
        newData.next := null;
        oldest := newData;
        newest := newData;
      } else {
        newData.next := newest;
        newest.per := newData;
        newest := newData;
      }
      nodes := nodes + [newData];
    }

    method AppendFile(filename: string, delect: bool) returns (code: int)
      requires Valid()
      modifies this, newest
      ensures Valid()
      ensures (State(), code) == Append(old(State()), Item(filename, delect))
      ensures code == E_OK <==> old(listCount) < maxCount
      ensures State().items == old(State().items) + if code == E_OK then [Item(filename, delect)] else []
    {
      AppendConsistent(State(), Item(filename, delect));
      if listCount >= maxCount {
        return E_FULL;
      }
      hide Consistent, Linked;
      var newData := new SendData(Item(filename, delect), this);
      Link(newData);
      listCount := listCount + 1;
      assert Items(nodes) == Items(old(nodes)) + [Item(filename, delect)];
      if stat == S_IDLE {
        stat := S_BUSY;
      }
      code := E_OK;
    }

    // The pointers of get_next.
    method Unlink() returns (data: SendData)
      requires Linked(oldest, newest, nodes) && nodes != []
      modifies this`oldest, this`newest, this`nodes
      ensures Linked(oldest, newest, nodes) && nodes == old(nodes)[1..] && data == old(nodes)[0]
      ensures oldest == null <==> nodes == []
    {
      data := oldest;
      oldest := oldest.per;
      nodes := nodes[1..];
      assert forall i | 0 <= i < |nodes| :: nodes[i] == old(nodes)[i + 1];
      if oldest == null {
        newest := null;
      }
    }

    method TakeNext() returns (data: SendData?)
      requires Valid()
      modifies this
      ensures Valid()
      ensures (State(), if data == null then None else Some(data.item)) == GetNext(old(State()))
      ensures nodes == if old(nodes) == [] then [] else old(nodes)[1..]
    {
      GetNextConsistent(State());
      Owned();
      if listCount == 0 {
        stat := S_IDLE;
        return null;
      }
      hide Consistent, Linked;
      data := null;
      if oldest != null {
        data := Unlink();
        if oldest == null {
          stat := S_IDLE;
        }
        listCount := listCount - 1;
        assert Items(nodes) == Items(old(nodes))[1..];
      }
    }
  }
}
