// What the grants of any number of threads leave over, and for how many threads
// that rules out a division by zero in every order of queries and returns.
module SpeedLimits {
  import opened Speed

  // ---- the most k holders can take ----

  // What is left at least after a grant taken at this much idle bandwidth, also
  // when older grants were returned since: a grant is at most a quarter of the
  // maximum, or it left base_speed over half of what was idle.
  function Least(max: int, base: int, idle: int): int {
    var half := (idle + 1) / 2;
    var quarter := idle - max / 2 / 2;
    var most := if half > quarter then half else quarter;
    if most < half + base then most else half + base
  }

  // What k grants leave at least, whatever else was granted and returned.
  function Floor(max: int, base: int, k: nat): int {
    if k == 0 then max else Least(max, base, Floor(max, base, k - 1))
  }

  predicate Floored(max: int, base: int, holds: seq<Hold>) {
    holds == []
    || (var older := holds[..|holds| - 1];
        Floored(max, base, older) && max - Sum(holds) >= Least(max, base, max - Sum(older)))
  }

  lemma PushFloored(max: int, base: int, older: seq<Hold>, h: Hold)
    ensures Floored(max, base, older + [h])
            <==> Floored(max, base, older) && max - Sum(older) - h.grant >= Least(max, base, max - Sum(older))
  {
    hide Least, Halving;
    assert (older + [h])[..|older|] == older;
    PushHalving(max, older, h);
  }

  // Least grows with the idle bandwidth, but no faster than it, and keeps at
  // least half of it.
  lemma LeastSteps(max: int, base: int, i: int, j: int)
    requires Fair(max, base) && 0 <= i <= j <= max
    ensures Least(max, base, i) <= Least(max, base, j) <= Least(max, base, i) + (j - i)
    ensures 2 * Least(max, base, i) >= i
    ensures i >= 1 ==> Least(max, base, i) <= i
  {
  }

  lemma {:induction false} DropKeepsFloored(max: int, base: int, holds: seq<Hold>, i: nat)
    requires Fair(max, base) && i < |holds| && Halving(max, holds) && Floored(max, base, holds)
    ensures Floored(max, base, Dropped(holds, i))
    decreases |holds|
  {
    hide Sum, Halving, Dropped, Fair, Floored, Least;
    var n := |holds| - 1;
    var older, last := holds[..n], holds[n];
    DropSplit(holds, i);
    PushHalving(max, older, last);
    PushFloored(max, base, older, last);
    if i < n {
      DropKeepsFloored(max, base, older, i);
      DropKeepsHalving(max, older, i);
      PushFloored(max, base, Dropped(older, i), last);
      IdleBounds(max, base, older);
      IdleBounds(max, base, Dropped(older, i));
      LeastSteps(max, base, max - Sum(older), max - Sum(Dropped(older, i)));
    }
  }

  lemma IdleBounds(max: int, base: int, holds: seq<Hold>)
    requires Fair(max, base) && Halving(max, holds)
    ensures 0 < max - Sum(holds) <= max
  {
    SumNonNegative(max, holds);
  }

  lemma GrantFloored(max: int, base: int, idle: int)
    requires Fair(max, base) && 1 <= idle <= max
    ensures idle - Grant(max, base, idle) >= Least(max, base, idle)
  {
  }

  lemma StepFloored(a: Allocator, e: Event)
    requires Sound(a) && Floored(a.max, a.base, a.holds)
    ensures var t := Step(a, e);
            t.max == a.max && t.base == a.base && Floored(t.max, t.base, t.holds)
  {
    hide Fair, Grant, Floored, Least, Halving, Sum, Dropped, Holding;
    match e
    case Acquire(s, packT) =>
      GrantFloored(a.max, a.base, a.max - a.current);
      PushFloored(a.max, a.base, a.holds, Hold(s, packT, Grant(a.max, a.base, a.max - a.current)));
    case Release(s) =>
      if Holding(a.holds, s) {
        DropKeepsFloored(a.max, a.base, a.holds, IndexOf(a.holds, s));
      }
  }

  lemma {:induction false} FloorBounds(max: int, base: int, k: nat)
    requires Fair(max, base)
    ensures 1 <= Floor(max, base, k) <= max
    ensures Floor(max, base, k) * Pow2(k) >= max
  {
    hide Least;
    if k > 0 {
      FloorBounds(max, base, k - 1);
      var f := Floor(max, base, k - 1);
      LeastSteps(max, base, f, f);
      HalfLeft(f, Floor(max, base, k), Pow2(k - 1));
    }
  }

  lemma {:induction false} FloorShrinks(max: int, base: int, j: nat, k: nat)
    requires Fair(max, base) && j <= k
    ensures Floor(max, base, k) <= Floor(max, base, j)
    decreases k
  {
    hide Fair, Least;
    if j < k {
      FloorShrinks(max, base, j, k - 1);
      FloorBounds(max, base, k - 1);
      LeastSteps(max, base, Floor(max, base, k - 1), Floor(max, base, k - 1));
    }
  }

  // The lower bound of any k holders.
  lemma {:induction false} HoldersLeave(max: int, base: int, holds: seq<Hold>)
    requires Fair(max, base) && Halving(max, holds) && Floored(max, base, holds)
    ensures max - Sum(holds) >= Floor(max, base, |holds|)
  {
    hide Fair, Least;
    if holds != [] {
      var older := holds[..|holds| - 1];
      HoldersLeave(max, base, older);
      FloorBounds(max, base, |older|);
      IdleBounds(max, base, older);
      LeastSteps(max, base, Floor(max, base, |older|), max - Sum(older));
    }
  }

  // ---- a given number of senders ----

  predicate OnlySenders(events: seq<Event>, n: nat) { forall e | e in events :: e.sender < n }

  predicate Distinct(holds: seq<Hold>) {
    forall i, j | 0 <= i < j < |holds| :: holds[i].sender != holds[j].sender
  }

  function Senders(holds: seq<Hold>): (s: set<nat>) { set h | h in holds :: h.sender }

  lemma {:induction false} CountSenders(holds: seq<Hold>)
    requires Distinct(holds)
    ensures |Senders(holds)| == |holds|
  {
    if holds != [] {
      var older, last := holds[..|holds| - 1], holds[|holds| - 1];
      CountSenders(older);
      assert holds == older + [last];
      assert Senders(holds) == Senders(older) + {last.sender};
      assert last.sender !in Senders(older);
    }
  }

  function Below(n: nat): (s: set<nat>)
    ensures |s| == n && forall i: nat :: i in s <==> i < n
  {
    if n == 0 then {} else Below(n - 1) + {n - 1}
  }

  // Of n senders at most n - 1 hold a grant while another one queries.
  lemma OthersHolding(holds: seq<Hold>, n: nat, sender: nat)
    requires Distinct(holds) && sender < n && !Holding(holds, sender)
    requires forall h | h in holds :: h.sender < n
    ensures |holds| < n
  {
    CountSenders(holds);
    var others := Below(n) - {sender};
    assert Below(n) == others + {sender};
    assert Senders(holds) <= others;
    SubsetSize(Senders(holds), others);
  }

  lemma {:induction false} SubsetSize(s: set<nat>, t: set<nat>)
    requires s <= t
    ensures |s| <= |t|
    decreases |s|
  {
    if s != {} {
      var x :| x in s;
      SubsetSize(s - {x}, t - {x});
    }
  }

  // Only senders 0..n-1 occur, each holding at most one grant.
  predicate Bounded(a: Allocator, n: nat) {
    Distinct(a.holds) && forall h | h in a.holds :: h.sender < n
  }

  lemma DropBounded(holds: seq<Hold>, i: nat)
    requires i < |holds| && Distinct(holds)
    ensures Distinct(Dropped(holds, i))
    ensures forall h | h in Dropped(holds, i) :: h in holds
  {
  }

  lemma StepBounded(a: Allocator, e: Event, n: nat)
    requires Bounded(a, n) && e.sender < n
    ensures Bounded(Step(a, e), n)
  {
    hide Grant, AfterReturn;
    if e.Release? && Holding(a.holds, e.sender) {
      DropBounded(a.holds, IndexOf(a.holds, e.sender));
    }
  }

  // With n sending threads no thread ever divides by zero, whatever the order
  // of queries and returns, if n - 1 grants leave two units.
  lemma {:induction false} NeverDividesByZero(a: Allocator, events: seq<Event>, n: nat)
    requires Sound(a) && Floored(a.max, a.base, a.holds) && !a.crashed && Bounded(a, n)
    requires n >= 1 && Floor(a.max, a.base, n - 1) >= 2
    requires OnlySenders(events, n)
    ensures !Run(a, events).crashed
    decreases |events|
  {
    hide Sound, Bounded, Distinct, Halving, Floored, Floor;
    if events != [] {
      var e := events[0];
      StepSound(a, e);
      StepFloored(a, e);
      StepBounded(a, e, n);
      if e.Acquire? && !Holding(a.holds, e.sender) {
        BoundedOthers(a, n, e.sender);
        QueryAboveFloor(a, n);
      }
      assert forall x | x in events[1..] :: x in events;
      NeverDividesByZero(Step(a, e), events[1..], n);
    }
  }

  lemma QueryAboveFloor(a: Allocator, n: nat)
    requires Sound(a) && Floored(a.max, a.base, a.holds) && |a.holds| < n
    requires Floor(a.max, a.base, n - 1) >= 2
    ensures Grant(a.max, a.base, a.max - a.current) >= 1
  {
    hide Floored, Floor, Halving, Sum;
    HoldersLeave(a.max, a.base, a.holds);
    FloorShrinks(a.max, a.base, |a.holds|, n - 1);
    GrantBounds(a.max, a.base, a.max - a.current);
  }

  // That is so for every maximum above 2^(n-1).
  lemma LargeMaximum(max: int, base: int, n: nat)
    requires Fair(max, base) && n >= 1 && max > Pow2(n - 1)
    ensures Floor(max, base, n - 1) >= 2
  {
    hide Fair, Floor;
    FloorBounds(max, base, n - 1);
    if Floor(max, base, n - 1) <= 1 {
      Scale(Floor(max, base, n - 1), 1, Pow2(n - 1));
    }
  }

  lemma BoundedOthers(a: Allocator, n: nat, sender: nat)
    requires Bounded(a, n) && sender < n && !Holding(a.holds, sender)
    ensures |a.holds| < n
  {
    OthersHolding(a.holds, n, sender);
  }

  // ---- little head room ----

  // x halved k times, rounding up.
  function Halved(x: int, k: nat): int
    decreases k
  {
    if k == 0 then x else Halved((x + 1) / 2, k - 1)
  }

  lemma {:induction false} HalvedOnce(x: int, k: nat)
    ensures Halved(x, k + 1) == (Halved(x, k) + 1) / 2
    decreases k
  {
    if k > 0 {
      HalvedOnce((x + 1) / 2, k - 1);
    }
  }

  lemma {:induction false} HalvedGrows(x: int, y: int, k: nat)
    requires x <= y
    ensures Halved(x, k) <= Halved(y, k)
    decreases k
  {
    if k > 0 {
      HalvedGrows((x + 1) / 2, (y + 1) / 2, k - 1);
    }
  }

  lemma {:induction false} HalvedShrinks(x: int, j: nat, k: nat)
    requires x >= 1 && j <= k
    ensures 1 <= Halved(x, k) <= Halved(x, j)
    decreases k
  {
    if j > 0 {
      HalvedShrinks((x + 1) / 2, j - 1, k - 1);
    } else if k > 0 {
      HalvedShrinks((x + 1) / 2, 0, k - 1);
    }
  }

  // k grants that halve leave at least what k halvings do.
  lemma {:induction false} HoldersHalve(x: int, holds: seq<Hold>)
    requires Halving(x, holds)
    ensures x - Sum(holds) >= Halved(x, |holds|)
  {
    if holds != [] {
      var older := holds[..|holds| - 1];
      HoldersHalve(x, older);
      HalvedOnce(x, |older|);
    }
  }

  lemma TightQuery(a: Allocator, n: nat)
    requires Tight(a) && |a.holds| < n && Halved(a.max - 2 * a.base, n - 1) >= 2
    ensures Grant(a.max, a.base, a.max - a.current) >= 1
  {
    hide Halving, Sum, Halved;
    HoldersHalve(a.max - 2 * a.base, a.holds);
    HalvedShrinks(a.max - 2 * a.base, |a.holds|, n - 1);
  }

  // The same without the head room: what halves is the bandwidth above twice
  // the base.
  lemma {:induction false} TightServes(a: Allocator, events: seq<Event>, n: nat)
    requires Tight(a) && !a.crashed && Bounded(a, n)
    requires n >= 1 && Halved(a.max - 2 * a.base, n - 1) >= 2
    requires OnlySenders(events, n)
    ensures !Run(a, events).crashed
    decreases |events|
  {
    hide Tight, Bounded, Halved;
    if events != [] {
      var e := events[0];
      StepTight(a, e);
      StepBounded(a, e, n);
      if e.Acquire? && !Holding(a.holds, e.sender) {
        BoundedOthers(a, n, e.sender);
        TightQuery(a, n);
      }
      assert forall x | x in events[1..] :: x in events;
      TightServes(Step(a, e), events[1..], n);
    }
  }

  // ---- one sender ----

  lemma {:induction false} OneSenderServed(a: Allocator, events: seq<Event>)
    requires OnlySenders(events, 1) && !a.crashed && Grant(a.max, a.base, a.max) != 0
    requires (a.current == 0 && a.holds == []) || exists p: nat :: AloneWith(a, p)
    ensures !Run(a, events).crashed
    decreases |events|
  {
    hide Grant;
    if events != [] {
      var e := events[0];
      assert e.sender == 0 && forall x | x in events[1..] :: x in events;
      if a.holds == [] {
        if e.Acquire? {
          assert [] + [Hold(0, e.packT, Grant(a.max, a.base, a.max))] == [Hold(0, e.packT, Grant(a.max, a.base, a.max))];
          assert AloneWith(Step(a, e), e.packT);
        }
      } else {
        var p: nat :| AloneWith(a, p);
        assert a.holds[0].sender == 0 && Dropped(a.holds, 0) == [];
        assert e.Acquire? ==> AloneWith(Step(a, e), p);
      }
      OneSenderServed(Step(a, e), events[1..]);
    }
  }

  // Sender 0 holds the only grant.
  predicate AloneWith(a: Allocator, p: nat) {
    var g := Grant(a.max, a.base, a.max);
    a.current == g && a.holds == [Hold(0, p, g)]
  }

  // ---- every sender leaves ----

  // The calls made by one sender.
  function Of(events: seq<Event>, s: nat): seq<Event> {
    if events == [] then []
    else
      var o := Of(events[..|events| - 1], s);
      if events[|events| - 1].sender == s then o + [events[|events| - 1]] else o
  }

  lemma StepHolding(a: Allocator, e: Event, s: nat)
    requires Distinct(a.holds) && !Step(a, e).crashed
    ensures Holding(Step(a, e).holds, s) <==> if e.sender == s then e.Acquire? else Holding(a.holds, s)
  {
    hide Grant, AfterReturn;
    if e.Release? && Holding(a.holds, e.sender) {
      var i := IndexOf(a.holds, e.sender);
      forall h | h in a.holds && h.sender != e.sender
        ensures h in Dropped(a.holds, i)
      {
        var j :| 0 <= j < |a.holds| && a.holds[j] == h;
        assert h == if j < i then Dropped(a.holds, i)[j] else Dropped(a.holds, i)[j - 1];
      }
    } else if e.Acquire? && !Holding(a.holds, e.sender) {
      var h := Hold(e.sender, e.packT, Grant(a.max, a.base, a.max - a.current));
      assert (a.holds + [h])[|a.holds|] == h;
      assert forall x | x in a.holds :: x in a.holds + [h];
    }
  }

  lemma {:induction false} HoldsUnlessLeft(max: int, base: int, events: seq<Event>, s: nat)
    requires !Run(Fresh(max, base), events).crashed
    ensures Holding(Run(Fresh(max, base), events).holds, s) <==> !Leaves(Of(events, s))
    ensures Distinct(Run(Fresh(max, base), events).holds)
  {
    hide Step, Distinct, Holding;
    if events == [] {
      NobodyAtFirst(max, base, s);
    } else {
      var older, e := events[..|events| - 1], events[|events| - 1];
      assert events == older + [e];
      RunAppend(Fresh(max, base), older, e);
      var a := Run(Fresh(max, base), older);
      CrashStays(a, e);
      HoldsUnlessLeft(max, base, older, s);
      StepHolding(a, e, s);
      StepDistinct(a, e);
    }
  }

  lemma NobodyAtFirst(max: int, base: int, s: nat)
    ensures !Holding(Fresh(max, base).holds, s) && Distinct(Fresh(max, base).holds)
  {
  }

  lemma CrashStays(a: Allocator, e: Event)
    ensures a.crashed ==> Step(a, e).crashed
  {
  }

  lemma StepDistinct(a: Allocator, e: Event)
    requires Distinct(a.holds)
    ensures Distinct(Step(a, e).holds)
  {
    hide Grant, AfterReturn;
    if e.Release? && Holding(a.holds, e.sender) {
      DropBounded(a.holds, IndexOf(a.holds, e.sender));
    }
  }

  // Any interleaving of threads whose calls each end with a return: once all
  // have left, no bandwidth is booked.
  lemma EveryoneLeft(max: int, base: int, events: seq<Event>)
    requires base >= 0 && Bookable(max, base) && !Run(Fresh(max, base), events).crashed
    requires forall s: nat :: Leaves(Of(events, s))
    ensures var t := Run(Fresh(max, base), events);
            t.holds == [] && t.current == 0
  {
    hide Run, Steady, Bookable;
    var t := Run(Fresh(max, base), events);
    if t.holds != [] {
      assert Holding(t.holds, t.holds[0].sender);
      HoldsUnlessLeft(max, base, events, t.holds[0].sender);
    }
    BookableStart(max, base);
    RunSteady(Fresh(max, base), events);
    SteadyBalanced(t);
  }
}
