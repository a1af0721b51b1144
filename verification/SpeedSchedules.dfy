// That the limits of SpeedLimits are exact: for each maximum and base speed a
// schedule of any larger number of threads in which one is granted 0.
module SpeedSchedules {
  import opened Speed
  import opened SpeedLimits

  // ---- schedules ----

  function Grants(holds: seq<Hold>): (gs: seq<int>)
    ensures |gs| == |holds| && forall i | 0 <= i < |gs| :: gs[i] == holds[i].grant
  {
    seq(|holds|, i requires 0 <= i < |holds| => holds[i].grant)
  }

  function Total(gs: seq<int>): int {
    if gs == [] then 0 else Total(gs[..|gs| - 1]) + gs[|gs| - 1]
  }

  lemma {:induction false} TotalOfGrants(holds: seq<Hold>)
    ensures Total(Grants(holds)) == Sum(holds)
  {
    if holds != [] {
      var older := holds[..|holds| - 1];
      TotalOfGrants(older);
      assert Grants(holds)[..|older|] == Grants(older);
    }
  }

  lemma {:induction false} TotalConcat(a: seq<int>, b: seq<int>)
    ensures Total(a + b) == Total(a) + Total(b)
  {
    if b == [] {
      assert a + b == a;
    } else {
      TotalConcat(a, b[..|b| - 1]);
      assert (a + b)[..|a + b| - 1] == a + b[..|b| - 1];
    }
  }

  // Some schedule of n senders ends with exactly these grants held, oldest
  // first.
  ghost predicate Reachable(max: int, base: int, n: nat, gs: seq<int>) {
    exists events :: Reaches(max, base, n, gs, events)
  }

  ghost predicate Reaches(max: int, base: int, n: nat, gs: seq<int>, events: seq<Event>) {
    && OnlySenders(events, n)
    && !Run(Fresh(max, base), events).crashed
    && Grants(Run(Fresh(max, base), events).holds) == gs
  }

  // Some schedule of n senders ends in a division by zero.
  ghost predicate CanCrash(max: int, base: int, n: nat) {
    exists events :: OnlySenders(events, n) && Run(Fresh(max, base), events).crashed
  }

  lemma {:induction false} RunBounded(a: Allocator, events: seq<Event>, n: nat)
    requires Bounded(a, n) && OnlySenders(events, n)
    ensures Bounded(Run(a, events), n) && Run(a, events).max == a.max && Run(a, events).base == a.base
    decreases |events|
  {
    hide Bounded;
    if events != [] {
      assert forall x | x in events[1..] :: x in events;
      StepBounded(a, events[0], n);
      RunBounded(Step(a, events[0]), events[1..], n);
    }
  }

  lemma FreeSender(holds: seq<Hold>, n: nat) returns (s: nat)
    requires Distinct(holds) && |holds| < n
    ensures s < n && !Holding(holds, s)
  {
    CountSenders(holds);
    if forall x: nat | x < n :: Holding(holds, x) {
      forall x | x in Below(n)
        ensures x in Senders(holds)
      {
        assert Holding(holds, x);
      }
      SubsetSize(Below(n), Senders(holds));
      assert false;
    }
    s :| s < n && !Holding(holds, s);
  }

  // The state at the end of such a schedule.
  lemma StateOf(max: int, base: int, n: nat, gs: seq<int>) returns (events: seq<Event>)
    requires base >= 0 && Bookable(max, base) && Reachable(max, base, n, gs)
    ensures Reaches(max, base, n, gs, events)
    ensures var t := Run(Fresh(max, base), events);
            && t.max == max && t.base == base && t.current == Total(gs) && |t.holds| == |gs|
            && Steady(t) && Bounded(t, n)
  {
    hide Run, Steady, OnlySenders;
    events :| Reaches(max, base, n, gs, events);
    BookableStart(max, base);
    RunSteady(Fresh(max, base), events);
    RunBounded(Fresh(max, base), events, n);
    SteadyBalanced(Run(Fresh(max, base), events));
    TotalOfGrants(Run(Fresh(max, base), events).holds);
  }

  // One more event by one of the senders.
  lemma Extend(max: int, base: int, n: nat, gs: seq<int>, events: seq<Event>, e: Event, gs': seq<int>)
    requires Reaches(max, base, n, gs, events) && e.sender < n
    ensures var t := Step(Run(Fresh(max, base), events), e);
            && (t.crashed ==> CanCrash(max, base, n))
            && (!t.crashed && Grants(t.holds) == gs' ==> Reachable(max, base, n, gs'))
  {
    hide Step, Run, Fresh, Grants;
    RunAppend(Fresh(max, base), events, e);
    assert OnlySenders(events + [e], n);
    assert !Step(Run(Fresh(max, base), events), e).crashed && Grants(Step(Run(Fresh(max, base), events), e).holds) == gs'
           ==> Reaches(max, base, n, gs', events + [e]);
  }

  lemma AcquireGrants(a: Allocator, s: nat)
    requires !a.crashed && !Holding(a.holds, s)
    ensures var t, g := Step(a, Acquire(s, 200)), Grant(a.max, a.base, a.max - a.current);
            if g == 0 then t.crashed else !t.crashed && Grants(t.holds) == Grants(a.holds) + [g]
  {
    hide Grant, Holding;
    var g := Grant(a.max, a.base, a.max - a.current);
    assert Grants(a.holds + [Hold(s, 200, g)]) == Grants(a.holds) + [g];
  }

  lemma ReleaseGrants(a: Allocator, i: nat)
    requires !a.crashed && Distinct(a.holds) && i < |a.holds|
    ensures var t := Step(a, Release(a.holds[i].sender));
            !t.crashed && Grants(t.holds) == Grants(a.holds)[..i] + Grants(a.holds)[i + 1..]
  {
    hide Holding, IndexOf, Distinct;
    HolderAt(a.holds, i);
    assert Grants(Dropped(a.holds, i)) == Grants(a.holds)[..i] + Grants(a.holds)[i + 1..];
  }

  lemma HolderAt(holds: seq<Hold>, i: nat)
    requires Distinct(holds) && i < |holds|
    ensures Holding(holds, holds[i].sender) && IndexOf(holds, holds[i].sender) == i
  {
    assert holds[i] in holds;
  }

  // A sender that holds nothing queries.
  lemma Query(max: int, base: int, n: nat, gs: seq<int>)
    requires base >= 0 && Bookable(max, base) && Reachable(max, base, n, gs) && |gs| < n
    ensures var g := Grant(max, base, max - Total(gs));
            if g == 0 then CanCrash(max, base, n) else Reachable(max, base, n, gs + [g])
  {
    hide Run, Step, Fresh, Grant, Grants, Holding, Steady, Bookable, Total, CanCrash, Reachable;
    var events := StateOf(max, base, n, gs);
    var t := Run(Fresh(max, base), events);
    var s := FreeSender(t.holds, n);
    AcquireGrants(t, s);
    Extend(max, base, n, gs, events, Acquire(s, 200), gs + [Grant(max, base, max - Total(gs))]);
  }

  // The holder of some grant returns it.
  lemma Return(max: int, base: int, n: nat, pre: seq<int>, g: int, post: seq<int>)
    requires base >= 0 && Bookable(max, base) && Reachable(max, base, n, pre + [g] + post)
    ensures Reachable(max, base, n, pre + post)
  {
    hide Run, Step, Fresh, Grant, Grants, Holding, Steady, Bookable, Total, CanCrash, Reachable;
    var gs := pre + [g] + post;
    var events := StateOf(max, base, n, gs);
    var t := Run(Fresh(max, base), events);
    ReleaseGrants(t, |pre|);
    assert gs[..|pre|] + gs[|pre| + 1..] == pre + post;
    assert t.holds[|pre|] in t.holds;
    Extend(max, base, n, gs, events, Release(t.holds[|pre|].sender), pre + post);
  }

  lemma {:induction false} ReturnAll(max: int, base: int, n: nat, pre: seq<int>, mid: seq<int>, post: seq<int>)
    requires base >= 0 && Bookable(max, base) && Reachable(max, base, n, pre + mid + post)
    ensures Reachable(max, base, n, pre + post)
    decreases |mid|
  {
    hide Reachable, Bookable;
    if mid == [] {
      assert pre + mid + post == pre + post;
    } else {
      assert pre + mid + post == pre + [mid[0]] + (mid[1..] + post);
      Return(max, base, n, pre, mid[0], mid[1..] + post);
      assert pre + (mid[1..] + post) == pre + mid[1..] + post;
      ReturnAll(max, base, n, pre, mid[1..], post);
    }
  }

  // ---- halving chains ----

  // The grants of queries one after the other that each get half of r.
  function Chain(r: nat): seq<int> {
    if r <= 1 then [] else [r / 2] + Chain(r - r / 2)
  }

  lemma ChainStep(pre: seq<int>, r: nat)
    requires r > 1
    ensures pre + Chain(r) == pre + [r / 2] + Chain(r - r / 2)
  {
    assert pre + ([r / 2] + Chain(r - r / 2)) == pre + [r / 2] + Chain(r - r / 2);
  }

  // From off + r idle units down to off + 1 every query gets half of r: there is
  // no base to subtract, or the idle bandwidth stays above half of the maximum.
  predicate Plain(max: int, base: int, off: int, r: int) {
    || (off == 0 && max >= 0 && (base == 0 || r <= max / 2))
    || (off == 2 * base && base >= 0 && max / 2 <= off)
  }

  lemma PlainGrant(max: int, base: int, off: int, r: int)
    requires Plain(max, base, off, r) && r >= 1
    ensures Grant(max, base, off + r) == r / 2
    ensures Plain(max, base, off, r - r / 2)
  {
  }

  lemma {:induction false} ChainTotal(r: nat)
    requires r >= 1
    ensures Total(Chain(r)) == r - 1
  {
    if r > 1 {
      ChainTotal(r - r / 2);
      TotalConcat([r / 2], Chain(r - r / 2));
      assert Total([r / 2]) == r / 2;
    }
  }

  lemma {:induction false} ChainLength(r: nat, k: nat)
    requires Halved(r, k) <= 1
    ensures |Chain(r)| <= k
    decreases k
  {
    if r > 1 {
      ChainLength(r - r / 2, k - 1);
    }
  }

  lemma {:induction false} HalvedPower(r: nat, k: nat)
    requires r <= Pow2(k)
    ensures Halved(r, k) <= 1
    decreases k
  {
    if k > 0 {
      HalvedPower((r + 1) / 2, k - 1);
    }
  }

  lemma {:induction false} ReachChain(max: int, base: int, n: nat, pre: seq<int>, off: int, r: nat)
    requires base >= 0 && Bookable(max, base) && Reachable(max, base, n, pre)
    requires r >= 1 && max - Total(pre) == off + r && Plain(max, base, off, r) && |pre| + |Chain(r)| <= n
    ensures Reachable(max, base, n, pre + Chain(r))
    decreases r
  {
    hide Reachable, Bookable, Plain, Grant;
    if r <= 1 {
      assert pre + Chain(r) == pre;
    } else {
      hide Total;
      PlainGrant(max, base, off, r);
      Query(max, base, n, pre);
      TotalPush(pre, r / 2);
      ReachChain(max, base, n, pre + [r / 2], off, r - r / 2);
      ChainStep(pre, r);
    }
  }

  lemma ChainCrash(max: int, base: int, n: nat, pre: seq<int>, off: int, r: nat)
    requires base >= 0 && Bookable(max, base) && Reachable(max, base, n, pre)
    requires r >= 1 && max - Total(pre) == off + r && Plain(max, base, off, r) && |pre| + |Chain(r)| < n
    ensures CanCrash(max, base, n)
  {
    hide Reachable, Bookable, Grant, CanCrash, Chain;
    ReachChain(max, base, n, pre, off, r);
    ChainTotal(r);
    TotalConcat(pre, Chain(r));
    PlainGrant(max, base, off, 1);
    Query(max, base, n, pre + Chain(r));
  }

  // Members of the chain that add up to t.
  function Pick(r: nat, t: nat): (p: seq<int>)
    ensures |p| <= |Chain(r)|
  {
    if r <= 1 then []
    else if r / 2 <= t then [r / 2] + Pick(r - r / 2, t - r / 2)
    else Pick(r - r / 2, t)
  }

  lemma {:induction false} PickTotal(r: nat, t: nat)
    requires t < r
    ensures Total(Pick(r, t)) == t
    decreases r
  {
    if r > 1 {
      if r / 2 <= t {
        PickTotal(r - r / 2, t - r / 2);
        TotalConcat([r / 2], Pick(r - r / 2, t - r / 2));
        assert Total([r / 2]) == r / 2;
      } else {
        PickTotal(r - r / 2, t);
      }
    }
  }

  lemma PickStep(pre: seq<int>, r: nat, t: nat)
    requires r > 1 && r / 2 <= t
    ensures pre + Pick(r, t) == pre + [r / 2] + Pick(r - r / 2, t - r / 2)
  {
    assert pre + ([r / 2] + Pick(r - r / 2, t - r / 2)) == pre + [r / 2] + Pick(r - r / 2, t - r / 2);
  }

  // The others are returned.
  lemma {:induction false} KeepPick(max: int, base: int, n: nat, pre: seq<int>, r: nat, t: nat)
    requires base >= 0 && Bookable(max, base) && Reachable(max, base, n, pre + Chain(r))
    ensures Reachable(max, base, n, pre + Pick(r, t))
    decreases r
  {
    hide Reachable, Bookable;
    if r > 1 {
      hide Chain;
      var g := r / 2;
      ChainStep(pre, r);
      if g <= t {
        KeepPick(max, base, n, pre + [g], r - g, t - g);
        PickStep(pre, r, t);
      } else {
        Return(max, base, n, pre, g, Chain(r - g));
        KeepPick(max, base, n, pre, r - g, t);
      }
    }
  }

  // ---- the schedule that takes most ----

  // Queries from i idle units until at most half of the maximum is idle.
  function Fill(max: int, base: int, i: int): seq<int>
    requires Fair(max, base)
    decreases i
  {
    if i <= max / 2 then [] else [i / 2 - base] + Fill(max, base, (i + 1) / 2 + base)
  }

  function FillEnd(max: int, base: int, i: int): (e: int)
    requires Fair(max, base)
    ensures e <= max / 2
    decreases i
  {
    if i <= max / 2 then i else FillEnd(max, base, (i + 1) / 2 + base)
  }

  lemma {:induction false} FillEndBounds(max: int, base: int, i: int)
    requires Fair(max, base) && max / 2 <= i
    ensures i > max / 2 ==> FillEnd(max, base, i) >= max / 2 / 2 + 1 + base
    ensures max / 2 == 2 * base + 1 ==> FillEnd(max, base, i) == max / 2
    decreases i
  {
    if i > max / 2 {
      var j := (i + 1) / 2 + base;
      if j > max / 2 || max / 2 == 2 * base + 1 {
        FillEndBounds(max, base, j);
      }
    }
  }

  lemma {:induction false} FillLength(max: int, base: int, i: int, m: nat)
    requires Fair(max, base) && i - max / 2 < Pow2(m)
    ensures |Fill(max, base, i)| <= m
    decreases m
  {
    if i > max / 2 && m > 0 {
      FillLength(max, base, (i + 1) / 2 + base, m - 1);
    }
  }

  lemma {:induction false} ReachFill(max: int, base: int, n: nat, pre: seq<int>, i: int)
    requires Fair(max, base) && Reachable(max, base, n, pre)
    requires i == max - Total(pre) && |pre| + |Fill(max, base, i)| <= n
    ensures Reachable(max, base, n, pre + Fill(max, base, i))
    ensures max - Total(pre + Fill(max, base, i)) == FillEnd(max, base, i)
    decreases i
  {
    hide Reachable, Total;
    if i <= max / 2 {
      assert pre + Fill(max, base, i) == pre;
    } else {
      var g := i / 2 - base;
      assert Grant(max, base, i) == g && Bookable(max, base);
      Query(max, base, n, pre);
      TotalPush(pre, g);
      ReachFill(max, base, n, pre + [g], (i + 1) / 2 + base);
      assert pre + Fill(max, base, i) == pre + [g] + Fill(max, base, (i + 1) / 2 + base);
    }
  }

  lemma TotalOfOne(g: int)
    ensures Total([g]) == g
  {
  }

  lemma TotalPush(gs: seq<int>, g: int)
    ensures Total(gs + [g]) == Total(gs) + g
  {
    assert (gs + [g])[..|gs|] == gs;
  }

  lemma FairFacts(max: int, base: int)
    requires Fair(max, base)
    ensures base >= 0 && max >= 2 && Bookable(max, base)
  {
  }

  lemma LowGrant(max: int, base: int, i: int)
    requires 0 <= i <= max / 2
    ensures Grant(max, base, i) == i / 2
  {
  }

  // A query at exactly half of the maximum, beside grants w that are returned
  // then.
  lemma QuarterBeside(max: int, base: int, n: nat, pre: seq<int>, w: seq<int>)
    requires Fair(max, base) && max / 2 >= 2 && Reachable(max, base, n, pre + w)
    requires max - Total(pre + w) == max / 2 && |pre| + |w| < n
    ensures Reachable(max, base, n, pre + [max / 2 / 2])
  {
    hide Reachable, Total, Grant, Bookable, Fair;
    FairFacts(max, base);
    LowGrant(max, base, max / 2);
    Query(max, base, n, pre + w);
    ReturnAll(max, base, n, pre, w, [max / 2 / 2]);
  }

  // While the grants pre are held, some sender can get a quarter of the maximum
  // although more than half is idle: others first hold the excess t. Queries in
  // a row overshoot by little; one more then holds at least t, and a chain below
  // it has members that add up to t.
  lemma Quarter(max: int, base: int, n: nat, pre: seq<int>, m1: nat, m2: nat)
    requires Fair(max, base) && max / 2 >= 2 && Reachable(max, base, n, pre)
    requires 0 < max - Total(pre) - max / 2 < Pow2(m1) && |pre| + m1 + 1 <= n
    requires max / 2 == 2 * base + 1
             || (2 * (max - Total(pre) - max / 2) <= max / 2 / 2 + 1 + base
                 && max / 2 <= Pow2(m2) && |pre| + 1 + m2 <= n)
    ensures Reachable(max, base, n, pre + [max / 2 / 2])
  {
    hide Reachable, Total, Fill, FillEnd, Fair, Bookable, Grant;
    FairFacts(max, base);
    var i := max - Total(pre);
    FillLength(max, base, i, m1);
    FillEndBounds(max, base, i);
    var f, e := Fill(max, base, i), FillEnd(max, base, i);
    ReachFill(max, base, n, pre, i);
    if e == max / 2 {
      QuarterBeside(max, base, n, pre, f);
    } else {
      LowGrant(max, base, e);
      Query(max, base, n, pre + f);
      ReturnAll(max, base, n, pre, f, [e / 2]);
      TotalPush(pre, e / 2);
      QuarterAfter(max, base, n, pre, e / 2, m2);
    }
  }

  // One sender holds e, at least the excess t over half of the maximum.
  lemma QuarterAfter(max: int, base: int, n: nat, pre: seq<int>, e: int, m2: nat)
    requires Fair(max, base) && max / 2 >= 2 && Reachable(max, base, n, pre + [e])
    requires 1 <= max - Total(pre) - max / 2 <= e <= max / 2 / 2
    requires max / 2 <= Pow2(m2) && |pre| + 1 + m2 <= n
    ensures Reachable(max, base, n, pre + [max / 2 / 2])
  {
    hide Reachable, Total, Chain, Pick, Bookable, Fair;
    FairFacts(max, base);
    var i := max - Total(pre);
    var t, r := i - max / 2, i - e;
    TotalPush(pre, e);
    if t == e {
      QuarterBeside(max, base, n, pre, [e]);
    } else {
      HalvedPower(r, m2);
      ChainLength(r, m2);
      ReachChain(max, base, n, pre + [e], 0, r);
      Return(max, base, n, pre, e, Chain(r));
      KeepPick(max, base, n, pre, r, t);
      PickTotal(r, t);
      TotalConcat(pre, Pick(r, t));
      QuarterBeside(max, base, n, pre, Pick(r, t));
    }
  }

  // ---- the limits are reached ----

  lemma {:induction false} FloorHalves(max: int, base: int, j: nat, k: nat)
    requires Fair(max, base) && j <= k
    ensures Floor(max, base, j) <= Floor(max, base, k) * Pow2(k - j)
    decreases k
  {
    hide Fair, Least;
    if j < k {
      FloorHalves(max, base, j, k - 1);
      FloorBounds(max, base, k - 1);
      var f, g := Floor(max, base, k - 1), Floor(max, base, k);
      LeastSteps(max, base, f, f);
      HalfLeft(f, g, Pow2(k - 1 - j));
    }
  }

  // The first grants that leave least, when there is a base to subtract.
  lemma FirstFloors(max: int, base: int)
    requires Fair(max, base) && base >= 1
    ensures var h := max / 2;
            && h >= 3
            && Grant(max, base, max) == h - base
            && Floor(max, base, 1) == max - (h - base) > h
            && Floor(max, base, 2) == max - (h - base) - h / 2
            && h + 1 <= 2 * Floor(max, base, 2) <= 2 * (h + 1)
            && (Floor(max, base, 2) == h + 1 ==>
                  h == 2 * base + 1 && Floor(max, base, 3) == h + 1 - h / 2)
            && (Floor(max, base, 2) <= h ==>
                  h == 2 * base + 1 || 2 * (Floor(max, base, 1) - h) <= h / 2 + 1 + base)
  {
    assert Floor(max, base, 0) == max;
    assert Floor(max, base, 1) == Least(max, base, max);
    assert Floor(max, base, 2) == Least(max, base, Floor(max, base, 1));
    assert Floor(max, base, 3) == Least(max, base, Floor(max, base, 2));
  }

  lemma {:induction false} FloorWithoutBase(max: int, k: nat)
    requires Fair(max, 0)
    ensures Floor(max, 0, k) == Halved(max, k)
  {
    if k > 0 {
      FloorWithoutBase(max, k - 1);
      FloorBounds(max, 0, k - 1);
      HalvedOnce(max, k - 1);
    }
  }

  lemma NobodyHolds(max: int, base: int, n: nat)
    ensures Reachable(max, base, n, [])
  {
    assert Grants([]) == [];
    assert Reaches(max, base, n, [], []);
  }

  lemma NoBaseCrash(max: int, n: nat)
    requires Fair(max, 0) && n >= 1 && Floor(max, 0, n - 1) <= 1
    ensures CanCrash(max, 0, n)
  {
    hide Reachable, CanCrash, Floor, Halved, Chain;
    FloorWithoutBase(max, n - 1);
    ChainLength(max, n - 1);
    NobodyHolds(max, 0, n);
    ChainCrash(max, 0, n, [], 0, max);
  }

  // From two holders on everything halves.
  lemma TwoHoldersCrash(max: int, base: int, n: nat)
    requires Fair(max, base) && base >= 1 && n >= 4
    requires Floor(max, base, 2) <= max / 2 && Floor(max, base, 2) <= Pow2(n - 3)
    requires Reachable(max, base, n, [max / 2 - base])
    ensures CanCrash(max, base, n)
  {
    hide Reachable, CanCrash, Floor, Total, Chain, Halved, Bookable, Fair, Grant;
    FirstFloors(max, base);
    FairFacts(max, base);
    TotalOfOne(max / 2 - base);
    var a, q, f := max / 2 - base, max / 2 / 2, Floor(max, base, 2);
    assert Pow2(n - 2) == 2 * Pow2(n - 3);
    Quarter(max, base, n, [a], n - 3, n - 2);
    TotalPush([a], q);
    HalvedPower(f, n - 3);
    ChainLength(f, n - 3);
    ChainCrash(max, base, n, [a] + [q], 0, f);
  }

  // In one case the third holder gets a quarter as well.
  lemma ThreeHoldersCrash(max: int, base: int, n: nat)
    requires Fair(max, base) && base >= 1 && n >= 4
    requires Floor(max, base, 2) == max / 2 + 1 && Floor(max, base, 3) <= Pow2(n - 4)
    requires Reachable(max, base, n, [max / 2 - base])
    ensures CanCrash(max, base, n)
  {
    hide Reachable, CanCrash, Floor, Total, Chain, Halved, Bookable, Fair, Grant;
    FirstFloors(max, base);
    FairFacts(max, base);
    TotalOfOne(max / 2 - base);
    var a, q, f := max / 2 - base, max / 2 / 2, Floor(max, base, 3);
    Quarter(max, base, n, [a], n - 4, 0);
    TotalPush([a], q);
    assert Pow2(1) == 2 * Pow2(0);
    Quarter(max, base, n, [a] + [q], 1, 0);
    TotalPush([a] + [q], q);
    HalvedPower(f, n - 4);
    ChainLength(f, n - 4);
    ChainCrash(max, base, n, [a] + [q] + [q], 0, f);
  }

  // Limits that n - 1 holders exhaust.
  lemma SmallFloors(max: int, base: int, n: nat)
    requires Fair(max, base) && base >= 1 && n >= 1 && Floor(max, base, n - 1) <= 1
    ensures n >= 4 && Floor(max, base, 2) <= Pow2(n - 3) && Floor(max, base, 3) <= Pow2(n - 4)
  {
    AtLeastFour(max, base, n);
    hide Fair, Floor, Pow2;
    FloorBounds(max, base, n - 1);
    FloorHalves(max, base, 2, n - 1);
    FloorHalves(max, base, 3, n - 1);
    assert Floor(max, base, n - 1) == 1;
  }

  lemma FirstHolder(max: int, base: int, n: nat)
    requires Fair(max, base) && n >= 1
    ensures Reachable(max, base, n, [max / 2 - base])
  {
    NobodyHolds(max, base, n);
    assert Grant(max, base, max) == max / 2 - base >= 1 && Bookable(max, base);
    assert Total([]) == 0 && [] + [max / 2 - base] == [max / 2 - base];
    hide Reachable, Total, Grant, Fair, Bookable;
    Query(max, base, n, []);
  }

  lemma FairCrash(max: int, base: int, n: nat)
    requires Fair(max, base) && n >= 1 && Floor(max, base, n - 1) <= 1
    ensures CanCrash(max, base, n)
  {
    hide Reachable, CanCrash, Floor;
    if base == 0 {
      NoBaseCrash(max, n);
    } else {
      SmallFloors(max, base, n);
      FirstFloors(max, base);
      FirstHolder(max, base, n);
      if Floor(max, base, 2) <= max / 2 {
        TwoHoldersCrash(max, base, n);
      } else {
        ThreeHoldersCrash(max, base, n);
      }
    }
  }

  lemma AtLeastFour(max: int, base: int, n: nat)
    requires Fair(max, base) && base >= 1 && n >= 1 && Floor(max, base, n - 1) <= 1
    ensures n >= 4
  {
    FirstFloors(max, base);
    if n <= 3 {
      FloorShrinks(max, base, n - 1, 2);
    }
  }

  lemma TightCrash(max: int, base: int, n: nat)
    requires !Fair(max, base) && 0 <= base && 2 * base < max && n >= 1
    requires Halved(max - 2 * base, n - 1) <= 1
    ensures CanCrash(max, base, n)
  {
    assert Bookable(max, base);
    hide Reachable, CanCrash, Halved, Chain, Bookable;
    ChainLength(max - 2 * base, n - 1);
    NobodyHolds(max, base, n);
    assert Total([]) == 0;
    ChainCrash(max, base, n, [], 2 * base, max - 2 * base);
  }

  // ---- the exact limits ----

  // n threads are always served: n - 1 grants leave at least two units to halve;
  // if there is nothing to halve, a single thread that gets a negative grant.
  predicate Serves(max: int, base: int, n: nat)
    requires n >= 1
  {
    if Fair(max, base) then Floor(max, base, n - 1) >= 2
    else if 2 * base < max then Halved(max - 2 * base, n - 1) >= 2
    else n == 1 && (max == -2 || (max >= 1 && 2 * base == max + 1))
  }

  lemma ServedByDefinition(max: int, base: int, n: nat, events: seq<Event>)
    requires base >= 0 && Bookable(max, base) && n >= 1 && Serves(max, base, n) && OnlySenders(events, n)
    ensures !Run(Fresh(max, base), events).crashed
  {
    hide Run, Floor, Halved, OnlySenders;
    if Fair(max, base) {
      NeverDividesByZero(Fresh(max, base), events, n);
    } else if 2 * base < max {
      TightServes(Fresh(max, base), events, n);
    } else {
      OneSenderServed(Fresh(max, base), events);
    }
  }

  lemma UnservedCrash(max: int, base: int, n: nat)
    requires base >= 0 && Bookable(max, base) && n >= 1 && !Serves(max, base, n)
    ensures CanCrash(max, base, n)
  {
    hide CanCrash, Floor, Halved;
    if Fair(max, base) {
      FairCrash(max, base, n);
    } else if 2 * base < max {
      TightCrash(max, base, n);
    } else {
      StarvedCrash(max, base, n);
    }
  }

  lemma StarvedCrash(max: int, base: int, n: nat)
    requires base >= 0 && Bookable(max, base) && max <= 2 * base && n >= 1
    requires n >= 2 || (max != -2 && (max < 1 || 2 * base != max + 1))
    ensures CanCrash(max, base, n)
  {
    StarvedGrants(max, base);
    NobodyHolds(max, base, n);
    var g := Grant(max, base, max);
    assert Total([]) == 0 && Total([g]) == g && [] + [g] == [g];
    assert g == -1 ==> n >= 2;
    hide Reachable, CanCrash, Total, Grant, Bookable;
    Query(max, base, n, []);
    if g != 0 {
      Query(max, base, n, [g]);
    }
  }

  // For every maximum and base speed whose books balance and every number of
  // threads: no order of queries and returns leads to a division by zero if and
  // only if Serves holds.
  lemma ServesIff(max: int, base: int, n: nat)
    requires base >= 0 && Bookable(max, base) && n >= 1
    ensures Serves(max, base, n)
            <==> forall events | OnlySenders(events, n) :: !Run(Fresh(max, base), events).crashed
  {
    hide Run, Serves, Bookable, OnlySenders, Fresh;
    if Serves(max, base, n) {
      forall events | OnlySenders(events, n)
        ensures !Run(Fresh(max, base), events).crashed
      {
        ServedByDefinition(max, base, n, events);
      }
    } else {
      UnservedCrash(max, base, n);
    }
  }

  // ---- particular speeds and schedules ----

  // Idle bandwidth after k queries without a return.
  function Left(max: int, base: int, k: nat): int {
    if k == 0 then max else Left(max, base, k - 1) - Grant(max, base, Left(max, base, k - 1))
  }

  // Senders 0, 1, .. k - 1 query one after the other.
  function Arrivals(k: nat): (es: seq<Event>)
    ensures |es| == k
  {
    if k == 0 then [] else Arrivals(k - 1) + [Acquire(k - 1, 200)]
  }

  lemma {:induction false} ArrivalsRun(max: int, base: int, k: nat)
    requires forall j: nat | j < k :: Grant(max, base, Left(max, base, j)) != 0
    ensures var t := Run(Fresh(max, base), Arrivals(k));
            && !t.crashed && t.max == max && t.base == base && t.current == max - Left(max, base, k)
            && forall h | h in t.holds :: h.sender < k
  {
    hide Grant;
    if k > 0 {
      ArrivalsRun(max, base, k - 1);
      RunAppend(Fresh(max, base), Arrivals(k - 1), Acquire(k - 1, 200));
    }
  }

  lemma LeftByDefault()
    ensures Left(800, 80, 1) == 480 && Left(800, 80, 2) == 320 && Left(800, 80, 3) == 160
    ensures Left(800, 80, 4) == 80 && Left(800, 80, 5) == 40 && Left(800, 80, 6) == 20
    ensures Left(800, 80, 7) == 10 && Left(800, 80, 8) == 5 && Left(800, 80, 9) == 3
    ensures Left(800, 80, 10) == 2 && Left(800, 80, 11) == 1
  {
    assert Left(800, 80, 0) == 800;
  }

  // As many senders as it takes until nothing is granted: the last one divides
  // by zero.
  lemma LateSenderCrashes(max: int, base: int, k: nat)
    requires forall j: nat | j < k :: Grant(max, base, Left(max, base, j)) != 0
    requires Grant(max, base, Left(max, base, k)) == 0
    ensures !Run(Fresh(max, base), Arrivals(k)).crashed
    ensures Run(Fresh(max, base), Arrivals(k + 1)).crashed
  {
    hide Grant;
    ArrivalsRun(max, base, k);
    RunAppend(Fresh(max, base), Arrivals(k), Acquire(k, 200));
  }

  // Eleven senders get a grant and the twelfth divides by zero.
  lemma TwelfthSenderCrashes()
    ensures Run(Fresh(800, 80), Arrivals(12)).crashed
  {
    LeftByDefault();
    forall j: nat | j < 11
      ensures Grant(800, 80, Left(800, 80, j)) != 0
    {
      assert j == 0 || j == 1 || j == 2 || j == 3 || j == 4 || j == 5 || j == 6 || j == 7 || j == 8 || j == 9 || j == 10;
    }
    LateSenderCrashes(800, 80, 11);
  }

  lemma FloorByDefault()
    ensures Floor(800, 80, 10) == 2 && Floor(800, 80, 11) == 1
  {
    assert Floor(800, 80, 0) == 800;
    assert Floor(800, 80, 1) == 480 && Floor(800, 80, 2) == 280 && Floor(800, 80, 3) == 140;
    assert Floor(800, 80, 4) == 70 && Floor(800, 80, 5) == 35 && Floor(800, 80, 6) == 18;
    assert Floor(800, 80, 7) == 9 && Floor(800, 80, 8) == 5 && Floor(800, 80, 9) == 3;
  }

  // The default object serves n threads in every order of queries and returns
  // if and only if n is at most eleven.
  lemma DefaultServesEleven(n: nat)
    requires n >= 1
    ensures n <= 11 <==> forall events | OnlySenders(events, n) :: !Run(Fresh(800, 80), events).crashed
  {
    FloorByDefault();
    if n <= 11 {
      FloorShrinks(800, 80, n - 1, 10);
    } else {
      FloorShrinks(800, 80, 11, n - 1);
    }
    ServesIff(800, 80, n);
    hide Run, Floor, OnlySenders;
    assert Serves(800, 80, n) <==> n <= 11;
  }

  // After set_speed to 160 or 161 on the default object the first query is
  // granted 0.
  lemma NobodyServed(speed: int, n: nat)
    requires speed in {160, 161} && n >= 1
    ensures !Serves(speed, 80, n)
  {
    if speed == 161 {
      HalvedShrinks(1, 0, n - 1);
    }
  }

  // Whatever the maximum and the base, a single thread that is served once is
  // always served.
  lemma OneSenderIff(max: int, base: int)
    ensures Grant(max, base, max) != 0
            <==> forall events | OnlySenders(events, 1) :: !Run(Fresh(max, base), events).crashed
  {
    hide Run, Grant, OnlySenders;
    if Grant(max, base, max) != 0 {
      forall events | OnlySenders(events, 1)
        ensures !Run(Fresh(max, base), events).crashed
      {
        OneSenderServed(Fresh(max, base), events);
      }
    } else {
      FirstQueryCrashes(max, base);
    }
  }

  lemma FirstQueryCrashes(max: int, base: int)
    requires Grant(max, base, max) == 0
    ensures OnlySenders([Acquire(0, 200)], 1) && Run(Fresh(max, base), [Acquire(0, 200)]).crashed
  {
    hide Grant;
    assert [Acquire(0, 200)] == [] + [Acquire(0, 200)];
    RunAppend(Fresh(max, base), [], Acquire(0, 200));
  }
}
