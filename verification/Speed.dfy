// The bandwidth allocator shared by all sending threads, and the pacing
// computed from its grants.
module Speed {

  const DEFAULT_SPEED := 800  // MAX_SPEED
  const PACE := 8016          // microseconds times Mbit/s per packet

  // C's integer division, which truncates toward zero.
  function Quotient(a: int, b: int): int
    requires b != 0
  {
    var q := (if a < 0 then -a else a) / (if b < 0 then -b else b);
    if (a < 0) == (b < 0) then q else -q
  }

  // |a| = |b| * q + r with 0 <= r < |b|, and the result is q with the sign of
  // the true quotient.
  lemma QuotientTruncates(a: int, b: int) returns (q: nat, r: nat)
    requires b != 0
    ensures if (a < 0) == (b < 0) then Quotient(a, b) == q else Quotient(a, b) + q == 0
    ensures var x, y := if a < 0 then -a else a, if b < 0 then -b else b;
            x == y * q + r && r < y
  {
    q, r := Divided(if a < 0 then -a else a, if b < 0 then -b else b);
  }

  lemma Divided(x: nat, y: nat) returns (q: nat, r: nat)
    requires y > 0
    ensures q == x / y && x == y * q + r && r < y
  {
    q, r := x / y, x % y;
    assert x == y * q + r;
  }

  // The answer of query_speed when idle bandwidth is left.
  function Grant(max: int, base: int, idle: int): int {
    if idle > Quotient(max, 2) then Quotient(idle, 2) - base else Quotient(idle, 2)
  }

  // A query takes half of what is idle, rounded down, less base_speed while more
  // than half of the maximum is idle.
  lemma GrantShare(max: nat, base: int, idle: nat)
    ensures var g := Grant(max, base, idle);
            if idle >= (max - max % 2) / 2 + 1 then 2 * (g + base) <= idle < 2 * (g + base) + 2
            else 2 * g <= idle < 2 * g + 2
  {
  }

  // The new total after a return, which is kept from going below zero.
  function AfterReturn(current: int, speed: int): int {
    if current - speed < 0 then 0 else current - speed
  }

  class SpeedManger {
    var maxSpeed: int
    var currentSpeed: int
    var baseSpeed: int

    constructor Default()
      ensures maxSpeed == 800 && currentSpeed == 0 && baseSpeed == 80
    {
      maxSpeed := DEFAULT_SPEED;
      currentSpeed := 0;
      baseSpeed := Quotient(DEFAULT_SPEED, 10);
    }

    constructor WithSpeed(speed: int)
      ensures maxSpeed == speed && currentSpeed == 0 && baseSpeed == Quotient(speed, 10)
    {
      maxSpeed := speed;
      currentSpeed := 0;
      baseSpeed := Quotient(speed, 10);
    }

    method QuerySpeed() returns (granted: int)
      modifies this
      ensures maxSpeed == old(maxSpeed) && baseSpeed == old(baseSpeed)
      ensures granted == Grant(maxSpeed, baseSpeed, maxSpeed - old(currentSpeed))
      ensures currentSpeed == old(currentSpeed) + granted
    {
      granted := 0;
      var idle := maxSpeed - currentSpeed;
      if idle > Quotient(maxSpeed, 2) {
        granted := Quotient(idle, 2) - baseSpeed;
      } else {
        granted := Quotient(idle, 2);
      }
      currentSpeed := currentSpeed + granted;
    }

    method ReturnSpeed(speed: int)
      modifies this
      ensures maxSpeed == old(maxSpeed) && baseSpeed == old(baseSpeed)
      ensures currentSpeed == AfterReturn(old(currentSpeed), speed)
    {
      currentSpeed := currentSpeed - speed;
      if currentSpeed < 0 {
        currentSpeed := 0;
      }
    }

    // base_speed is not recomputed.
    method SetSpeed(speed: int)
      modifies this`maxSpeed
      ensures maxSpeed == speed
    {
      maxSpeed := speed;
    }
  }

  // ---- concurrent senders ----

  // A sender between a query and the matching return; packT is its pack_t.
  datatype Hold = Hold(sender: nat, packT: nat, grant: int)

  // holds lists the senders with a grant, oldest grant first. crashed: some
  // sender divided by a grant of zero, which ends the process.
  datatype Allocator = Allocator(max: int, base: int, current: int, holds: seq<Hold>, crashed: bool)

  datatype Event = Acquire(sender: nat, packT: nat) | Release(sender: nat)

  predicate By(calls: seq<Event>, sender: nat) { forall e | e in calls :: e.sender == sender }

  lemma ByConcat(a: seq<Event>, b: seq<Event>, sender: nat)
    requires By(a, sender) && By(b, sender)
    ensures By(a + b, sender)
  {
  }

  // These calls of one sender left nothing with it.
  predicate Leaves(calls: seq<Event>) { calls == [] || calls[|calls| - 1].Release? }

  // So does one call after another.
  lemma LeavesConcat(a: seq<Event>, b: seq<Event>)
    requires Leaves(a) && Leaves(b)
    ensures Leaves(a + b)
  {
    if b == [] {
      assert a + b == a;
    }
  }

  predicate Holding(holds: seq<Hold>, sender: nat) { exists h | h in holds :: h.sender == sender }

  function IndexOf(holds: seq<Hold>, sender: nat): (i: nat)
    requires Holding(holds, sender)
    ensures i < |holds| && holds[i].sender == sender
  {
    if holds[0].sender == sender then 0 else 1 + IndexOf(holds[1..], sender)
  }

  function Dropped(holds: seq<Hold>, i: nat): seq<Hold>
    requires i < |holds|
  {
    holds[..i] + holds[i + 1..]
  }

  // One locked call by one sender. SendPack_ex returns what it holds before it
  // queries again, and on every way out.
  function Step(a: Allocator, e: Event): Allocator {
    if a.crashed then a
    else match e
      case Acquire(s, packT) =>
        var g := Grant(a.max, a.base, a.max - a.current);
        if Holding(a.holds, s) then a
        else if g == 0 then a.(crashed := true)
        else a.(current := a.current + g, holds := a.holds + [Hold(s, packT, g)])
      case Release(s) =>
        if !Holding(a.holds, s) then a
        else var i := IndexOf(a.holds, s);
          a.(current := AfterReturn(a.current, a.holds[i].grant), holds := Dropped(a.holds, i))
  }

  function Run(a: Allocator, events: seq<Event>): Allocator
    decreases |events|
  {
    if events == [] then a else Run(Step(a, events[0]), events[1..])
  }

  function Sum(holds: seq<Hold>): int {
    if holds == [] then 0 else Sum(holds[..|holds| - 1]) + holds[|holds| - 1].grant
  }

  // The total is what the holders hold.
  predicate Balanced(a: Allocator) { a.current == Sum(a.holds) }

  // The next event is a return that return_speed corrects to zero.
  predicate Clamps(a: Allocator, e: Event) {
    && e.Release? && !a.crashed && Holding(a.holds, e.sender)
    && a.current - a.holds[IndexOf(a.holds, e.sender)].grant < 0
  }

  // Each grant was at most half of what the older ones left over.
  predicate Halving(max: int, holds: seq<Hold>) {
    holds == []
    || (var older, last := holds[..|holds| - 1], holds[|holds| - 1];
        Halving(max, older) && 1 <= last.grant && 2 * last.grant <= max - Sum(older))
  }

  // The head room base_speed must leave.
  predicate Fair(max: int, base: int) { 0 <= base < (max / 2 + 1) / 2 }

  predicate Sound(a: Allocator) {
    && Fair(a.max, a.base)
    && Balanced(a)
    && Halving(a.max, a.holds)
    && 0 <= a.current < a.max
  }

  function Pow2(k: nat): (p: nat)
    ensures p >= 1
  {
    if k == 0 then 1 else 2 * Pow2(k - 1)
  }

  // Fair is exactly what makes every query positive while two units are idle.
  lemma FairIffPositive(max: int, base: int)
    requires max >= 2 && base >= 0
    ensures Fair(max, base) <==> forall idle | 2 <= idle <= max :: Grant(max, base, idle) >= 1
  {
    if !Fair(max, base) {
      assert Grant(max, base, max / 2 + 1) < 1;
    }
  }

  // A query under Fair: never more than half of what is idle, so at most half
  // of the whole, and zero only on the last unit.
  lemma GrantBounds(max: int, base: int, idle: int)
    requires Fair(max, base) && 1 <= idle <= max
    ensures var g := Grant(max, base, idle);
            && 0 <= 2 * g <= idle
            && (g == 0 <==> idle == 1)
  {
  }

  lemma {:induction false} SumNonNegative(max: int, holds: seq<Hold>)
    requires Halving(max, holds)
    ensures Sum(holds) >= 0
    ensures max > 0 ==> Sum(holds) < max
  {
    if holds != [] {
      SumNonNegative(max, holds[..|holds| - 1]);
    }
  }

  // Sum and Halving after one more grant.
  lemma PushHalving(max: int, older: seq<Hold>, h: Hold)
    ensures Sum(older + [h]) == Sum(older) + h.grant
    ensures Halving(max, older + [h]) <==> Halving(max, older) && 1 <= h.grant && 2 * h.grant <= max - Sum(older)
  {
    assert (older + [h])[..|older|] == older;
  }

  lemma DropSplit(holds: seq<Hold>, i: nat)
    requires i < |holds|
    ensures var n := |holds| - 1;
            && holds == holds[..n] + [holds[n]]
            && Dropped(holds, i) == if i == n then holds[..n] else Dropped(holds[..n], i) + [holds[n]]
  {
  }

  // Whichever holder leaves, the younger grants still halve.
  lemma {:induction false} DropKeepsHalving(max: int, holds: seq<Hold>, i: nat)
    requires i < |holds| && Halving(max, holds)
    ensures Halving(max, Dropped(holds, i))
    ensures Sum(Dropped(holds, i)) == Sum(holds) - holds[i].grant
    ensures holds[i].grant >= 1
    decreases |holds|
  {
    hide Sum, Halving, Dropped;
    var n := |holds| - 1;
    var older, last := holds[..n], holds[n];
    DropSplit(holds, i);
    PushHalving(max, older, last);
    if i < n {
      DropKeepsHalving(max, older, i);
      PushHalving(max, Dropped(older, i), last);
    }
  }

  lemma StepSound(a: Allocator, e: Event)
    requires Sound(a)
    ensures Sound(Step(a, e))
    ensures !Clamps(a, e)
  {
    match e
    case Acquire(s, packT) => AcquireSound(a, s, packT);
    case Release(s) => ReleaseSound(a, s);
  }

  lemma AcquireSound(a: Allocator, sender: nat, packT: nat)
    requires Sound(a)
    ensures Sound(Step(a, Acquire(sender, packT)))
  {
    var idle := a.max - a.current;
    GrantBounds(a.max, a.base, idle);
    hide Grant, Holding, Fair;
    var h := Hold(sender, packT, Grant(a.max, a.base, idle));
    assert (a.holds + [h])[..|a.holds|] == a.holds;
  }

  lemma ReleaseSound(a: Allocator, sender: nat)
    requires Sound(a)
    ensures Sound(Step(a, Release(sender)))
    ensures !Clamps(a, Release(sender))
  {
    hide Fair, Holding, Halving, Sum, Dropped;
    if Holding(a.holds, sender) {
      var i := IndexOf(a.holds, sender);
      DropKeepsHalving(a.max, a.holds, i);
      SumNonNegative(a.max, Dropped(a.holds, i));
    }
  }

  lemma {:induction false} HalvingBounds(max: int, holds: seq<Hold>)
    requires Halving(max, holds)
    ensures forall h | h in holds :: 1 <= h.grant && 2 * h.grant <= max
  {
    if holds != [] {
      var older := holds[..|holds| - 1];
      HalvingBounds(max, older);
      SumNonNegative(max, older);
      assert holds == older + [holds[|holds| - 1]];
    }
  }

  lemma {:induction false} RunSound(a: Allocator, events: seq<Event>)
    requires Sound(a)
    ensures Sound(Run(a, events)) && Run(a, events).max == a.max && Run(a, events).base == a.base
    decreases |events|
  {
    hide Sound;
    if events != [] {
      StepSound(a, events[0]);
      RunSound(Step(a, events[0]), events[1..]);
    }
  }

  // Conservation, in every reachable state: the total is the sum of the grants
  // held and stays below the maximum, no grant exceeds half of the maximum, and
  // the total is zero when nobody holds one.
  lemma AlwaysSound(a: Allocator, events: seq<Event>)
    requires Sound(a)
    ensures var t := Run(a, events);
            && Sound(t) && t.max == a.max && t.base == a.base
            && t.current == Sum(t.holds) && 0 <= t.current < t.max
            && (forall h | h in t.holds :: 1 <= h.grant && 2 * h.grant <= t.max)
            && (t.holds == [] ==> t.current == 0)
  {
    hide Run, Step;
    RunSound(a, events);
    HalvingBounds(a.max, Run(a, events).holds);
  }

  lemma {:induction false} IdleOfHalving(max: int, holds: seq<Hold>)
    requires max > 0 && Halving(max, holds)
    ensures (max - Sum(holds)) * Pow2(|holds|) >= max
  {
    if holds != [] {
      var older := holds[..|holds| - 1];
      IdleOfHalving(max, older);
      HalfLeft(max - Sum(older), max - Sum(holds), Pow2(|older|));
    }
  }

  lemma HalfLeft(before: int, after: int, p: nat)
    requires before <= 2 * after
    ensures before * p <= after * (2 * p)
  {
    Scale(before, 2 * after, p);
    assert (2 * after) * p == after * (2 * p);
  }

  lemma Scale(x: int, y: int, p: nat)
    requires x <= y
    ensures x * p <= y * p
  {
  }

  // The lower bound: with k grants held, in whatever order they were taken and
  // others returned, at least max / 2^k is idle.
  lemma IdleLowerBound(a: Allocator, events: seq<Event>)
    requires Sound(a)
    ensures var t := Run(a, events);
            (t.max - t.current) * Pow2(|t.holds|) >= t.max
  {
    AlwaysSound(a, events);
    var t := Run(a, events);
    IdleOfHalving(t.max, t.holds);
  }

  lemma QueryPositive(a: Allocator)
    requires Sound(a) && a.max > Pow2(|a.holds|)
    ensures Grant(a.max, a.base, a.max - a.current) >= 1
  {
    var k, idle := Pow2(|a.holds|), a.max - a.current;
    IdleOfHalving(a.max, a.holds);
    if idle <= 1 {
      Scale(idle, 1, k);
    }
    GrantBounds(a.max, a.base, idle);
  }

  // ---- pacing ----

  // wait_t for a grant.
  function WaitOf(packT: nat, grant: int): int
    requires grant != 0
  {
    Quotient(PACE * packT, grant)
  }

  lemma WaitBounds(packT: nat, grant: int)
    requires grant >= 1
    ensures var w := WaitOf(packT, grant);
            w >= 0 && w * grant <= 8016 * packT < (w + 1) * grant
  {
    var x := 8016 * packT;
    assert x == grant * (x / grant) + x % grant;
    assert (x / grant + 1) * grant == grant * (x / grant) + grant;
  }

  // Bandwidth used by a holder that really waits a little longer than wait_t.
  function Rate(h: Hold): (r: real)
    requires h.grant >= 1
    ensures r * (WaitOf(h.packT, h.grant) + 1) as real == (8016 * h.packT) as real
  {
    WaitBounds(h.packT, h.grant);
    (PACE * h.packT) as real / ((WaitOf(h.packT, h.grant) + 1) as real)
  }

  predicate Positive(holds: seq<Hold>) { forall h | h in holds :: h.grant >= 1 }

  function Rates(holds: seq<Hold>): real
    requires Positive(holds)
  {
    if holds == [] then 0.0 else Rates(holds[..|holds| - 1]) + Rate(holds[|holds| - 1])
  }

  lemma RateBelowGrant(h: Hold)
    requires h.grant >= 1
    ensures Rate(h) < h.grant as real
  {
    WaitBounds(h.packT, h.grant);
    var x, y, g := PACE * h.packT, WaitOf(h.packT, h.grant) + 1, h.grant;
    assert x < y * g;
    assert x as real < (y * g) as real == y as real * g as real;
    DivideBelow(x as real, y as real, g as real);
  }

  lemma DivideBelow(x: real, y: real, g: real)
    requires y > 0.0 && x < y * g
    ensures x / y < g
  {
    var q := x / y;
    assert q * y == x;
    if q >= g {
      assert q * y >= g * y;
    }
  }

  lemma {:induction false} RatesBelowSum(holds: seq<Hold>)
    requires Positive(holds)
    ensures Rates(holds) <= Sum(holds) as real
  {
    if holds != [] {
      RatesBelowSum(holds[..|holds| - 1]);
      RateBelowGrant(holds[|holds| - 1]);
    }
  }

  // In every reachable state the paced senders together stay below max_speed.
  lemma PacedBelowMax(a: Allocator, events: seq<Event>)
    requires Sound(a)
    ensures var t := Run(a, events);
            Positive(t.holds) && Rates(t.holds) < t.max as real
  {
    AlwaysSound(a, events);
    var t := Run(a, events);
    RatesBelowSum(t.holds);
  }

  // ---- configurations ----

  function Fresh(max: int, base: int): Allocator { Allocator(max, base, 0, [], false) }

  // The constructors leave enough head room from 2 up; after set_speed on the
  // default object, whose base stays 80, that takes at least 322, and books that
  // balance take at least 159.
  lemma ConstructorsAreFair(speed: int)
    ensures speed >= 0 ==> (Fair(speed, Quotient(speed, 10)) <==> speed >= 2)
    ensures speed >= 0 ==> (Fair(speed, Quotient(DEFAULT_SPEED, 10)) <==> speed >= 322)
    ensures speed >= 1 ==> (Bookable(speed, Quotient(DEFAULT_SPEED, 10)) <==> speed >= 159)
    ensures Fair(speed, Quotient(speed, 10)) ==> Sound(Fresh(speed, Quotient(speed, 10)))
  {
  }

  lemma {:induction false} RunAppend(a: Allocator, events: seq<Event>, e: Event)
    ensures Run(a, events + [e]) == Step(Run(a, events), e)
    decreases |events|
  {
    hide Step;
    if events == [] {
      assert events + [e] == [e];
      assert Run(Step(a, e), []) == Step(a, e);
    } else {
      RunAppend(Step(a, events[0]), events[1..], e);
      assert (events + [e])[1..] == events[1..] + [e];
    }
  }

  // ---- when the books balance ----

  // Base speeds for which no grant is negative, or only one that nobody follows.
  predicate Bookable(max: int, base: int) { 2 * base <= max + 1 || -2 <= max <= 0 }

  // Without the head room of Fair, but with 2 * base < max: all queries see
  // more than 2 * base idle, and halve what is idle above that.
  predicate Tight(a: Allocator) {
    && !Fair(a.max, a.base) && 0 <= a.base && 2 * a.base < a.max
    && Balanced(a) && Halving(a.max - 2 * a.base, a.holds)
  }

  // With less: nobody gets a positive grant, and a second query crashes.
  predicate Starved(a: Allocator) {
    && 0 <= a.base && a.max <= 2 * a.base && Bookable(a.max, a.base)
    && (a.holds == [] || (|a.holds| == 1 && a.holds[0].grant == -1 == Grant(a.max, a.base, a.max)))
    && Balanced(a)
  }

  lemma TightGrant(max: int, base: int, idle: int)
    requires !Fair(max, base) && 0 <= base && 2 * base < idle <= max
    ensures var g := Grant(max, base, idle); 0 <= 2 * g <= idle - 2 * base
  {
  }

  lemma StepTight(a: Allocator, e: Event)
    requires Tight(a)
    ensures Tight(Step(a, e)) && !Clamps(a, e)
  {
    hide Fair, Grant, Holding, Halving, Sum, Dropped;
    var x := a.max - 2 * a.base;
    SumNonNegative(x, a.holds);
    match e
    case Acquire(s, packT) =>
      TightGrant(a.max, a.base, a.max - a.current);
      PushHalving(x, a.holds, Hold(s, packT, Grant(a.max, a.base, a.max - a.current)));
    case Release(s) =>
      if Holding(a.holds, s) {
        var i := IndexOf(a.holds, s);
        DropKeepsHalving(x, a.holds, i);
        SumNonNegative(x, Dropped(a.holds, i));
      }
  }

  lemma StarvedGrants(max: int, base: int)
    requires 0 <= base && max <= 2 * base && Bookable(max, base)
    ensures Grant(max, base, max) in {0, -1}
    ensures Grant(max, base, max) == -1 ==> Grant(max, base, max + 1) == 0
  {
  }

  lemma SumOfFew(h: Hold)
    ensures Sum([]) == 0 && Sum([h]) == h.grant
    ensures Dropped([h], 0) == []
    ensures forall s :: !Holding([], s) && (Holding([h], s) <==> s == h.sender)
  {
    assert [h][..0] == [];
    assert forall s :: Holding([h], s) <==> [h][0].sender == s;
  }

  lemma StepStarved(a: Allocator, e: Event)
    requires Starved(a)
    ensures Starved(Step(a, e)) && !Clamps(a, e)
  {
    hide Grant, Bookable, Sum, Holding, Dropped;
    StarvedGrants(a.max, a.base);
    if a.holds == [] {
      var h := Hold(e.sender, if e.Acquire? then e.packT else 0, Grant(a.max, a.base, a.max));
      SumOfFew(h);
      assert a.holds + [h] == [h];
    } else {
      assert a.holds == [a.holds[0]];
      SumOfFew(a.holds[0]);
    }
  }

  // Runs in which the books balance in every state.
  predicate Steady(a: Allocator) { Sound(a) || Tight(a) || Starved(a) }

  lemma StepSteady(a: Allocator, e: Event)
    requires Steady(a)
    ensures Steady(Step(a, e)) && !Clamps(a, e)
  {
    hide Tight, Starved, Step;
    if Sound(a) {
      StepSound(a, e);
    } else if Tight(a) {
      StepTight(a, e);
    } else {
      StepStarved(a, e);
    }
  }

  lemma {:induction false} RunSteady(a: Allocator, events: seq<Event>)
    requires Steady(a)
    ensures Steady(Run(a, events))
    decreases |events|
  {
    hide Steady, Step;
    if events != [] {
      StepSteady(a, events[0]);
      RunSteady(Step(a, events[0]), events[1..]);
    }
  }

  lemma BookableStart(max: int, base: int)
    requires base >= 0 && Bookable(max, base)
    ensures Steady(Fresh(max, base))
  {
  }

  lemma FourSteps(a: Allocator, e1: Event, e2: Event, e3: Event, e4: Event)
    ensures Run(a, [e1, e2, e3, e4]) == Step(Step(Step(Step(a, e1), e2), e3), e4)
  {
    hide Step;
    assert [e1, e2, e3, e4] == [e1, e2, e3] + [e4] && [e1, e2, e3] == [e1, e2] + [e3] && [e1, e2] == [e1] + [e2];
    assert [e1] == [] + [e1];
    RunAppend(a, [e1, e2, e3], e4);
    RunAppend(a, [e1, e2], e3);
    RunAppend(a, [e1], e2);
    RunAppend(a, [], e1);
  }

  lemma TwoSteps(a: Allocator, e1: Event, e2: Event)
    ensures Run(a, [e1, e2]) == Step(Step(a, e1), e2)
  {
    hide Step;
    assert [e1, e2] == [e1] + [e2] && [e1] == [] + [e1];
    RunAppend(a, [e1], e2);
    RunAppend(a, [], e1);
  }

  // Two senders take a grant and return it.
  function Leak(): seq<Event> { [Acquire(0, 200), Acquire(1, 200), Release(0), Release(1)] }

  lemma LeakingGrants(max: int, base: int)
    requires base >= 0 && !Bookable(max, base)
    ensures var g := Grant(max, base, max); g < 0 && Grant(max, base, max - g) < 0
  {
  }

  lemma TwoQueries(max: int, base: int, g: int, h: int)
    requires g == Grant(max, base, max) != 0 && h == Grant(max, base, max - g) != 0
    ensures Step(Step(Fresh(max, base), Acquire(0, 200)), Acquire(1, 200))
            == Allocator(max, base, g + h, [Hold(0, 200, g), Hold(1, 200, h)], false)
  {
    hide Grant;
    var a := Step(Fresh(max, base), Acquire(0, 200));
    assert a == Allocator(max, base, g, [Hold(0, 200, g)], false);
  }

  lemma TwoReturns(max: int, base: int, g: int, h: int)
    requires g < 0 && h < 0
    ensures var a := Allocator(max, base, g + h, [Hold(0, 200, g), Hold(1, 200, h)], false);
            var t := Step(Step(a, Release(0)), Release(1));
            Clamps(a, Release(0)) && t.holds == [] && t.current == -h
  {
    var a := Allocator(max, base, g + h, [Hold(0, 200, g), Hold(1, 200, h)], false);
    assert a.holds[0].sender == 0;
    assert Dropped(a.holds, 0) == [Hold(1, 200, h)];
    var b := Step(a, Release(0));
    assert b == Allocator(max, base, 0, [Hold(1, 200, h)], false);
    assert b.holds[0].sender == 1;
    assert Dropped(b.holds, 0) == [];
  }

  // Otherwise grants are negative, the clamp fires, and bandwidth stays booked
  // although nobody holds any.
  lemma SmallSpeedLeaks(max: int, base: int)
    requires base >= 0 && !Bookable(max, base)
    ensures Clamps(Run(Fresh(max, base), [Acquire(0, 200), Acquire(1, 200)]), Release(0))
    ensures var t := Run(Fresh(max, base), Leak());
            t.holds == [] && t.current > 0
  {
    hide Step, Run, Fresh, Grant, Bookable, Clamps;
    TwoSteps(Fresh(max, base), Acquire(0, 200), Acquire(1, 200));
    LeakingGrants(max, base);
    var g := Grant(max, base, max);
    var h := Grant(max, base, max - g);
    FourSteps(Fresh(max, base), Acquire(0, 200), Acquire(1, 200), Release(0), Release(1));
    TwoQueries(max, base, g, h);
    TwoReturns(max, base, g, h);
  }

  // For every maximum and base_speed: in every run the total is the sum of the
  // grants held, and in every run return_speed never has to correct it, if and
  // only if base_speed is at most half of max_speed rounded up (or the maximum is
  // 0, -1 or -2, where the second query crashes at the latest).
  lemma BalancedIff(max: int, base: int)
    requires base >= 0
    ensures Bookable(max, base) <==> forall events :: Balanced(Run(Fresh(max, base), events))
    ensures Bookable(max, base) <==> forall events, e :: !Clamps(Run(Fresh(max, base), events), e)
  {
    hide Run, Bookable, Fresh, Steady, Leak, Clamps;
    if Bookable(max, base) {
      BookableStart(max, base);
      forall events
        ensures Balanced(Run(Fresh(max, base), events))
        ensures forall e :: !Clamps(Run(Fresh(max, base), events), e)
      {
        RunSteady(Fresh(max, base), events);
        SteadyBalanced(Run(Fresh(max, base), events));
        forall e
          ensures !Clamps(Run(Fresh(max, base), events), e)
        {
          StepSteady(Run(Fresh(max, base), events), e);
        }
      }
    } else {
      SmallSpeedLeaks(max, base);
      assert !Balanced(Run(Fresh(max, base), Leak()));
    }
  }

  lemma SteadyBalanced(a: Allocator)
    requires Steady(a)
    ensures Balanced(a)
  {
  }
}
