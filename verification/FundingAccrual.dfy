/** What holding a position costs or earns in funding (`funding_paid`, `per_hour_view`). Times are in
  * milliseconds and every quantity is a real. A discrete row charges its whole rate at its timestamp; any other
  * row accrues evenly over the cycle that starts there.
  */
module FundingAccrual {
  import opened Basics

  datatype Row = Row(timestamp: real, discrete: bool, perCycle: real, cycleMs: real)

  const HOUR_MS := 3600000.0

  /** Accruing rows have a cycle to accrue over; the division by it demands that. */
  predicate Proper(r: Row) {
    r.discrete || r.cycleMs > 0.0
  }

  predicate AllProper(rows: seq<Row>) {
    forall i :: 0 <= i < |rows| ==> Proper(rows[i])
  }

  /** How long the window from `start` to `end` and the holding from `open` to `close` have in common. */
  function Overlap(start: real, end: real, open: real, close: real): real {
    RealMax(0.0, RealMin(end, close) - RealMax(start, open))
  }

  function Charge(r: Row, open: real, close: real, notional: real): real
    requires Proper(r)
  {
    if r.discrete then if open <= r.timestamp <= close then notional * r.perCycle else 0.0
    else notional * r.perCycle * (Overlap(r.timestamp, r.timestamp + r.cycleMs, open, close) / r.cycleMs)
  }

  function Sum(s: seq<real>): real {
    if s == [] then 0.0 else Sum(s[..|s| - 1]) + s[|s| - 1]
  }

  /** What each row charges, in order. */
  function Charges(rows: seq<Row>, open: real, close: real, notional: real): seq<real>
    requires AllProper(rows)
  {
    seq(|rows|, i requires 0 <= i < |rows| => Charge(rows[i], open, close, notional))
  }

  function Paid(rows: seq<Row>, open: real, close: real, notional: real): real
    requires AllProper(rows)
  {
    Sum(Charges(rows, open, close, notional))
  }

  lemma OneMoreRow(rows: seq<Row>, r: Row, open: real, close: real, notional: real)
    requires AllProper(rows) && Proper(r)
    ensures Paid(rows + [r], open, close, notional) == Paid(rows, open, close, notional) + Charge(r, open, close, notional)
  {
    var charges := Charges(rows + [r], open, close, notional);
    assert charges[..|rows|] == Charges(rows, open, close, notional);
  }

  /** Sums of rowwise combinations are combinations of sums. */
  lemma {:induction false} SumCombines(s: seq<real>, t: seq<real>, u: seq<real>, k: real)
    requires |s| == |t| == |u| && forall i :: 0 <= i < |s| ==> s[i] == k * t[i] + u[i]
    ensures Sum(s) == k * Sum(t) + Sum(u)
  {
    if s != [] {
      var n := |s| - 1;
      SumCombines(s[..n], t[..n], u[..n], k);
      Distribute(k, Sum(t[..n]), t[n]);
    }
  }

  lemma Distribute(k: real, x: real, y: real)
    ensures k * (x + y) == k * x + k * y
  {
  }

  /** `funding_paid` */
  method FundingPaid(rows: seq<Row>, open: real, close: real, notional: real) returns (paid: real)
    requires AllProper(rows)
    ensures paid == Paid(rows, open, close, notional)
    ensures SettlesAndAccrues(rows, open, close, notional, paid)
  {
    paid := 0.0;
    for i := 0 to |rows|
      invariant paid == Paid(rows[..i], open, close, notional)
    {
      var charge := RowCharge(rows[i], open, close, notional);
      OneMoreRow(rows[..i], rows[i], open, close, notional);
      assert rows[..i + 1] == rows[..i] + [rows[i]];
      paid := paid + charge;
    }
    assert rows[..|rows|] == rows;
    PaidIsSettledAndAccrued(rows, open, close, notional, Sum(Rates(Settled(rows, open, close))), paid);
  }

  /** The body of the loop: what one row adds. */
  method RowCharge(r: Row, open: real, close: real, notional: real) returns (charge: real)
    requires Proper(r)
    ensures charge == Charge(r, open, close, notional)
  {
    charge := 0.0;
    if r.discrete {
      if open <= r.timestamp <= close {
        charge := notional * r.perCycle;
      }
    } else {
      var windowStart, windowEnd := r.timestamp, r.timestamp + r.cycleMs;
      var overlapMs := RealMax(0.0, RealMin(windowEnd, close) - RealMax(windowStart, open));
      charge := notional * r.perCycle * (overlapMs / r.cycleMs);
    }
  }

  // ----- What is charged -------------------------------------------------------------------------------------

  /** The discrete rows whose timestamp lies in the holding, both ends included. */
  function Settled(rows: seq<Row>, open: real, close: real): seq<Row> {
    if rows == [] then []
    else
      var before, r := Settled(rows[..|rows| - 1], open, close), rows[|rows| - 1];
      if r.discrete && open <= r.timestamp && r.timestamp <= close then before + [r] else before
  }

  function Accruing(rows: seq<Row>): seq<Row> {
    if rows == [] then []
    else
      var before, r := Accruing(rows[..|rows| - 1]), rows[|rows| - 1];
      if r.discrete then before else before + [r]
  }

  function Rates(rows: seq<Row>): seq<real> {
    seq(|rows|, i requires 0 <= i < |rows| => rows[i].perCycle)
  }

  lemma {:induction false} AccruingIsProper(rows: seq<Row>)
    requires AllProper(rows)
    ensures AllProper(Accruing(rows)) && forall r <- Accruing(rows) :: !r.discrete
  {
    if rows != [] {
      AccruingIsProper(rows[..|rows| - 1]);
    }
  }

  lemma DiscreteCharge(r: Row, open: real, close: real, notional: real)
    requires r.discrete
    ensures open <= r.timestamp && r.timestamp <= close ==> Charge(r, open, close, notional) == notional * r.perCycle
    ensures r.timestamp < open || close < r.timestamp ==> Charge(r, open, close, notional) == 0.0
  {
  }

  lemma {:induction false} SettledIsDiscrete(rows: seq<Row>, open: real, close: real)
    ensures AllProper(Settled(rows, open, close))
    ensures forall r <- Settled(rows, open, close) :: r.discrete && open <= r.timestamp && r.timestamp <= close
  {
    if rows != [] {
      SettledIsDiscrete(rows[..|rows| - 1], open, close);
    }
  }

  lemma KindsOfOneMore(rows: seq<Row>, r: Row, open: real, close: real)
    ensures Settled(rows + [r], open, close)
         == Settled(rows, open, close) + if r.discrete && open <= r.timestamp && r.timestamp <= close then [r] else []
    ensures Accruing(rows + [r]) == Accruing(rows) + if r.discrete then [] else [r]
  {
    assert (rows + [r])[..|rows|] == rows;
  }

  /** What the discrete rows within the holding and the accruing rows charge. */
  function PaidByKind(settled: seq<Row>, accruing: seq<Row>, open: real, close: real, notional: real): real
    requires AllProper(settled) && AllProper(accruing)
  {
    Paid(settled, open, close, notional) + Paid(accruing, open, close, notional)
  }

  lemma OneMoreByKind(settled: seq<Row>, accruing: seq<Row>, r: Row, open: real, close: real, notional: real, c: real)
    requires AllProper(settled) && AllProper(accruing) && Proper(r) && c == Charge(r, open, close, notional)
    ensures AllProper(settled + [r]) && AllProper(accruing + [r])
    ensures PaidByKind(settled + [r], accruing, open, close, notional) == PaidByKind(settled, accruing, open, close, notional) + c
    ensures PaidByKind(settled, accruing + [r], open, close, notional) == PaidByKind(settled, accruing, open, close, notional) + c
  {
    OneMoreRow(settled, r, open, close, notional);
    OneMoreRow(accruing, r, open, close, notional);
  }

  lemma {:induction false} PaidSplitsByKind(rows: seq<Row>, open: real, close: real, notional: real)
    requires AllProper(rows)
    ensures AllProper(Settled(rows, open, close)) && AllProper(Accruing(rows))
    ensures Paid(rows, open, close, notional) == PaidByKind(Settled(rows, open, close), Accruing(rows), open, close, notional)
  {
    SettledIsDiscrete(rows, open, close);
    AccruingIsProper(rows);
    if rows != [] {
      var front, r := rows[..|rows| - 1], rows[|rows| - 1];
      PaidSplitsByKind(front, open, close, notional);
      assert rows == front + [r];
      KindsOfOneMore(front, r, open, close);
      OneMoreRow(front, r, open, close, notional);
      OneMoreByKind(Settled(front, open, close), Accruing(front), r, open, close, notional, Charge(r, open, close, notional));
      if r.discrete { DiscreteCharge(r, open, close, notional); }
    }
  }

  lemma SettledChargeTheirRates(rows: seq<Row>, open: real, close: real, notional: real, rates: real)
    requires AllProper(rows) && (forall r <- rows :: r.discrete && open <= r.timestamp && r.timestamp <= close)
    requires rates == Sum(Rates(rows))
    ensures Paid(rows, open, close, notional) == notional * rates
  {
    var charges := Charges(rows, open, close, notional);
    forall i | 0 <= i < |rows|
      ensures charges[i] == notional * Rates(rows)[i]
    {
      assert rows[i] in rows;
      DiscreteCharge(rows[i], open, close, notional);
    }
    SumScales(charges, Rates(rows), notional, rates);
  }

  /** What is paid is the notional times the rates of exactly the discrete rows that fall within the holding, and
    * what the accruing rows charge.
    */
  ghost predicate SettlesAndAccrues(rows: seq<Row>, open: real, close: real, notional: real, paid: real) {
    && AllProper(Accruing(rows))
    && paid == notional * Sum(Rates(Settled(rows, open, close))) + Paid(Accruing(rows), open, close, notional)
  }

  lemma PaidIsSettledAndAccrued(rows: seq<Row>, open: real, close: real, notional: real, rates: real, paid: real)
    requires AllProper(rows) && rates == Sum(Rates(Settled(rows, open, close))) && paid == Paid(rows, open, close, notional)
    ensures SettlesAndAccrues(rows, open, close, notional, paid)
  {
    PaidSplitsByKind(rows, open, close, notional);
    var settled, accrued := Paid(Settled(rows, open, close), open, close, notional), Paid(Accruing(rows), open, close, notional);
    assert paid == settled + accrued;
    SettledIsDiscrete(rows, open, close);
    SettledChargeTheirRates(Settled(rows, open, close), open, close, notional, rates);
    Settles(rows, open, close, notional, rates, settled, accrued);
  }

  lemma Settles(rows: seq<Row>, open: real, close: real, notional: real, rates: real, settled: real, accrued: real)
    requires AllProper(Accruing(rows)) && rates == Sum(Rates(Settled(rows, open, close))) && settled == notional * rates
    requires accrued == Paid(Accruing(rows), open, close, notional)
    ensures SettlesAndAccrues(rows, open, close, notional, settled + accrued)
  {
  }

  /** At the time `x` the row accrues and the position is held. */
  predicate HeldAt(r: Row, open: real, close: real, x: real) {
    r.timestamp <= x && x <= r.timestamp + r.cycleMs && open <= x && x <= close
  }

  lemma OverlapIsHeld(r: Row, open: real, close: real, from: real, to: real)
    requires from <= to && r.cycleMs > 0.0 && forall x :: HeldAt(r, open, close, x) <==> from <= x && x <= to
    ensures Overlap(r.timestamp, r.timestamp + r.cycleMs, open, close) == to - from
  {
    var start, end := RealMax(r.timestamp, open), RealMin(r.timestamp + r.cycleMs, close);
    assert HeldAt(r, open, close, from) && HeldAt(r, open, close, to);
    assert HeldAt(r, open, close, start) && HeldAt(r, open, close, end);
  }

  lemma NothingHeld(r: Row, open: real, close: real)
    requires r.cycleMs > 0.0 && open <= close && forall x :: !HeldAt(r, open, close, x)
    ensures Overlap(r.timestamp, r.timestamp + r.cycleMs, open, close) == 0.0
  {
    assert !HeldAt(r, open, close, RealMax(r.timestamp, open));
  }

  lemma ShareOfCycle(amount: real, held: real, cycle: real, q: real)
    requires cycle > 0.0 && q == held / cycle
    ensures amount * q * cycle == amount * held
  {
    assert q * cycle == held;
    assert amount * q * cycle == amount * (q * cycle);
  }

  lemma WholeShare(held: real, cycle: real)
    requires cycle > 0.0
    ensures held == cycle ==> held / cycle == 1.0
    ensures held == 0.0 ==> held / cycle == 0.0
  {
  }

  lemma AccruedCharge(r: Row, open: real, close: real, notional: real, amount: real, held: real, q: real)
    requires !r.discrete && r.cycleMs > 0.0 && amount == notional * r.perCycle
    requires held == Overlap(r.timestamp, r.timestamp + r.cycleMs, open, close) && q == held / r.cycleMs
    ensures Charge(r, open, close, notional) == amount * q
  {
  }

  /** An accruing row charges its rate in the proportion of its cycle during which the position is held, the time
    * from `from` to `to`.
    */
  lemma AccruesWhileHeld(r: Row, open: real, close: real, notional: real, from: real, to: real, amount: real)
    requires !r.discrete && r.cycleMs > 0.0 && open <= close && amount == notional * r.perCycle
    requires from <= to && forall x :: HeldAt(r, open, close, x) <==> from <= x && x <= to
    ensures Charge(r, open, close, notional) * r.cycleMs == amount * (to - from)
  {
    OverlapIsHeld(r, open, close, from, to);
    var q := (to - from) / r.cycleMs;
    AccruedCharge(r, open, close, notional, amount, to - from, q);
    ShareOfCycle(amount, to - from, r.cycleMs, q);
  }

  /** All of it for a cycle held whole, nothing for one that is not held at all. */
  lemma WholeCycleOrNothing(r: Row, open: real, close: real, notional: real, amount: real)
    requires !r.discrete && r.cycleMs > 0.0 && open <= close && amount == notional * r.perCycle
    ensures open <= r.timestamp && r.timestamp + r.cycleMs <= close ==> Charge(r, open, close, notional) == amount
    ensures (forall x :: !HeldAt(r, open, close, x)) ==> Charge(r, open, close, notional) == 0.0
  {
    var held := Overlap(r.timestamp, r.timestamp + r.cycleMs, open, close);
    WholeShare(held, r.cycleMs);
    AccruedCharge(r, open, close, notional, amount, held, held / r.cycleMs);
    if forall x :: !HeldAt(r, open, close, x) {
      NothingHeld(r, open, close);
    }
  }

  // ----- Splitting a holding -------------------------------------------------------------------------------

  /** What a row charges for falling exactly on `at`. */
  function ChargeAt(r: Row, at: real, notional: real): real {
    if r.discrete && r.timestamp == at then notional * r.perCycle else 0.0
  }

  /** The discrete charges that fall exactly on `at`. */
  function DiscreteAt(rows: seq<Row>, at: real, notional: real): real {
    Sum(seq(|rows|, i requires 0 <= i < |rows| => ChargeAt(rows[i], at, notional)))
  }

  lemma Spread(k: real, x: real, y: real, cycle: real)
    requires cycle > 0.0
    ensures k * ((x + y) / cycle) == k * (x / cycle) + k * (y / cycle)
  {
    assert (x + y) / cycle == x / cycle + y / cycle;
  }

  lemma ChargeSplits(r: Row, a: real, b: real, c: real, notional: real)
    requires Proper(r) && a <= b <= c
    ensures Charge(r, a, c, notional) + ChargeAt(r, b, notional) == Charge(r, a, b, notional) + Charge(r, b, c, notional)
  {
    if !r.discrete {
      var start, end := r.timestamp, r.timestamp + r.cycleMs;
      assert Overlap(start, end, a, c) == Overlap(start, end, a, b) + Overlap(start, end, b, c);
      Spread(notional * r.perCycle, Overlap(start, end, a, b), Overlap(start, end, b, c), r.cycleMs);
    }
  }

  /** Closing and reopening at `b` costs the same, except that a discrete charge exactly at `b` is paid by both
    * halves: both endpoints of a holding are included.
    */
  lemma HoldingSplits(rows: seq<Row>, a: real, b: real, c: real, notional: real)
    requires AllProper(rows) && a <= b <= c
    ensures Paid(rows, a, c, notional)
         == Paid(rows, a, b, notional) + Paid(rows, b, c, notional) - DiscreteAt(rows, b, notional)
  {
    var whole, first, second :=
      Charges(rows, a, c, notional), Charges(rows, a, b, notional), Charges(rows, b, c, notional);
    var at := seq(|rows|, i requires 0 <= i < |rows| => ChargeAt(rows[i], b, notional));
    var both := seq(|rows|, i requires 0 <= i < |rows| => first[i] + second[i]);
    forall i | 0 <= i < |rows|
      ensures both[i] == whole[i] + at[i]
    {
      ChargeSplits(rows[i], a, b, c, notional);
    }
    SumAdds(both, first, second);
    SumAdds(both, whole, at);
  }

  lemma {:induction false} SumAdds(s: seq<real>, t: seq<real>, u: seq<real>)
    requires |s| == |t| == |u| && forall i :: 0 <= i < |s| ==> s[i] == t[i] + u[i]
    ensures Sum(s) == Sum(t) + Sum(u)
  {
    if s != [] {
      var n := |s| - 1;
      SumAdds(s[..n], t[..n], u[..n]);
    }
  }

  // ----- Linear in the notional, indifferent to order -----------------------------------------------------------

  lemma ChargeIsLinear(r: Row, open: real, close: real, k: real, x: real, y: real)
    requires Proper(r)
    ensures Charge(r, open, close, k * x + y) == k * Charge(r, open, close, x) + Charge(r, open, close, y)
  {
    if r.discrete {
      Linear(k, x, y, r.perCycle, 1.0);
    } else {
      Linear(k, x, y, r.perCycle, Overlap(r.timestamp, r.timestamp + r.cycleMs, open, close) / r.cycleMs);
    }
  }

  lemma Linear(k: real, x: real, y: real, p: real, q: real)
    ensures (k * x + y) * p * q == k * (x * p * q) + y * p * q
  {
    var z := p * q;
    assert x * p * q == x * z && y * p * q == y * z && (k * x + y) * p * q == (k * x + y) * z;
    assert (k * x + y) * z == k * (x * z) + y * z;
  }

  lemma ChargesAreLinear(rows: seq<Row>, open: real, close: real, k: real, x: real, y: real, z: real)
    requires AllProper(rows) && z == k * x + y
    ensures forall i :: 0 <= i < |rows| ==>
              Charges(rows, open, close, z)[i]
              == k * Charges(rows, open, close, x)[i] + Charges(rows, open, close, y)[i]
  {
    forall i | 0 <= i < |rows|
      ensures Charge(rows[i], open, close, z)
           == k * Charge(rows[i], open, close, x) + Charge(rows[i], open, close, y)
    {
      ChargeIsLinear(rows[i], open, close, k, x, y);
    }
  }

  lemma PaidIsLinear(rows: seq<Row>, open: real, close: real, k: real, x: real, y: real)
    requires AllProper(rows)
    ensures Paid(rows, open, close, k * x + y) == k * Paid(rows, open, close, x) + Paid(rows, open, close, y)
  {
    var z := k * x + y;
    ChargesAreLinear(rows, open, close, k, x, y, z);
    SumCombines(Charges(rows, open, close, z), Charges(rows, open, close, x), Charges(rows, open, close, y), k);
  }

  function Without<T>(s: seq<T>, i: nat): seq<T>
    requires i < |s|
  {
    s[..i] + s[i + 1..]
  }

  lemma {:induction false} OneOut(s: seq<real>, i: nat)
    requires i < |s|
    ensures Sum(s) == Sum(Without(s, i)) + s[i]
  {
    var n := |s| - 1;
    if i == n {
      assert Without(s, i) == s[..n];
    } else {
      OneOut(s[..n], i);
      assert Without(s, i)[..n - 1] == Without(s[..n], i);
    }
  }

  lemma OneRowOut(rows: seq<Row>, i: nat, open: real, close: real, notional: real)
    requires AllProper(rows) && i < |rows|
    ensures AllProper(Without(rows, i))
    ensures Paid(rows, open, close, notional)
         == Paid(Without(rows, i), open, close, notional) + Charge(rows[i], open, close, notional)
  {
    assert forall r <- Without(rows, i) :: r in rows;
    var charges := Charges(rows, open, close, notional);
    OneOut(charges, i);
    assert Without(charges, i) == Charges(Without(rows, i), open, close, notional);
  }

  lemma Partner(rows: seq<Row>, other: seq<Row>) returns (i: nat)
    requires multiset(rows) == multiset(other) && rows != []
    ensures i < |other| && other[i] == rows[|rows| - 1]
    ensures multiset(Without(rows, |rows| - 1)) == multiset(Without(other, i))
  {
    assert rows[|rows| - 1] in multiset(other);
    i :| 0 <= i < |other| && other[i] == rows[|rows| - 1];
    OneFewer(rows, |rows| - 1);
    OneFewer(other, i);
  }

  lemma OneFewer<T>(s: seq<T>, i: nat)
    requires i < |s|
    ensures multiset(Without(s, i)) == multiset(s) - multiset{s[i]}
  {
    assert s == s[..i] + [s[i]] + s[i + 1..];
  }

  /** The order of the rows does not matter. */
  lemma {:induction false} PaidIgnoresOrder(rows: seq<Row>, other: seq<Row>, open: real, close: real, notional: real)
    requires AllProper(rows) && AllProper(other) && multiset(rows) == multiset(other)
    ensures Paid(rows, open, close, notional) == Paid(other, open, close, notional)
    decreases |rows|
  {
    if rows == [] {
      assert |multiset(other)| == 0;
    } else {
      var n := |rows| - 1;
      var i := Partner(rows, other);
      OneRowOut(rows, n, open, close, notional);
      OneRowOut(other, i, open, close, notional);
      PaidIgnoresOrder(Without(rows, n), Without(other, i), open, close, notional);
    }
  }

  // ----- An even rate ---------------------------------------------------------------------------------------------

  /** `per_hour_view` of an accruing row. */
  function PerHour(r: Row): real
    requires r.cycleMs > 0.0
  {
    r.perCycle / (r.cycleMs / HOUR_MS)
  }

  /** Accruing rows that cover `from` to `to` end to end. */
  ghost predicate Tiles(rows: seq<Row>, from: real, to: real) {
    if rows == [] then from == to
    else
      var r := rows[|rows| - 1];
      && !r.discrete && r.cycleMs > 0.0
      && to == r.timestamp + r.cycleMs
      && Tiles(rows[..|rows| - 1], from, r.timestamp)
  }

  ghost predicate Even(r: Row, rate: real) {
    !r.discrete && r.cycleMs > 0.0 && PerHour(r) == rate
  }

  function Overlaps(rows: seq<Row>, open: real, close: real): seq<real> {
    seq(|rows|, i requires 0 <= i < |rows| => Overlap(rows[i].timestamp, rows[i].timestamp + rows[i].cycleMs, open, close))
  }

  lemma OverlapsJoin(from: real, seam: real, to: real, open: real, close: real)
    requires from <= seam <= to && open <= close
    ensures Overlap(from, to, open, close) == Overlap(from, seam, open, close) + Overlap(seam, to, open, close)
  {
  }

  lemma {:induction false} TilesOverlapAsOne(rows: seq<Row>, from: real, to: real, open: real, close: real)
    requires Tiles(rows, from, to) && open <= close
    ensures Sum(Overlaps(rows, open, close)) == Overlap(from, to, open, close) && from <= to
  {
    if rows != [] {
      var n := |rows| - 1;
      TilesOverlapAsOne(rows[..n], from, rows[n].timestamp, open, close);
      OverlapsJoin(from, rows[n].timestamp, to, open, close);
      assert Overlaps(rows, open, close)[..n] == Overlaps(rows[..n], open, close);
    }
  }

  lemma ChargeByTheHour(r: Row, open: real, close: real, notional: real, perMs: real)
    requires !r.discrete && r.cycleMs > 0.0 && perMs == notional * PerHour(r) / HOUR_MS
    ensures Charge(r, open, close, notional) == perMs * Overlap(r.timestamp, r.timestamp + r.cycleMs, open, close)
  {
    Hourly(notional, r.perCycle, r.cycleMs, Overlap(r.timestamp, r.timestamp + r.cycleMs, open, close));
  }

  lemma Hourly(n: real, p: real, cycle: real, overlap: real)
    requires cycle > 0.0
    ensures n * p * (overlap / cycle) == n * (p / (cycle / HOUR_MS)) / HOUR_MS * overlap
  {
    var perMs := p / cycle;
    assert p / (cycle / HOUR_MS) == perMs * HOUR_MS by {
      var hours := cycle / HOUR_MS;
      assert perMs * HOUR_MS * hours == p;
    }
    assert n * (perMs * HOUR_MS) / HOUR_MS == n * perMs;
    assert p == perMs * cycle;
    assert cycle * (overlap / cycle) == overlap;
    Regroup(n, perMs, cycle, overlap / cycle);
  }

  lemma Regroup(n: real, p: real, c: real, q: real)
    ensures n * (p * c) * q == n * p * (c * q)
  {
  }

  /** Every element of `s` is `k` times that of `t`. */
  ghost predicate Scaled(s: seq<real>, t: seq<real>, k: real) {
    |s| == |t| && forall i :: 0 <= i < |s| ==> s[i] == k * t[i]
  }

  lemma {:induction false} SumScales(s: seq<real>, t: seq<real>, k: real, total: real)
    requires Scaled(s, t, k) && total == Sum(t)
    ensures Sum(s) == k * total
  {
    if s != [] {
      var n := |s| - 1;
      var front := Sum(t[..n]);
      SumScales(s[..n], t[..n], k, front);
      ScaledParts(k, front, t[n], Sum(s[..n]), s[n], total);
    }
  }

  lemma ScaledParts(k: real, x: real, y: real, kx: real, ky: real, total: real)
    requires kx == k * x && ky == k * y && total == x + y
    ensures kx + ky == k * total
  {
    Distribute(k, x, y);
  }

  /** `perMs` is what the notional is charged per millisecond at an hourly rate. */
  ghost predicate PerMillisecond(notional: real, rate: real, perMs: real) {
    perMs == notional * rate / HOUR_MS
  }

  lemma ChargesByTheHour(rows: seq<Row>, rate: real, open: real, close: real, notional: real, perMs: real)
    requires (forall r <- rows :: Even(r, rate)) && AllProper(rows) && PerMillisecond(notional, rate, perMs)
    ensures Scaled(Charges(rows, open, close, notional), Overlaps(rows, open, close), perMs)
  {
    forall i | 0 <= i < |rows|
      ensures Charge(rows[i], open, close, notional) == perMs * Overlaps(rows, open, close)[i]
    {
      assert rows[i] in rows && Even(rows[i], rate);
      ChargeByTheHour(rows[i], open, close, notional, perMs);
    }
  }

  /** Tiled rows charge the notional, times the hourly rate, times the hours held within the tiling: `perMs` is
    * the charge per millisecond and `heldMs` the milliseconds held.
    */
  lemma EvenRateChargesByTheHour(rows: seq<Row>, from: real, to: real, rate: real,
                                 open: real, close: real, notional: real, perMs: real, heldMs: real)
    requires Tiles(rows, from, to) && AllProper(rows) && open <= close
    requires forall r <- rows :: Even(r, rate)
    requires PerMillisecond(notional, rate, perMs) && heldMs == Overlap(from, to, open, close)
    ensures Paid(rows, open, close, notional) == perMs * heldMs
  {
    ChargesByTheHour(rows, rate, open, close, notional, perMs);
    TiledTotal(rows, from, to, open, close, Charges(rows, open, close, notional), perMs, heldMs);
  }

  lemma TiledTotal(rows: seq<Row>, from: real, to: real, open: real, close: real, charges: seq<real>, perMs: real, heldMs: real)
    requires Tiles(rows, from, to) && open <= close && Scaled(charges, Overlaps(rows, open, close), perMs)
    requires heldMs == Overlap(from, to, open, close)
    ensures Sum(charges) == perMs * heldMs
  {
    TilesOverlapAsOne(rows, from, to, open, close);
    SumScales(charges, Overlaps(rows, open, close), perMs, heldMs);
  }
}
