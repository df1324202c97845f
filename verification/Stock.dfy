/** The stock ledger and its weighted-average (PMP) valuation
    (backend/internal/catalog/domain.go:118-201, store.go:297-316). Amounts are
    mathematical integers. */
module Stock {

  datatype Move = Move(product: int, warehouse: int, qty: int, unitCost: int, reason: string)

  const REASONS: set<string> :=
    {"receipt", "shipment", "adjust_in", "adjust_out", "transfer_in", "transfer_out", "consume", "produce"}

  /** StockMovement.Validate. */
  predicate ValidMove(m: Move) {
    m.product != 0 && m.warehouse != 0 && m.qty != 0 && m.unitCost >= 0 && m.reason in REASONS
  }

  /** On-hand quantity and its value. */
  datatype Level = Level(qty: int, value: int)

  const NOTHING: Level := Level(0, 0)

  /** Go's division by a positive number: toward zero. */
  function Truncated(n: int, d: int): int
    requires d > 0
  {
    if n < 0 then -(-n / d) else n / d
  }

  /** StockLevel.PMP. */
  function Pmp(l: Level): int {
    if l.qty <= 0 then 0 else Truncated(l.value + l.qty / 2, l.qty)
  }

  /** The value left after taking `out` units out. */
  function ValueAfterIssue(l: Level, out: int): int {
    var value := l.value - Pmp(l) * out;
    if l.qty - out == 0 || value < 0 then 0 else value
  }

  /** The level after a movement that the guard lets through. */
  function After(l: Level, m: Move): Level {
    if m.qty > 0 then Level(l.qty + m.qty, l.value + m.qty * m.unitCost)
    else Level(l.qty + m.qty, ValueAfterIssue(l, -m.qty))
  }

  datatype Error = Invalid | Insufficient

  datatype Outcome<+T> = Done(value: T) | Failed(error: Error)

  function Apply(l: Level, m: Move, allowNegative: bool): Outcome<Level> {
    if !ValidMove(m) then Failed(Invalid)
    else if l.qty + m.qty < 0 && !allowNegative then Failed(Insufficient)
    else Done(After(l, m))
  }

  // ----- The store -----

  datatype Key = Key(product: int, warehouse: int)

  datatype State = State(levels: map<Key, Level>, moves: seq<Move>)

  const EMPTY: State := State(map[], [])

  function KeyOf(m: Move): Key {
    Key(m.product, m.warehouse)
  }

  function LevelAt(s: State, k: Key): Level {
    if k in s.levels then s.levels[k] else NOTHING
  }

  /** MemoryStore.AppendMovement. */
  function Append(s: State, m: Move, allowNegative: bool): (State, Outcome<Level>) {
    var r := Apply(LevelAt(s, KeyOf(m)), m, allowNegative);
    if r.Failed? then (s, r) else (State(s.levels[KeyOf(m) := r.value], s.moves + [m]), r)
  }

  class Store {
    var levels: map<Key, Level>
    var moves: seq<Move>

    ghost function Abs(): State
      reads this
    {
      State(levels, moves)
    }

    constructor ()
      ensures Abs() == EMPTY
    {
      levels, moves := map[], [];
    }

    method AppendMovement(m: Move, allowNegative: bool) returns (r: Outcome<Level>)
      modifies this
      ensures (Abs(), r) == Append(old(Abs()), m, allowNegative)
    {
      var k := Key(m.product, m.warehouse);
      var level := if k in levels then levels[k] else NOTHING;
      r := Apply(level, m, allowNegative);
      if r.Done? {
        moves := moves + [m];
        levels := levels[k := r.value];
      }
    }
  }

  datatype Op = Op(move: Move, allowNegative: bool)

  function Run(s: State, ops: seq<Op>): State {
    if ops == [] then s else Append(Run(s, ops[..|ops| - 1]), ops[|ops| - 1].move, ops[|ops| - 1].allowNegative).0
  }

  // ----- The level is derived from the ledger -----

  /** The movements of one product in one warehouse. */
  function MovesOf(moves: seq<Move>, k: Key): seq<Move> {
    if moves == [] then []
    else
      var m := moves[|moves| - 1];
      MovesOf(moves[..|moves| - 1], k) + if m.product == k.product && m.warehouse == k.warehouse then [m] else []
  }

  function Replay(moves: seq<Move>): Level {
    if moves == [] then NOTHING else After(Replay(moves[..|moves| - 1]), moves[|moves| - 1])
  }

  function QtySum(moves: seq<Move>): int {
    if moves == [] then 0 else QtySum(moves[..|moves| - 1]) + moves[|moves| - 1].qty
  }

  predicate AllValid(moves: seq<Move>) {
    forall i :: 0 <= i < |moves| ==> ValidMove(moves[i])
  }

  /** Every level is what replaying its own movements gives. */
  ghost predicate Derived(s: State) {
    AllValid(s.moves) && forall k :: LevelAt(s, k) == Replay(MovesOf(s.moves, k))
  }

  lemma MovesOfAppend(moves: seq<Move>, m: Move, k: Key)
    ensures MovesOf(moves + [m], k) == MovesOf(moves, k) + if KeyOf(m) == k then [m] else []
  {
    assert (moves + [m])[..|moves|] == moves;
  }

  lemma ReplayAppend(moves: seq<Move>, m: Move)
    ensures Replay(moves + [m]) == After(Replay(moves), m)
  {
    assert (moves + [m])[..|moves|] == moves;
  }

  lemma AppendDerived(s: State, op: Op)
    requires Derived(s)
    ensures Derived(Append(s, op.move, op.allowNegative).0)
  {
    var t := Append(s, op.move, op.allowNegative).0;
    hide After, Replay, MovesOf;
    if t != s {
      forall k
        ensures LevelAt(t, k) == Replay(MovesOf(t.moves, k))
      {
        MovesOfAppend(s.moves, op.move, k);
        ReplayAppend(MovesOf(s.moves, k), op.move);
        assert MovesOf(s.moves, k) + [] == MovesOf(s.moves, k);
      }
    }
  }

  lemma {:induction false} RunDerived(ops: seq<Op>)
    ensures Derived(Run(EMPTY, ops))
  {
    if ops == [] {
      assert forall k :: MovesOf([], k) == [];
    } else {
      RunDerived(ops[..|ops| - 1]);
      AppendDerived(Run(EMPTY, ops[..|ops| - 1]), ops[|ops| - 1]);
    }
  }

  /** The value is never negative, and empty stock has no value unless the quantity went
      below zero. */
  predicate Sound(l: Level) {
    l.value >= 0 && (l.qty == 0 ==> l.value == 0)
  }

  lemma AfterSound(l: Level, m: Move)
    requires ValidMove(m) && l.value >= 0
    ensures After(l, m).value >= 0 && After(l, m).qty == l.qty + m.qty
    ensures l.qty >= 0 && Sound(l) ==> Sound(After(l, m))
  {
    if m.qty > 0 {
      assert m.qty * m.unitCost >= 0;
    }
  }

  lemma {:induction false} ReplayQty(moves: seq<Move>)
    requires AllValid(moves)
    ensures Replay(moves).qty == QtySum(moves) && Replay(moves).value >= 0
  {
    if moves != [] {
      ReplayQty(moves[..|moves| - 1]);
      AfterSound(Replay(moves[..|moves| - 1]), moves[|moves| - 1]);
    }
  }

  lemma {:induction false} MovesOfValid(moves: seq<Move>, k: Key)
    requires AllValid(moves)
    ensures AllValid(MovesOf(moves, k))
  {
    if moves != [] {
      MovesOfValid(moves[..|moves| - 1], k);
      assert ValidMove(moves[|moves| - 1]);
    }
  }

  predicate Strict(ops: seq<Op>) {
    forall i :: 0 <= i < |ops| ==> !ops[i].allowNegative
  }

  ghost predicate InStock(s: State) {
    forall k :: LevelAt(s, k).qty >= 0 && Sound(LevelAt(s, k))
  }

  lemma {:induction false} StrictRun(ops: seq<Op>)
    requires Strict(ops)
    ensures InStock(Run(EMPTY, ops))
  {
    if ops != [] {
      var s, op := Run(EMPTY, ops[..|ops| - 1]), ops[|ops| - 1];
      StrictRun(ops[..|ops| - 1]);
      var t := Append(s, op.move, op.allowNegative).0;
      AfterSound(LevelAt(s, KeyOf(op.move)), if ValidMove(op.move) then op.move else Move(1, 1, 1, 0, "receipt"));
      hide After;
      assert Run(EMPTY, ops) == t;
      forall k
        ensures LevelAt(t, k).qty >= 0 && Sound(LevelAt(t, k))
      {
        assert LevelAt(s, k).qty >= 0 && Sound(LevelAt(s, k));
      }
    }
  }

  /** Along every run each quantity is the sum of its movements and no value is negative;
      if negative stock is never allowed, no quantity is negative either and empty stock
      has no value. */
  lemma StockRuns(ops: seq<Op>, k: Key)
    ensures var s := Run(EMPTY, ops);
            && LevelAt(s, k).qty == QtySum(MovesOf(s.moves, k)) && LevelAt(s, k).value >= 0
            && (Strict(ops) ==> LevelAt(s, k).qty >= 0 && Sound(LevelAt(s, k)))
  {
    RunDerived(ops);
    var s := Run(EMPTY, ops);
    MovesOfValid(s.moves, k);
    ReplayQty(MovesOf(s.moves, k));
    if Strict(ops) {
      StrictRun(ops);
    }
  }

  /** When stock was below zero, a receipt that brings it to exactly zero leaves it without
      value exactly if there was none and the receipt is free. */
  lemma RefillFromBelowZero(l: Level, m: Move)
    requires ValidMove(m) && l.value >= 0 && l.qty < 0 && l.qty + m.qty == 0
    ensures Sound(After(l, m)) <==> l.value == 0 && m.unitCost == 0
  {
    if m.unitCost > 0 {
      assert m.qty * m.unitCost > 0;
    }
  }

  /** So with negative stock allowed, empty stock can be left with a value. */
  lemma ValueWithoutStock()
    ensures var ops := [Op(Move(1, 1, -5, 0, "shipment"), true), Op(Move(1, 1, 5, 3, "receipt"), true)];
            LevelAt(Run(EMPTY, ops), Key(1, 1)) == Level(0, 15)
  {
    var a, b := Op(Move(1, 1, -5, 0, "shipment"), true), Op(Move(1, 1, 5, 3, "receipt"), true);
    assert [a, b][..1] == [a] && [a][..0] == [];
    assert Run(EMPTY, [a]) == Append(EMPTY, a.move, true).0;
    assert Append(EMPTY, a.move, true).0 == State(map[Key(1, 1) := Level(-5, 0)], [a.move]);
  }

  // ----- How far rounding can drift -----

  /** |2 d| <= bound. */
  predicate HalfWithin(d: int, bound: int) {
    -bound <= d + d <= bound
  }

  /** The unit cost is the average rounded half up. */
  lemma PmpRounds(l: Level)
    requires l.qty > 0 && l.value >= 0
    ensures HalfWithin(l.value - Pmp(l) * l.qty, l.qty) && Pmp(l) >= 0
  {
    var n, p := l.value + l.qty / 2, Pmp(l);
    assert n == l.qty * (n / l.qty) + n % l.qty;
    assert p * l.qty == l.qty * (n / l.qty);
  }

  lemma Distribute(a: int, x: int, y: int)
    ensures a * (x - y) == a * x - a * y == (x - y) * a
  {}

  lemma Reorder(a: int, b: int, c: int)
    ensures a * (b * c) == c * (b * a) == a * b * c
  {}

  lemma Grows(a: int, b: int, x: int)
    requires a <= b && x >= 0
    ensures a * x <= b * x && x * a <= x * b
  {}

  lemma Scaled(c: int, d: int, bound: int)
    requires c >= 0 && HalfWithin(d, bound)
    ensures HalfWithin(c * d, c * bound)
  {
    Grows(-bound, d + d, c);
    Grows(d + d, bound, c);
    Distribute(c, d, -d);
    Distribute(c, 0, bound);
  }

  lemma Unscaled(c: int, d: int, bound: int)
    requires c > 0 && HalfWithin(c * d, c * bound)
    ensures HalfWithin(d, bound)
  {
    Distribute(c, d, -d);
    Distribute(c, 0, bound);
    if d + d > bound {
      Strictly(bound, d + d, c);
    } else if d + d < -bound {
      Strictly(d + d, -bound, c);
    }
  }

  lemma Strictly(a: int, b: int, c: int)
    requires a < b && c > 0
    ensures c * a < c * b
  {}

  lemma IssueError(v: int, p: int, q: int, out: int)
    ensures (v - p * out) * q - v * (q - out) == out * (v - p * q)
  {
    Distribute(q, v, p * out);
    Distribute(v, q, out);
    Distribute(out, v, p * q);
    Reorder(q, p, out);
  }

  /** One issue moves the average by at most half a minor unit per unit issued:
      V'Q and VQ' differ by at most out * Q / 2, whether or not the value was clamped. */
  lemma IssueDrift(l: Level, out: int)
    requires 0 < out <= l.qty && l.value >= 0
    ensures HalfWithin(ValueAfterIssue(l, out) * l.qty - l.value * (l.qty - out), out * l.qty)
  {
    var q, v, p := l.qty, l.value, Pmp(l);
    PmpRounds(l);
    IssueError(v, p, q, out);
    Scaled(out, v - p * q, q);
    Grows(0, q - out, v);
    hide Pmp;
    if v - p * out < 0 {
      Strictly(v - p * out, 0, q);
    }
  }

  /** A movement succeeds exactly if it names a product and a warehouse, moves something at a
      cost that is not negative for one of the eight reasons, and does not take the quantity
      below zero where that is forbidden. A receipt adds its cost. An issue takes out its share
      of the value at the average rounded half up, or everything when nothing is left on hand;
      without stock it takes no value out. */
  lemma ApplyIff(l: Level, m: Move, allowNegative: bool)
    requires l.value >= 0
    ensures var r := Apply(l, m, allowNegative);
            && (r.Done? <==>
                  && m.product != 0 && m.warehouse != 0 && m.qty != 0 && m.unitCost >= 0
                  && m.reason in {"receipt", "shipment", "adjust_in", "adjust_out", "transfer_in", "transfer_out",
                                  "consume", "produce"}
                  && (l.qty + m.qty >= 0 || allowNegative))
            && (r == Failed(Insufficient) ==> l.qty + m.qty < 0 && !allowNegative)
            && (r.Done? ==> r.value.qty == l.qty + m.qty)
            && (r.Done? && m.qty > 0 ==> r.value.value == l.value + m.qty * m.unitCost)
            && (r.Done? && m.qty < 0 ==>
                  if l.qty + m.qty == 0 then r.value.value == 0
                  else if l.qty <= 0 then r.value.value == l.value
                  else
                    exists average: int ::
                      && IsAverage(average, l)
                      && r.value.value == if l.value + average * m.qty > 0 then l.value + average * m.qty else 0)
  {
    if l.qty > 0 {
      PmpIsAverage(l);
    }
    if m.qty < 0 {
      Distribute(Pmp(l), 0, -m.qty);
    }
    hide IsAverage;
  }

  /** The value per unit, halves going up. */
  predicate IsAverage(average: int, l: Level) {
    2 * average * l.qty - l.qty <= 2 * l.value < 2 * average * l.qty + l.qty
  }

  lemma PmpIsAverage(l: Level)
    requires l.qty > 0 && l.value >= 0
    ensures IsAverage(Pmp(l), l)
  {
    var n := l.value + l.qty / 2;
    assert n == l.qty * (n / l.qty) + n % l.qty;
  }

  /** A series of issues from one level. */
  function Issues(l: Level, outs: seq<int>): Level {
    if outs == [] then l
    else
      var before, out := Issues(l, outs[..|outs| - 1]), outs[|outs| - 1];
      Level(before.qty - out, ValueAfterIssue(before, out))
  }

  predicate Covered(l: Level, outs: seq<int>) {
    outs == [] || (Covered(l, outs[..|outs| - 1]) && 0 < outs[|outs| - 1] <= Issues(l, outs[..|outs| - 1]).qty)
  }

  function UnitsOut(outs: seq<int>): int {
    if outs == [] then 0 else UnitsOut(outs[..|outs| - 1]) + outs[|outs| - 1]
  }

  lemma {:induction false} IssuesQty(l: Level, outs: seq<int>)
    requires Covered(l, outs) && l.qty >= 0 && l.value >= 0
    ensures 0 <= Issues(l, outs).qty == l.qty - UnitsOut(outs) <= l.qty && Issues(l, outs).value >= 0
  {
    if outs != [] {
      IssuesQty(l, outs[..|outs| - 1]);
    }
  }

  /** The drift of many issues adds up to no more than that of one: from (Q0, V0) to
      (Qn, Vn), twice the cross difference is at most Q0 times the units issued. */
  lemma {:induction false} IssuesDrift(l: Level, outs: seq<int>)
    requires Covered(l, outs) && l.qty >= 0 && l.value >= 0
    ensures var n := Issues(l, outs);
            && n.qty == l.qty - UnitsOut(outs)
            && HalfWithin(n.value * l.qty - l.value * n.qty, UnitsOut(outs) * l.qty)
  {
    IssuesQty(l, outs);
    if outs != [] {
      var k, out := Issues(l, outs[..|outs| - 1]), outs[|outs| - 1];
      IssuesDrift(l, outs[..|outs| - 1]);
      IssuesQty(l, outs[..|outs| - 1]);
      IssueDrift(k, out);
      DriftAdds(l.qty, l.value, k.qty, k.value, k.qty - out, ValueAfterIssue(k, out));
    }
  }

  lemma CrossSum(q0: int, v0: int, q: int, v: int, q': int, v': int)
    ensures q * (v' * q0 - v0 * q') == q' * (v * q0 - v0 * q) + q0 * (v' * q - v * q')
  {
    Distribute(q, v' * q0, v0 * q');
    Distribute(q', v * q0, v0 * q);
    Distribute(q0, v' * q, v * q');
    Reorder(q, v', q0);
    Reorder(q, v0, q');
    Reorder(q', v, q0);
  }

  lemma BoundSum(q0: int, q: int, q': int)
    requires 0 <= q' < q <= q0
    ensures q' * ((q0 - q) * q0) + q0 * ((q - q') * q) <= q * ((q0 - q') * q0)
  {
    Grows(0, q0 - q, q0);
    Grows(q', q, (q0 - q) * q0);
    Reorder(q0, q - q', q);
    Distribute(q0, q0 - q, q' - q);
    Distribute(q, (q0 - q) * q0, (q' - q) * q0);
    Distribute(q0, q' - q, 0);
    Distribute(q0, 0, q - q');
  }

  lemma DriftAdds(q0: int, v0: int, q: int, v: int, q': int, v': int)
    requires 0 <= q' < q <= q0
    requires HalfWithin(v * q0 - v0 * q, (q0 - q) * q0)
    requires HalfWithin(v' * q - v * q', (q - q') * q)
    ensures HalfWithin(v' * q0 - v0 * q', (q0 - q') * q0)
  {
    CrossSum(q0, v0, q, v, q', v');
    BoundSum(q0, q, q');
    Scaled(q', v * q0 - v0 * q, (q0 - q) * q0);
    Scaled(q0, v' * q - v * q', (q - q') * q);
    Unscaled(q, v' * q0 - v0 * q', (q0 - q') * q0);
  }

  // ----- Against the exact weighted average -----

  function ExactAfter(x: real, q: int, m: Move): real {
    if m.qty > 0 then x + (m.qty * m.unitCost) as real
    else if q + m.qty <= 0 then 0.0
    else x * ((q + m.qty) as real / q as real)
  }

  /** The value an unrounded weighted average would give. */
  function ExactValue(moves: seq<Move>): real {
    if moves == [] then 0.0
    else
      var before := moves[..|moves| - 1];
      ExactAfter(ExactValue(before), QtySum(before), moves[|moves| - 1])
  }

  /** Units issued so far. */
  function Issued(moves: seq<Move>): int {
    if moves == [] then 0
    else Issued(moves[..|moves| - 1]) + if moves[|moves| - 1].qty < 0 then -moves[|moves| - 1].qty else 0
  }

  predicate NeverShort(moves: seq<Move>) {
    moves == [] || (NeverShort(moves[..|moves| - 1]) && QtySum(moves) >= 0)
  }

  /** |2 (v - x)| <= bound. */
  predicate Near(v: int, x: real, bound: int) {
    var gap := v as real - x;
    -(bound as real) <= gap + gap <= bound as real
  }

  /** Over any history that never goes short, the stored value differs from the exact
      weighted-average value by at most half a minor unit per unit issued. */
  lemma {:induction false} ValueTracksExact(moves: seq<Move>)
    requires AllValid(moves) && NeverShort(moves)
    ensures ExactValue(moves) >= 0.0 && Near(Replay(moves).value, ExactValue(moves), Issued(moves))
  {
    if moves != [] {
      var before, m := moves[..|moves| - 1], moves[|moves| - 1];
      ValueTracksExact(before);
      ReplayQty(before);
      assert ValidMove(m) && QtySum(moves) == QtySum(before) + m.qty;
      assert Issued(before) >= 0 by {
        IssuedNotNegative(before);
      }
      assert m.qty != 0 && m.unitCost >= 0;
      hide ValidMove, After, ExactAfter, Near;
      MoveTracks(Replay(before), m, ExactValue(before), Issued(before));
    } else {
      assert Near(0, 0.0, 0);
    }
  }

  lemma {:induction false} StrictNeverShort(ops: seq<Op>, k: Key)
    requires Strict(ops)
    ensures NeverShort(MovesOf(Run(EMPTY, ops).moves, k))
  {
    if ops != [] {
      var s, op := Run(EMPTY, ops[..|ops| - 1]), ops[|ops| - 1];
      StrictNeverShort(ops[..|ops| - 1], k);
      StockRuns(ops, k);
      AppendMoves(s, op, k);
      hide Append, QtySum, MovesOf, Strict, LevelAt, Sound;
      ShortStep(MovesOf(s.moves, k), op.move);
    }
  }

  lemma AppendMoves(s: State, op: Op, k: Key)
    ensures var was, now := MovesOf(s.moves, k), MovesOf(Append(s, op.move, op.allowNegative).0.moves, k);
            now == was || now == was + [op.move]
  {
    MovesOfAppend(s.moves, op.move, k);
    assert MovesOf(s.moves, k) + [] == MovesOf(s.moves, k);
    hide Apply, MovesOf;
  }

  lemma ShortStep(before: seq<Move>, m: Move)
    requires NeverShort(before)
    ensures NeverShort(before + [m]) <==> QtySum(before + [m]) >= 0
  {
    assert (before + [m])[..|before|] == before;
    hide QtySum;
  }

  /** In every run that never allows negative stock, each level's value stays within half a
      minor unit per issued unit of the exact weighted average. */
  lemma LevelsTrackExact(ops: seq<Op>, k: Key)
    requires Strict(ops)
    ensures var s := Run(EMPTY, ops);
            Near(LevelAt(s, k).value, ExactValue(MovesOf(s.moves, k)), Issued(MovesOf(s.moves, k)))
  {
    var s := Run(EMPTY, ops);
    RunDerived(ops);
    StrictNeverShort(ops, k);
    MovesOfValid(s.moves, k);
    ValueTracksExact(MovesOf(s.moves, k));
  }

  lemma {:induction false} IssuedNotNegative(moves: seq<Move>)
    ensures Issued(moves) >= 0
  {
    if moves != [] {
      IssuedNotNegative(moves[..|moves| - 1]);
    }
  }

  lemma MoveTracks(l: Level, m: Move, x: real, issued: int)
    requires m.qty != 0 && m.unitCost >= 0 && l.qty >= 0 && l.qty + m.qty >= 0 && l.value >= 0 && x >= 0.0
    requires Near(l.value, x, issued) && issued >= 0
    ensures ExactAfter(x, l.qty, m) >= 0.0
    ensures Near(After(l, m).value, ExactAfter(x, l.qty, m), issued + if m.qty < 0 then -m.qty else 0)
  {
    hide Pmp, ValueAfterIssue, HalfWithin;
    if m.qty > 0 {
      ReceiptTracks(l.value, x, m.qty * m.unitCost, issued);
      Grows(0, m.unitCost, m.qty);
    } else {
      var out := -m.qty;
      IssueDrift(l, out);
      EmptyNear(l, out, issued);
      hide Near;
      if out < l.qty {
        IssueTracks(l.value, x, l.qty, out, ValueAfterIssue(l, out), issued);
      }
    }
  }

  lemma ReceiptTracks(v: int, x: real, more: int, issued: int)
    requires Near(v, x, issued)
    ensures Near(v + more, x + more as real, issued)
  {}

  lemma EmptyNear(l: Level, out: int, issued: int)
    requires issued >= 0 && out > 0
    ensures l.qty - out == 0 ==> ValueAfterIssue(l, out) == 0 && Near(0, 0.0, issued + out)
  {}

  lemma IssueTracks(v: int, x: real, q: int, out: int, v': int, issued: int)
    requires 0 < out < q && x >= 0.0
    requires HalfWithin(v' * q - v * (q - out), out * q) && Near(v, x, issued)
    ensures var y := x * ((q - out) as real / q as real);
            y >= 0.0 && Near(v', y, issued + out)
  {
    var ratio := (q - out) as real / q as real;
    var vr, gap := v as real, v as real - x;
    Ratio(q - out, q);
    NotNegative(x, ratio);
    StepBound(v, q, out, v', ratio);
    Shrinks(gap + gap, ratio, issued as real);
    RealDistribute(ratio, vr, x);
    RealDistribute(ratio, gap, -gap);
    assert v' as real - x * ratio == (v' as real - vr * ratio) + (vr * ratio - x * ratio);
  }

  lemma NotNegative(x: real, y: real)
    requires x >= 0.0 && y >= 0.0
    ensures x * y >= 0.0
  {}

  lemma RealDistribute(a: real, x: real, y: real)
    ensures a * (x - y) == a * x - a * y == x * a - y * a
  {}

  lemma Ratio(a: int, b: int)
    requires 0 <= a <= b && b > 0
    ensures var r := a as real / b as real; 0.0 <= r <= 1.0 && r * b as real == a as real
  {}

  /** The rounding error of one issue, as a real value. */
  lemma StepBound(v: int, q: int, out: int, v': int, ratio: real)
    requires q > 0 && ratio * q as real == (q - out) as real
    requires HalfWithin(v' * q - v * (q - out), out * q)
    ensures var step := v' as real - v as real * ratio; -(out as real) <= step + step <= out as real
  {
    var qr, vr := q as real, v as real;
    var step := v' as real - vr * ratio;
    RealDistribute(qr, v' as real, vr * ratio);
    RealReorder(vr, ratio, qr);
    AsReal(v', q);
    AsReal(v, q - out);
    AsReal(out, q);
    assert qr * step == (v' * q - v * (q - out)) as real;
    RealDistribute(qr, step, -step);
    RealCancel(step + step, out as real, qr);
    RealCancel(-(step + step), out as real, qr);
    RealDistribute(qr, 0.0, step + step);
  }

  lemma AsReal(a: int, b: int)
    ensures a as real * b as real == (a * b) as real
  {}

  lemma RealReorder(a: real, b: real, c: real)
    ensures c * (a * b) == a * (b * c)
  {}

  lemma RealCancel(x: real, y: real, c: real)
    requires c > 0.0 && c * x <= y * c
    ensures x <= y
  {}

  lemma Shrinks(gap: real, ratio: real, bound: real)
    requires 0.0 <= ratio <= 1.0 && -bound <= gap <= bound
    ensures -bound <= gap * ratio <= bound
  {
    var p := gap * ratio;
    Shrink(gap, ratio, p);
    Between(bound, gap, p);
  }

  lemma Between(bound: real, gap: real, p: real)
    requires -bound <= gap <= bound && (0.0 <= p <= gap || gap <= p <= 0.0)
    ensures -bound <= p <= bound
  {}

  lemma Shrink(x: real, ratio: real, p: real)
    requires 0.0 <= ratio <= 1.0 && p == x * ratio
    ensures 0.0 <= p <= x || x <= p <= 0.0
  {
    if x >= 0.0 {
      ShrinkDown(x, ratio);
    } else {
      ShrinkUp(x, ratio);
    }
  }

  lemma ShrinkDown(x: real, ratio: real)
    requires x >= 0.0 && 0.0 <= ratio <= 1.0
    ensures 0.0 <= x * ratio <= x
  {}

  lemma ShrinkUp(x: real, ratio: real)
    requires x <= 0.0 && 0.0 <= ratio <= 1.0
    ensures x <= x * ratio <= 0.0
  {}
}
