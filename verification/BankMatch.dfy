/** Matching imported statement lines with stored bank transactions
    (backend/internal/finance/bankimport.go:293-322). */
module BankMatch {
  import opened Calendar
  import opened Integers
  import opened Options
  import Sets

  /** Dates are in nanoseconds. */
  datatype Tx = Tx(id: int, amount: int, date: int, reconciled: bool)

  datatype Line = Line(ref: string, amount: int, date: int)

  /** A line's report; None stands for the status "unmatched". */
  datatype Report = Report(ref: string, tx: Option<int>)

  /** time.Time.Sub: the difference in nanoseconds, saturating at 64 bits. */
  function Sub64(a: int, b: int): (d: int)
    ensures IsInt64(d)
  {
    if a - b > INT64_MAX then INT64_MAX else if a - b < INT64_MIN then INT64_MIN else a - b
  }

  /** The code's absolute difference; negating the least integer gives itself. */
  function Gap(a: int, b: int): (d: int)
    ensures IsInt64(d)
  {
    var d := Sub64(a, b);
    if d < 0 then Wrap64(-d) else d
  }

  predicate Eligible(t: Tx, l: Line, window: nat) {
    !t.reconciled && t.amount == l.amount && Gap(t.date, l.date) <= window
  }

  function Distance(a: int, b: int): nat {
    if a < b then b - a else a - b
  }

  /** The code's test is the distance test if and only if the line is less than 2^63
      nanoseconds (292 years) after the transaction, and, for the largest window, not that much
      before it. */
  lemma GapTestIff(t: int, l: int, window: nat)
    requires window <= INT64_MAX
    ensures (Gap(t, l) <= window <==> Distance(t, l) <= window)
       <==> l - t <= INT64_MAX && (window == INT64_MAX ==> t - l <= INT64_MAX)
  {}

  const NEW_YEAR_2024: int := 1_704_067_200 * 1_000_000_000
  const NEW_YEAR_2400: int := 13_569_465_600 * 1_000_000_000

  lemma NewYears()
    ensures NEW_YEAR_2024 == SecondOf(Civil(2024, 1, 1, 0, 0, 0)) * 1_000_000_000
    ensures NEW_YEAR_2400 == SecondOf(Civil(2400, 1, 1, 0, 0, 0)) * 1_000_000_000
  {}

  /** A line dated 2400 takes a transaction of 2024 within no window at all. */
  lemma FarLineMatches(amount: int)
    ensures var txs, lines := [Tx(1, amount, NEW_YEAR_2024, false)], [Line("", amount, NEW_YEAR_2400)];
            Greedy(txs, lines, 0) == [Some(0)]
  {
    var txs, lines := [Tx(1, amount, NEW_YEAR_2024, false)], [Line("", amount, NEW_YEAR_2400)];
    GreedyStep(txs, lines, 0, 0);
    assert lines[..1] == lines && lines[..0] == [];
    assert Free(txs, [], lines[0], 0, 0);
  }

  /** The transaction each line takes, as a position in txs. */
  type Picks = seq<Option<nat>>

  predicate InRange(picks: Picks, txs: seq<Tx>) {
    forall i :: 0 <= i < |picks| && picks[i].Some? ==> picks[i].value < |txs|
  }

  function IdAt(txs: seq<Tx>, p: Option<nat>): Option<int> {
    if p.Some? && p.value < |txs| then Some(txs[p.value].id) else None
  }

  /** The line takes a transaction with this id. */
  predicate TakesId(txs: seq<Tx>, p: Option<nat>, id: int) {
    IdAt(txs, p) == Some(id)
  }

  predicate Taken(txs: seq<Tx>, picks: Picks, id: int) {
    exists i :: 0 <= i < |picks| && TakesId(txs, picks[i], id)
  }

  predicate Free(txs: seq<Tx>, picks: Picks, l: Line, window: nat, j: nat) {
    j < |txs| && Eligible(txs[j], l, window) && !Taken(txs, picks, txs[j].id)
  }

  /** The first free transaction from position j on. */
  function FirstFree(txs: seq<Tx>, picks: Picks, l: Line, window: nat, j: nat): Option<nat>
    requires j <= |txs|
    decreases |txs| - j
  {
    if j == |txs| then None
    else if Free(txs, picks, l, window, j) then Some(j)
    else FirstFree(txs, picks, l, window, j + 1)
  }

  /** What the greedy loop picks for each line. */
  function Greedy(txs: seq<Tx>, lines: seq<Line>, window: nat): Picks {
    if lines == [] then []
    else
      var before := Greedy(txs, lines[..|lines| - 1], window);
      before + [FirstFree(txs, before, lines[|lines| - 1], window, 0)]
  }

  lemma {:induction false} FirstFreeIs(txs: seq<Tx>, picks: Picks, l: Line, window: nat, j: nat)
    requires j <= |txs|
    ensures var p := FirstFree(txs, picks, l, window, j);
            if p.Some? then Free(txs, picks, l, window, p.value)
            else forall k :: j <= k < |txs| ==> !Free(txs, picks, l, window, k)
    decreases |txs| - j
  {
    if j < |txs| && !Free(txs, picks, l, window, j) {
      FirstFreeIs(txs, picks, l, window, j + 1);
    }
  }

  /** The scan so far found nothing free. */
  lemma {:induction false} FirstFreeAt(txs: seq<Tx>, picks: Picks, l: Line, window: nat, j: nat)
    requires j <= |txs| && forall k :: 0 <= k < j ==> !Free(txs, picks, l, window, k)
    ensures FirstFree(txs, picks, l, window, 0) == FirstFree(txs, picks, l, window, j)
  {
    if j > 0 {
      FirstFreeAt(txs, picks, l, window, j - 1);
    }
  }

  function Reports(txs: seq<Tx>, lines: seq<Line>, picks: Picks): seq<Report>
    requires |lines| == |picks|
  {
    seq(|lines|, i requires 0 <= i < |lines| => Report(lines[i].ref, IdAt(txs, picks[i])))
  }

  lemma {:induction false} GreedyLength(txs: seq<Tx>, lines: seq<Line>, window: nat)
    ensures |Greedy(txs, lines, window)| == |lines|
  {
    if lines != [] {
      GreedyLength(txs, lines[..|lines| - 1], window);
    }
  }

  lemma GreedyStep(txs: seq<Tx>, lines: seq<Line>, window: nat, i: nat)
    requires i < |lines|
    ensures Greedy(txs, lines[..i + 1], window)
         == Greedy(txs, lines[..i], window) + [FirstFree(txs, Greedy(txs, lines[..i], window), lines[i], window, 0)]
  {
    assert lines[..i + 1][..i] == lines[..i];
  }

  /** MatchTransactions. */
  method MatchTransactions(txs: seq<Tx>, lines: seq<Line>, window: int) returns (out: seq<Report>)
    ensures |out| == |lines|
    ensures forall w: nat :: w == window || (window < 0 && w == 0) ==>
              |Greedy(txs, lines, w)| == |lines| && out == Reports(txs, lines, Greedy(txs, lines, w))
  {
    var w: nat := 0;
    if window >= 0 {
      w := window;
    }
    var used: set<int> := {};
    out := [];
    ghost var picks: Picks := [];
    for i := 0 to |lines|
      invariant picks == Greedy(txs, lines[..i], w) && |picks| == i
      invariant out == Reports(txs, lines[..i], picks)
      invariant forall id :: id in used <==> Taken(txs, picks, id)
    {
      var l := lines[i];
      ghost var before := picks;
      var found: Option<nat> := None;
      var j := 0;
      while j < |txs| && found.None?
        invariant j <= |txs|
        invariant found.Some? ==> Free(txs, before, l, w, found.value) && FirstFree(txs, before, l, w, 0) == found
        invariant found.None? ==> forall k :: 0 <= k < j ==> !Free(txs, before, l, w, k)
        decreases |txs| - j, if found.None? then 1 else 0
      {
        var t := txs[j];
        var d := Sub64(t.date, l.date);
        if d < 0 {
          d := Wrap64(-d);
        }
        if !(t.id in used || t.reconciled || t.amount != l.amount) && d <= w {
          FirstFreeAt(txs, before, l, w, j);
          found := Some(j);
        } else {
          j := j + 1;
        }
      }
      if found.None? {
        FirstFreeAt(txs, before, l, w, |txs|);
      }
      GreedyStep(txs, lines, w, i);
      picks := before + [found];
      TakenAppend(txs, before, found);
      ReportsAppend(txs, lines, before, found, i);
      if found.Some? {
        used := used + {txs[found.value].id};
      }
      out := out + [Report(l.ref, IdAt(txs, found))];
      hide *;
    }
    assert lines[..|lines|] == lines;
  }

  lemma ReportsAppend(txs: seq<Tx>, lines: seq<Line>, picks: Picks, p: Option<nat>, i: nat)
    requires i < |lines| && |picks| == i
    ensures Reports(txs, lines[..i + 1], picks + [p])
         == Reports(txs, lines[..i], picks) + [Report(lines[i].ref, IdAt(txs, p))]
  {}

  lemma TakenAppend(txs: seq<Tx>, picks: Picks, p: Option<nat>)
    ensures forall id :: Taken(txs, picks + [p], id) <==> Taken(txs, picks, id) || TakesId(txs, p, id)
  {
    forall id
      ensures Taken(txs, picks + [p], id) <==> Taken(txs, picks, id) || TakesId(txs, p, id)
    {
      if Taken(txs, picks, id) {
        var i :| 0 <= i < |picks| && TakesId(txs, picks[i], id);
        assert (picks + [p])[i] == picks[i];
      }
      if TakesId(txs, p, id) {
        assert (picks + [p])[|picks|] == p;
      }
    }
  }

  // ----- Valid, maximal, and at least half the best -----

  /** Every line takes an eligible transaction or none, and no id is taken twice. */
  ghost predicate Matching(txs: seq<Tx>, lines: seq<Line>, window: nat, picks: Picks) {
    && |picks| == |lines| && InRange(picks, txs)
    && (forall i :: 0 <= i < |picks| && picks[i].Some? ==> Eligible(txs[picks[i].value], lines[i], window))
    && (forall i, k ::
          0 <= i < k < |picks| && picks[i].Some? && picks[k].Some? ==> IdAt(txs, picks[i]) != IdAt(txs, picks[k]))
  }

  /** Whatever an unmatched line could take is taken by a line before it. */
  ghost predicate Maximal(txs: seq<Tx>, lines: seq<Line>, window: nat, picks: Picks)
    requires |picks| == |lines|
  {
    forall i, j :: 0 <= i < |lines| && picks[i].None? && 0 <= j < |txs| && Eligible(txs[j], lines[i], window)
      ==> Taken(txs, picks[..i], txs[j].id)
  }

  /** The greedy matching is valid and maximal, for any transactions and lines. */
  lemma {:induction false} GreedyIsMaximal(txs: seq<Tx>, lines: seq<Line>, window: nat)
    ensures |Greedy(txs, lines, window)| == |lines|
    ensures Matching(txs, lines, window, Greedy(txs, lines, window))
    ensures Maximal(txs, lines, window, Greedy(txs, lines, window))
  {
    if lines != [] {
      var n := |lines| - 1;
      var before, l := Greedy(txs, lines[..n], window), lines[n];
      GreedyIsMaximal(txs, lines[..n], window);
      var p := FirstFree(txs, before, l, window, 0);
      FirstFreeIs(txs, before, l, window, 0);
      var picks := before + [p];
      assert Greedy(txs, lines, window) == picks;
      MatchingAppend(txs, lines, window, before, p);
      forall i, j | 0 <= i < |lines| && picks[i].None? && 0 <= j < |txs| && Eligible(txs[j], lines[i], window)
        ensures Taken(txs, picks[..i], txs[j].id)
      {
        assert picks[..i] == before[..i];
        if i == n {
          assert before[..n] == before;
          assert !Free(txs, before, l, window, j);
        } else {
          assert lines[..n][i] == lines[i];
        }
      }
    }
  }

  lemma MatchingAppend(txs: seq<Tx>, lines: seq<Line>, window: nat, before: Picks, p: Option<nat>)
    requires lines != [] && Matching(txs, lines[..|lines| - 1], window, before)
    requires p.Some? ==> Free(txs, before, lines[|lines| - 1], window, p.value)
    ensures Matching(txs, lines, window, before + [p])
  {
    var n := |lines| - 1;
    var picks := before + [p];
    forall i | 0 <= i < |picks| && picks[i].Some?
      ensures picks[i].value < |txs| && Eligible(txs[picks[i].value], lines[i], window)
    {
      if i < n {
        assert picks[i] == before[i] && lines[..n][i] == lines[i];
      }
    }
    forall i, k | 0 <= i < k < |picks| && picks[i].Some? && picks[k].Some?
      ensures IdAt(txs, picks[i]) != IdAt(txs, picks[k])
    {
      assert picks[i] == before[i];
      if k == n {
        assert !Taken(txs, before, txs[p.value].id);
        assert !TakesId(txs, before[i], txs[p.value].id);
      } else {
        assert picks[k] == before[k];
      }
    }
  }

  /** A greedy match is unreconciled and equal in amount; it is within the window if and only
      if the dates do not lie 2^63 nanoseconds apart in the way the code's difference hides. */
  lemma MatchWithinWindowIff(txs: seq<Tx>, lines: seq<Line>, window: nat, i: nat)
    requires |Greedy(txs, lines, window)| == |lines| && i < |lines| && Greedy(txs, lines, window)[i].Some?
    requires window <= INT64_MAX && Greedy(txs, lines, window)[i].value < |txs|
    ensures var t, l := txs[Greedy(txs, lines, window)[i].value], lines[i];
            && !t.reconciled && t.amount == l.amount
            && (Distance(t.date, l.date) <= window
                <==> l.date - t.date <= INT64_MAX && (window == INT64_MAX ==> t.date - l.date <= INT64_MAX))
  {
    GreedyIsMaximal(txs, lines, window);
    GapTestIff(txs[Greedy(txs, lines, window)[i].value].date, lines[i].date, window);
  }

  ghost function Matched(picks: Picks): set<int> {
    set i | 0 <= i < |picks| && picks[i].Some?
  }

  /** An injective map into b bounds the size of its domain. */
  lemma {:induction false} InjectionSize(f: map<int, int>, b: set<int>)
    requires forall k :: k in f ==> f[k] in b
    requires forall k, l :: k in f && l in f && k != l ==> f[k] != f[l]
    ensures |f.Keys| <= |b|
    decreases |f.Keys|
  {
    if f.Keys != {} {
      Sets.NonEmpty(f.Keys);
      var k :| k in f.Keys;
      var g := f - {k};
      assert g.Keys == f.Keys - {k};
      InjectionSize(g, b - {f[k]});
    }
  }

  /** The line whose greedy pick has the id that m picks for line i. */
  ghost function Rival(txs: seq<Tx>, picks: Picks, id: int): int
    requires Taken(txs, picks, id)
    ensures 0 <= Rival(txs, picks, id) < |picks| && TakesId(txs, picks[Rival(txs, picks, id)], id)
  {
    var i :| 0 <= i < |picks| && TakesId(txs, picks[i], id);
    i
  }

  /** The greedy matching has at least half the matches of any valid matching. */
  lemma GreedyHalfOptimal(txs: seq<Tx>, lines: seq<Line>, window: nat, m: Picks)
    requires Matching(txs, lines, window, m)
    ensures |Matched(m)| <= 2 * |Matched(Greedy(txs, lines, window))|
  {
    var g := Greedy(txs, lines, window);
    GreedyIsMaximal(txs, lines, window);
    var missed := Matched(m) - Matched(g);
    assert missed <= Matched(m);
    forall i | i in missed
      ensures Taken(txs, g, txs[m[i].value].id)
    {
      var id := txs[m[i].value].id;
      assert Taken(txs, g[..i], id);
      var k :| 0 <= k < i && TakesId(txs, g[..i][k], id);
      assert TakesId(txs, g[k], id);
    }
    var f := map i | i in missed :: Rival(txs, g, txs[m[i].value].id);
    forall i, k | i in f && k in f && i != k
      ensures f[i] != f[k]
    {
      assert IdAt(txs, m[i]) != IdAt(txs, m[k]);
      assert TakesId(txs, g[f[i]], txs[m[i].value].id) && TakesId(txs, g[f[k]], txs[m[k].value].id);
    }
    InjectionSize(f, Matched(g));
    assert f.Keys == missed;
    assert Matched(m) <= missed + Matched(g);
    UnionSize(missed, Matched(g), Matched(m));
  }

  lemma UnionSize(a: set<int>, b: set<int>, c: set<int>)
    requires c <= a + b
    ensures |c| <= |a| + |b|
  {
    Sets.SubsetSize(c, a + b);
  }

  /** The bound is sharp: an early line can take the only transaction a later line could use. */
  lemma HalfIsSharp()
    ensures var txs, lines := [Tx(1, 50, 0, false), Tx(2, 50, 2, false)], [Line("a", 50, 1), Line("b", 50, 0)];
            && Greedy(txs, lines, 1) == [Some(0), None]
            && Matching(txs, lines, 1, [Some(1), Some(0)])
  {
    var txs, lines := [Tx(1, 50, 0, false), Tx(2, 50, 2, false)], [Line("a", 50, 1), Line("b", 50, 0)];
    assert FirstFree(txs, [], lines[0], 1, 0) == Some(0);
    SecondFindsNone(txs, lines[1]);
    hide FirstFree;
    GreedyStep(txs, lines, 1, 0);
    GreedyStep(txs, lines, 1, 1);
    assert lines[..2] == lines && lines[..0] == [];
    assert Greedy(txs, lines[..1], 1) == [Some(0)];
  }

  lemma SecondFindsNone(txs: seq<Tx>, l: Line)
    requires txs == [Tx(1, 50, 0, false), Tx(2, 50, 2, false)] && l == Line("b", 50, 0)
    ensures FirstFree(txs, [Some(0)], l, 1, 0) == None
  {
    assert TakesId(txs, [Some(0)][0], 1) && Taken(txs, [Some(0)], 1);
    assert !Free(txs, [Some(0)], l, 1, 0) && !Free(txs, [Some(0)], l, 1, 1);
    assert FirstFree(txs, [Some(0)], l, 1, 2) == None;
    assert FirstFree(txs, [Some(0)], l, 1, 1) == None;
  }
}
