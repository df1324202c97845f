/** Commercial document lines and the ledger entry an invoice posts
    (backend/internal/documents/kernel.go:146-210, backend/cmd/api/main.go:766-776,
    backend/internal/finance/autopost.go:202-266). */
module Invoices {
  import opened Entries
  import opened Options
  import opened Sets
  import opened Text

  datatype Line = Line(text: string, qty: int, unitNet: int, vatRateBps: int, discountPc: int, kind: string)

  const NORMAL: string := "normal"
  const SECTION: string := "section"
  const SUBTOTAL: string := "subtotal"

  function KindOf(l: Line): string {
    if l.kind == "" then NORMAL else l.kind
  }

  predicate Priced(l: Line) {
    KindOf(l) == NORMAL
  }

  /** Line.Validate. */
  predicate ValidLine(l: Line) {
    if KindOf(l) == SECTION then l.text != ""
    else if KindOf(l) == SUBTOTAL then true
    else Priced(l) && l.qty > 0 && l.unitNet >= 0 && 0 <= l.vatRateBps <= 10000 && 0 <= l.discountPc <= 100
  }

  predicate ValidLines(lines: seq<Line>) {
    forall i :: 0 <= i < |lines| ==> ValidLine(lines[i])
  }

  /** Line.Net and Line.VAT, whose operands are not negative on valid lines. */
  function Net(l: Line): int {
    if Priced(l) then (l.qty * l.unitNet * (100 - l.discountPc) + 50) / 100 else 0
  }

  function Vat(l: Line): int {
    if Priced(l) then (Net(l) * l.vatRateBps + 5000) / 10000 else 0
  }

  lemma HalfUp(x: int, unit: int)
    requires unit > 0 && unit % 2 == 0
    ensures -unit <= 2 * (x - unit * ((x + unit / 2) / unit)) < unit
  {
    var y := x + unit / 2;
    assert y == unit * (y / unit) + y % unit;
  }

  /** Both amounts are within half a minor unit of the exact ones, halves going up. */
  lemma AmountsHalfUp(l: Line)
    requires ValidLine(l) && Priced(l)
    ensures -100 <= 2 * (l.qty * l.unitNet * (100 - l.discountPc) - 100 * Net(l)) < 100
    ensures -10000 <= 2 * (Net(l) * l.vatRateBps - 10000 * Vat(l)) < 10000
  {
    HalfUp(l.qty * l.unitNet * (100 - l.discountPc), 100);
    HalfUp(Net(l) * l.vatRateBps, 10000);
  }

  /** Which lines are accepted: headings with a text, subtotal markers, and normal lines, named so
      or by default, with a positive quantity and terms in range. Only the last carry amounts. */
  lemma LineKinds(l: Line)
    ensures ValidLine(l) <==>
              || (l.kind == "section" && l.text != "") || l.kind == "subtotal"
              || (l.kind in {"", "normal"} && l.qty > 0 && l.unitNet >= 0 && 0 <= l.vatRateBps <= 10000
                  && 0 <= l.discountPc <= 100)
    ensures ValidLine(l) && (Net(l) != 0 || Vat(l) != 0) ==> l.kind in {"", "normal"}
    ensures l.kind in {"", "normal"} ==> Priced(l)
  {}

  lemma AmountNotNegative(l: Line)
    requires ValidLine(l)
    ensures Net(l) >= 0 && Vat(l) >= 0
    ensures Net(l) == 0 ==> Vat(l) == 0
  {
    if Priced(l) {
      assert l.qty * l.unitNet >= 0;
      assert l.qty * l.unitNet * (100 - l.discountPc) >= 0;
      assert Net(l) * l.vatRateBps >= 0;
    }
  }

  function NetSum(lines: seq<Line>): int {
    if lines == [] then 0 else NetSum(lines[..|lines| - 1]) + Net(lines[|lines| - 1])
  }

  function VatSum(lines: seq<Line>): int {
    if lines == [] then 0 else VatSum(lines[..|lines| - 1]) + Vat(lines[|lines| - 1])
  }

  /** VAT of the lines that carry one rate. */
  function VatAt(lines: seq<Line>, rate: int): int {
    if lines == [] then 0
    else
      var l := lines[|lines| - 1];
      VatAt(lines[..|lines| - 1], rate) + if l.vatRateBps == rate then Vat(l) else 0
  }

  datatype Totals = Totals(net: int, vat: int, gross: int)

  datatype Error = BadLine | NoJournal | Unbound(kind: string, key: string)

  datatype Outcome<+T> = Done(value: T) | Failed(error: Error)

  /** Sum: the whole document fails on its first invalid line. */
  method Sum(lines: seq<Line>) returns (r: Outcome<Totals>)
    ensures r == if ValidLines(lines) then Done(Totals(NetSum(lines), VatSum(lines), NetSum(lines) + VatSum(lines)))
                 else Failed(BadLine)
  {
    hide Net, Vat, ValidLine;
    var net, vat := 0, 0;
    for i := 0 to |lines|
      invariant ValidLines(lines[..i]) && net == NetSum(lines[..i]) && vat == VatSum(lines[..i])
    {
      if !ValidLine(lines[i]) {
        return Failed(BadLine);
      }
      assert lines[..i + 1][..i] == lines[..i];
      net := net + Net(lines[i]);
      vat := vat + Vat(lines[i]);
    }
    assert lines[..|lines|] == lines;
    r := Done(Totals(net, vat, net + vat));
  }

  /** No amount is negative, and a document of zero net carries no VAT. */
  lemma {:induction false} SumsNotNegative(lines: seq<Line>, rate: int)
    requires ValidLines(lines)
    ensures NetSum(lines) >= 0 && VatSum(lines) >= 0 && VatAt(lines, rate) >= 0
    ensures NetSum(lines) == 0 ==> VatSum(lines) == 0
  {
    if lines != [] {
      SumsNotNegative(lines[..|lines| - 1], rate);
      AmountNotNegative(lines[|lines| - 1]);
    }
  }

  /** Only rates between 0 and 10000 basis points carry VAT: a marker line may hold any rate. */
  lemma {:induction false} VatOnlyAtGoodRates(lines: seq<Line>, rate: int)
    requires ValidLines(lines) && VatAt(lines, rate) != 0
    ensures 0 <= rate <= 10000
  {
    if VatAt(lines[..|lines| - 1], rate) != 0 {
      VatOnlyAtGoodRates(lines[..|lines| - 1], rate);
    } else {
      assert ValidLine(lines[|lines| - 1]);
    }
  }

  // ----- Grouping by rate -----

  function ByRate(lines: seq<Line>): map<int, int> {
    if lines == [] then map[]
    else
      var before, l := ByRate(lines[..|lines| - 1]), lines[|lines| - 1];
      before[l.vatRateBps := (if l.vatRateBps in before then before[l.vatRateBps] else 0) + Vat(l)]
  }

  /** Each group holds the VAT of its rate, and grouping preserves the total. */
  lemma {:induction false} GroupingPreserves(lines: seq<Line>, rate: int)
    ensures VatAt(lines, rate) == if rate in ByRate(lines) then ByRate(lines)[rate] else 0
    ensures Total(ByRate(lines)) == VatSum(lines)
  {
    if lines != [] {
      var before, l := ByRate(lines[..|lines| - 1]), lines[|lines| - 1];
      GroupingPreserves(lines[..|lines| - 1], rate);
      TotalSet(before, l.vatRateBps, (if l.vatRateBps in before then before[l.vatRateBps] else 0) + Vat(l));
    }
  }

  datatype Slice = Slice(rateBps: int, vat: int)

  function RatesOf(slices: seq<Slice>): seq<int> {
    seq(|slices|, i requires 0 <= i < |slices| => slices[i].rateBps)
  }

  /** The slices list the groups once each, in some order. */
  ghost predicate Lists(slices: seq<Slice>, byRate: map<int, int>) {
    && Enumerates(RatesOf(slices), byRate.Keys)
    && forall i :: 0 <= i < |slices| ==> slices[i].rateBps in byRate && slices[i].vat == byRate[slices[i].rateBps]
  }

  function SliceSum(slices: seq<Slice>): int {
    if slices == [] then 0 else SliceSum(slices[..|slices| - 1]) + slices[|slices| - 1].vat
  }

  lemma LastSlice(slices: seq<Slice>, byRate: map<int, int>)
    requires Lists(slices, byRate) && slices != []
    ensures var n := |slices| - 1;
            && slices[n].rateBps in byRate && slices[n].vat == byRate[slices[n].rateBps]
            && Lists(slices[..n], byRate - {slices[n].rateBps})
  {
    var rates, n := RatesOf(slices), |slices| - 1;
    var rest, k := slices[..n], rates[n];
    assert RatesOf(rest) == rates[..n];
    DropLast(rates, byRate.Keys);
    assert (byRate - {k}).Keys == byRate.Keys - {k};
    forall i | 0 <= i < n
      ensures rest[i].rateBps in byRate - {k} && rest[i].vat == (byRate - {k})[rest[i].rateBps]
    {
      assert rates[i] != rates[n];
    }
  }

  /** The listed slices add up to the total of the groups. */
  lemma {:induction false} SlicesTotal(slices: seq<Slice>, byRate: map<int, int>)
    requires Lists(slices, byRate)
    ensures SliceSum(slices) == Total(byRate)
  {
    var rates := RatesOf(slices);
    if slices == [] {
      assert byRate.Keys == {} by {
        assert forall k :: k in byRate.Keys ==> k in rates;
      }
    } else {
      var n := |slices| - 1;
      var rest, k := slices[..n], slices[n].rateBps;
      LastSlice(slices, byRate);
      SlicesTotal(rest, byRate - {k});
      TotalPick(byRate, k);
    }
  }

  lemma DropLast(order: seq<int>, s: set<int>)
    requires Enumerates(order, s) && order != []
    ensures Enumerates(order[..|order| - 1], s - {order[|order| - 1]})
  {
    var n := |order| - 1;
    forall k
      ensures k in s - {order[n]} <==> k in order[..n]
    {
      if k in s && k != order[n] {
        var i :| 0 <= i < |order| && order[i] == k;
        assert order[..n][i] == k;
      }
    }
  }

  /** The loader's grouping loop, then its loop over the groups in some order. */
  method VatSlices(lines: seq<Line>) returns (slices: seq<Slice>)
    ensures Lists(slices, ByRate(lines))
  {
    var byRate: map<int, int> := map[];
    for i := 0 to |lines|
      invariant byRate == ByRate(lines[..i])
    {
      assert lines[..i + 1][..i] == lines[..i];
      var rate := lines[i].vatRateBps;
      byRate := byRate[rate := (if rate in byRate then byRate[rate] else 0) + Vat(lines[i])];
    }
    assert lines[..|lines|] == lines;
    slices := [];
    var left := byRate.Keys;
    while left != {}
      invariant left <= byRate.Keys
      invariant forall i :: 0 <= i < |slices| ==>
            slices[i].rateBps in byRate && slices[i].vat == byRate[slices[i].rateBps]
      invariant Enumerates(RatesOf(slices), byRate.Keys - left)
      decreases left
    {
      NonEmpty(left);
      var rate :| rate in left;
      ghost var rates := RatesOf(slices);
      slices := slices + [Slice(rate, byRate[rate])];
      assert RatesOf(slices) == rates + [rate];
      assert forall k :: k in rates + [rate] <==> k in rates || k == rate;
      left := left - {rate};
    }
    assert byRate.Keys - left == byRate.Keys;
  }

  // ----- The entry -----

  datatype Invoice = Invoice(ref: string, orgRef: string, net: int, vat: int, slices: seq<Slice>)

  /** Account bindings of one entity, by kind and key. */
  type Bindings = map<(string, string), int>

  /** Stored bindings name an account. */
  predicate GoodBindings(b: Bindings) {
    forall k :: k in b ==> b[k] > 0
  }

  /** Poster.resolve: the key itself, then "default". */
  function Bind(b: Bindings, kind: string, key: string): Outcome<int> {
    if (kind, key) in b then Done(b[(kind, key)])
    else if (kind, "default") in b then Done(b[(kind, "default")])
    else Failed(Unbound(kind, key))
  }

  function VatLegs(b: Bindings, ref: string, slices: seq<Slice>): Outcome<seq<EntryLine>> {
    if slices == [] then Done([])
    else
      var before, s := VatLegs(b, ref, slices[..|slices| - 1]), slices[|slices| - 1];
      if before.Failed? || s.vat == 0 then before
      else
        var account := Bind(b, "vat", FormatInt(s.rateBps));
        if account.Failed? then Failed(account.error)
        else Done(before.value + [EntryLine(account.value, "vat " + ref, 0, s.vat, s.rateBps)])
  }

  function InvoiceLegs(b: Bindings, doc: Invoice): Outcome<seq<EntryLine>> {
    var control := Bind(b, "partner", doc.orgRef);
    if control.Failed? then Failed(control.error)
    else
      var revenue := Bind(b, "product", "default");
      if revenue.Failed? then Failed(revenue.error)
      else
        var vat := VatLegs(b, doc.ref, doc.slices);
        if vat.Failed? then vat
        else
          Done([EntryLine(control.value, "control " + doc.ref, doc.net + doc.vat, 0, 0),
                EntryLine(revenue.value, "revenue " + doc.ref, 0, doc.net, 0)] + vat.value)
  }

  lemma VatLegsFail(b: Bindings, ref: string, slices: seq<Slice>, i: nat)
    requires i <= |slices| && VatLegs(b, ref, slices[..i]).Failed?
    ensures VatLegs(b, ref, slices) == VatLegs(b, ref, slices[..i])
    decreases |slices|
  {
    if i < |slices| {
      assert slices[..|slices| - 1][..i] == slices[..i];
      VatLegsFail(b, ref, slices[..|slices| - 1], i);
    } else {
      assert slices[..i] == slices;
    }
  }

  lemma VatLegsNone(b: Bindings, ref: string)
    ensures VatLegs(b, ref, []) == Done([])
  {}

  lemma VatLegsStep(b: Bindings, ref: string, slices: seq<Slice>, i: nat)
    requires i < |slices| && VatLegs(b, ref, slices[..i]).Done?
    ensures var before, s := VatLegs(b, ref, slices[..i]), slices[i];
            var account := Bind(b, "vat", FormatInt(s.rateBps));
            VatLegs(b, ref, slices[..i + 1])
            == if s.vat == 0 then before else if account.Failed? then Failed(account.error)
               else Done(before.value + [EntryLine(account.value, "vat " + ref, 0, s.vat, s.rateBps)])
  {
    assert slices[..i + 1][..i] == slices[..i];
  }

  /** The legs PostValidated grows. */
  method BuildLegs(b: Bindings, doc: Invoice) returns (r: Outcome<seq<EntryLine>>)
    ensures r == InvoiceLegs(b, doc)
  {
    var control := Bind(b, "partner", doc.orgRef);
    if control.Failed? {
      return Failed(control.error);
    }
    var revenue := Bind(b, "product", "default");
    if revenue.Failed? {
      return Failed(revenue.error);
    }
    hide VatLegs, Bind, FormatInt;
    var lines := [EntryLine(control.value, "control " + doc.ref, doc.net + doc.vat, 0, 0),
                  EntryLine(revenue.value, "revenue " + doc.ref, 0, doc.net, 0)];
    ghost var head := lines;
    VatLegsNone(b, doc.ref);
    assert doc.slices[..0] == [];
    for i := 0 to |doc.slices|
      invariant VatLegs(b, doc.ref, doc.slices[..i]).Done? && lines == head + VatLegs(b, doc.ref, doc.slices[..i]).value
    {
      var s := doc.slices[i];
      VatLegsStep(b, doc.ref, doc.slices, i);
      if s.vat != 0 {
        var account := Bind(b, "vat", FormatInt(s.rateBps));
        if account.Failed? {
          VatLegsFail(b, doc.ref, doc.slices, i + 1);
          return Failed(account.error);
        }
        lines := lines + [EntryLine(account.value, "vat " + doc.ref, 0, s.vat, s.rateBps)];
      }
    }
    assert doc.slices[..|doc.slices|] == doc.slices;
    r := Done(lines);
  }

  predicate GoodSlices(slices: seq<Slice>) {
    forall i :: 0 <= i < |slices| ==> slices[i].vat >= 0 && (slices[i].vat > 0 ==> slices[i].rateBps >= 0)
  }

  lemma {:induction false} VatLegsGood(b: Bindings, ref: string, slices: seq<Slice>)
    requires GoodBindings(b) && GoodSlices(slices) && VatLegs(b, ref, slices).Done?
    ensures var legs := VatLegs(b, ref, slices).value;
            GoodLegs(legs) && Debits(legs) == 0 && Credits(legs) == SliceSum(slices)
  {
    if slices != [] {
      var s := slices[|slices| - 1];
      VatLegsGood(b, ref, slices[..|slices| - 1]);
      if s.vat != 0 {
        var legs := VatLegs(b, ref, slices[..|slices| - 1]).value;
        var leg := VatLegs(b, ref, slices).value[|legs|];
        assert (legs + [leg])[..|legs|] == legs;
      }
    }
  }

  /** The invoice a loader makes of a document whose totals are those of its lines. */
  ghost predicate LoadedFrom(doc: Invoice, lines: seq<Line>) {
    doc.net == NetSum(lines) && doc.vat == VatSum(lines) && Lists(doc.slices, ByRate(lines))
  }

  lemma LoadedSlices(doc: Invoice, lines: seq<Line>)
    requires ValidLines(lines) && LoadedFrom(doc, lines)
    ensures GoodSlices(doc.slices) && SliceSum(doc.slices) == doc.vat
  {
    SlicesTotal(doc.slices, ByRate(lines));
    GroupingPreserves(lines, 0);
    forall i | 0 <= i < |doc.slices|
      ensures doc.slices[i].vat >= 0 && (doc.slices[i].vat > 0 ==> doc.slices[i].rateBps >= 0)
    {
      var rate := doc.slices[i].rateBps;
      GroupingPreserves(lines, rate);
      SumsNotNegative(lines, rate);
      if VatAt(lines, rate) != 0 {
        VatOnlyAtGoodRates(lines, rate);
      }
    }
  }

  /** Every invoice whose accounts are bound makes an entry that passes validation
      exactly when its net is positive. */
  lemma InvoiceEntryValid(b: Bindings, doc: Invoice, lines: seq<Line>, journal: int)
    requires GoodBindings(b) && ValidLines(lines) && LoadedFrom(doc, lines)
    requires InvoiceLegs(b, doc).Done? && journal != 0
    ensures Balanced(journal, InvoiceLegs(b, doc).value) <==> NetSum(lines) > 0
  {
    hide Debits, Credits, VatLegs, NetSum, VatSum, SliceSum, Lists, ByRate, GoodLegs, ValidLine;
    LoadedSlices(doc, lines);
    SumsNotNegative(lines, 0);
    VatLegsGood(b, doc.ref, doc.slices);
    var legs, vat := InvoiceLegs(b, doc).value, VatLegs(b, doc.ref, doc.slices).value;
    var control, revenue := legs[0], legs[1];
    assert legs == [control] + ([revenue] + vat);
    OneLeg(control, 0);
    OneLeg(revenue, 0);
    ConcatAdds([revenue], vat, 0);
    ConcatAdds([control], [revenue] + vat, 0);
    OneGood(control);
    OneGood(revenue);
    hide Bind;
    assert Debits(legs) == doc.net + doc.vat && Credits(legs) == doc.net + doc.vat;
  }

  lemma OneGood(l: EntryLine)
    ensures GoodLegs([l]) <==> GoodLeg(l)
  {
    assert [l][0] == l;
  }

  const GIFT: Line := Line("gift", 1, 0, 2000, 0, "")
  const BINDINGS: Bindings := map[("partner", "C1") := 1, ("product", "default") := 2]
  const GIFT_INVOICE: Invoice := Invoice("INV-1", "C1", 0, 0, [Slice(2000, 0)])

  /** A valid document of zero net: its invoice is loaded and its accounts are bound, but its
      entry never passes validation. */
  lemma GiftNeverPosts(journal: int)
    requires journal != 0
    ensures GoodBindings(BINDINGS) && ValidLines([GIFT]) && LoadedFrom(GIFT_INVOICE, [GIFT])
    ensures InvoiceLegs(BINDINGS, GIFT_INVOICE).Done?
    ensures !Balanced(journal, InvoiceLegs(BINDINGS, GIFT_INVOICE).value)
  {
    assert Net(GIFT) == 0 && Vat(GIFT) == 0;
    assert [GIFT][..0] == [];
    assert NetSum([GIFT]) == 0 && VatSum([GIFT]) == 0 && ByRate([GIFT]) == map[2000 := 0];
    var slices := GIFT_INVOICE.slices;
    assert RatesOf(slices) == [2000] && Lists(slices, map[2000 := 0]);
    assert slices[..0] == [] && VatLegs(BINDINGS, "INV-1", slices) == VatLegs(BINDINGS, "INV-1", []) == Done([]);
    assert InvoiceLegs(BINDINGS, GIFT_INVOICE).Done?;
    hide Balanced, VatLegs, InvoiceLegs, ByRate;
    InvoiceEntryValid(BINDINGS, GIFT_INVOICE, [GIFT], journal);
  }

  /** An account is bound to a key: under the key itself, or else under the default. */
  predicate BoundTo(b: Bindings, kind: string, key: string, account: int) {
    || ((kind, key) in b && b[(kind, key)] == account)
    || ((kind, key) !in b && (kind, "default") in b && b[(kind, "default")] == account)
  }

  /** VAT that the slices bound to one account carry. */
  function VatOn(b: Bindings, slices: seq<Slice>, account: int): int {
    if slices == [] then 0
    else
      var s := slices[|slices| - 1];
      VatOn(b, slices[..|slices| - 1], account)
      + if BoundTo(b, "vat", FormatInt(s.rateBps), account) then s.vat else 0
  }

  /** Either the key or the default is bound. */
  predicate HasBinding(b: Bindings, kind: string, key: string) {
    (kind, key) in b || (kind, "default") in b
  }

  lemma {:induction false} VatLegsBound(b: Bindings, ref: string, slices: seq<Slice>)
    ensures VatLegs(b, ref, slices).Done?
       <==> forall i :: 0 <= i < |slices| && slices[i].vat != 0 ==> HasBinding(b, "vat", FormatInt(slices[i].rateBps))
  {
    hide FormatInt;
    if slices != [] {
      var n := |slices| - 1;
      VatLegsBound(b, ref, slices[..n]);
      assert forall i :: 0 <= i < n ==> slices[..n][i] == slices[i];
    }
  }

  /** An entry is built exactly if the partner, the product and every rate with VAT have a
      binding, each its own or the default. */
  lemma BoundIff(b: Bindings, doc: Invoice)
    ensures InvoiceLegs(b, doc).Done?
       <==> && HasBinding(b, "partner", doc.orgRef) && ("product", "default") in b
            && forall i :: 0 <= i < |doc.slices| && doc.slices[i].vat != 0
                 ==> HasBinding(b, "vat", FormatInt(doc.slices[i].rateBps))
    ensures !HasBinding(b, "partner", doc.orgRef) ==> InvoiceLegs(b, doc) == Failed(Unbound("partner", doc.orgRef))
    ensures HasBinding(b, "partner", doc.orgRef) && ("product", "default") !in b ==>
              InvoiceLegs(b, doc) == Failed(Unbound("product", "default"))
  {
    VatLegsBound(b, doc.ref, doc.slices);
    hide VatLegs;
  }

  lemma {:induction false} VatLegsOn(b: Bindings, ref: string, slices: seq<Slice>, account: int)
    requires VatLegs(b, ref, slices).Done?
    ensures DebitOn(VatLegs(b, ref, slices).value, account) == 0
    ensures CreditOn(VatLegs(b, ref, slices).value, account) == VatOn(b, slices, account)
  {
    if slices != [] {
      var s, before := slices[|slices| - 1], VatLegs(b, ref, slices[..|slices| - 1]);
      VatLegsOn(b, ref, slices[..|slices| - 1], account);
      if s.vat != 0 {
        var leg := VatLegs(b, ref, slices).value[|before.value|];
        LegAdds(before.value, leg, account);
      }
    }
  }

  /** What the entry puts on each account: the whole amount due is debited to the partner's
      account, the net is credited to revenue, and each rate's VAT to the account bound to it. */
  lemma InvoiceEffect(b: Bindings, doc: Invoice, account: int)
    requires InvoiceLegs(b, doc).Done?
    ensures var legs := InvoiceLegs(b, doc).value;
            && DebitOn(legs, account)
               == (if BoundTo(b, "partner", doc.orgRef, account) then doc.net + doc.vat else 0)
            && CreditOn(legs, account)
               == (if BoundTo(b, "product", "default", account) then doc.net else 0)
                  + VatOn(b, doc.slices, account)
  {
    var legs, vat := InvoiceLegs(b, doc).value, VatLegs(b, doc.ref, doc.slices).value;
    var control, revenue := legs[0], legs[1];
    assert legs == [control] + ([revenue] + vat);
    VatLegsOn(b, doc.ref, doc.slices, account);
    OneLeg(control, account);
    OneLeg(revenue, account);
    ConcatAdds([revenue], vat, account);
    ConcatAdds([control], [revenue] + vat, account);
    hide DebitOn, CreditOn, VatLegs, VatOn;
  }

  /** The VAT accounts carry exactly the VAT of the document, split by rate. */
  lemma {:induction false} VatLegsByRate(b: Bindings, ref: string, slices: seq<Slice>, byRate: map<int, int>, rate: int)
    requires Lists(slices, byRate) && VatLegs(b, ref, slices).Done?
    ensures RateCredits(VatLegs(b, ref, slices).value, rate) == if rate in byRate then byRate[rate] else 0
  {
    var rates := RatesOf(slices);
    if slices == [] {
      assert rate in byRate.Keys <==> rate in rates;
    } else {
      var n := |slices| - 1;
      var k := slices[n].rateBps;
      LastSlice(slices, byRate);
      VatLegsByRate(b, ref, slices[..n], byRate - {k}, rate);
      var legs, all := VatLegs(b, ref, slices[..n]).value, VatLegs(b, ref, slices).value;
      if slices[n].vat != 0 {
        assert all[..|legs|] == legs;
      }
    }
  }

  function RateCredits(lines: seq<EntryLine>, rate: int): int {
    if lines == [] then 0
    else
      var l := lines[|lines| - 1];
      RateCredits(lines[..|lines| - 1], rate) + if l.vatRateBps == rate then l.credit else 0
  }
}
