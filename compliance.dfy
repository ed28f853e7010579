/**
 * The figures behind the compliance reports: what was planned and what was
 * actually invoiced by a sales area in a month, up to a month or in a whole
 * year, the guarded percentage between them, and the collection cycle.
 *
 * An invoice counts toward the actual figures when its date falls in the
 * window and its state is not "no firmada" in any letter case; invoices
 * without a date never count.  An aggregate over nothing is 0.
 */
module Compliance {
  import opened Common
  import opened Text
  import opened Lines
  import opened InvoiceModel
  import opened Plans

  /** Kept by `.exclude(estado__nombre__iexact='no firmada')`: the state is not "no firmada" in any letter case. */
  predicate Recognized(inv: Invoice)
  {
    !IEquals(inv.estado.nombre, "no firmada")
  }

  /** `estado__nombre__iexact='firmada'`: signed and not yet paid. */
  predicate Signed(inv: Invoice)
  {
    IEquals(inv.estado.nombre, "firmada")
  }

  /** The exclusion ignores letter case: a state is dropped exactly when it
      spells "no firmada" in any mix of capitals, "NO FIRMADA" and
      "No Firmada" included. */
  lemma RecognizedIgnoresCase(inv: Invoice)
    ensures Recognized(inv) <==> LowerString(inv.estado.nombre) != "no firmada"
    ensures inv.estado.nombre == "NO FIRMADA" || inv.estado.nombre == "No Firmada" ==> !Recognized(inv)
  {
    LowerStringOfLowerCase("no firmada");
    if inv.estado.nombre == "NO FIRMADA" || inv.estado.nombre == "No Firmada" {
      assert LowerString(inv.estado.nombre) == "no firmada";
    }
  }

  /** A state that matches "firmada" ignoring case never matches
      "no firmada": the signed state is not the excluded one. */
  lemma SignedIsRecognized(inv: Invoice)
    ensures Signed(inv) ==> Recognized(inv)
  {
    assert |LowerString("firmada")| != |LowerString("no firmada")|;
  }

  /** The month filters the reports use within a year. */
  datatype Window = InMonth(m: int) | ThroughMonth(m: int) | WholeYear

  predicate MonthIn(month: int, w: Window)
  {
    match w
    case InMonth(m) => month == m
    case ThroughMonth(m) => month <= m
    case WholeYear => true
  }

  /** The invoice enters the company-wide actual figure of the window. */
  predicate CountsForCompany(inv: Invoice, year: int, w: Window)
  {
    inv.fecha.Some? && inv.fecha.value.year == year && MonthIn(inv.fecha.value.month, w) && Recognized(inv)
  }

  /** The invoice enters the area's actual figure of the window. */
  predicate Counts(inv: Invoice, areaId: nat, year: int, w: Window)
  {
    inv.area.id == areaId && CountsForCompany(inv, year, w)
  }

  /** `Sum('items__importe')` over the area's counted invoices, or 0. */
  function Actual(invs: seq<Invoice>, areaId: nat, year: int, w: Window): int
  {
    if invs == [] then 0
    else
      var last := invs[|invs| - 1];
      Actual(invs[..|invs| - 1], areaId, year, w) + (if Counts(last, areaId, year, w) then Total(last.items) else 0)
  }

  /** The same sum without the area filter (`ventas_del_anio` for the whole year). */
  function CompanyActual(invs: seq<Invoice>, year: int, w: Window): int
  {
    if invs == [] then 0
    else
      var last := invs[|invs| - 1];
      CompanyActual(invs[..|invs| - 1], year, w) + (if CountsForCompany(last, year, w) then Total(last.items) else 0)
  }

  /** `cuentas_por_cobrar`: the items of every signed invoice, whatever its date. */
  function SignedTotal(invs: seq<Invoice>): int
  {
    if invs == [] then 0
    else
      var last := invs[|invs| - 1];
      SignedTotal(invs[..|invs| - 1]) + (if Signed(last) then Total(last.items) else 0)
  }

  predicate PlanCounts(p: Plan, areaId: nat, year: int, w: Window)
  {
    p.area.id == areaId && p.anno == year && MonthIn(p.mes, w)
  }

  /** `Sum('plan')` over the area's plans in the window, or 0. */
  function Planned(plans: seq<Plan>, areaId: nat, year: int, w: Window): int
  {
    if plans == [] then 0
    else
      var last := plans[|plans| - 1];
      Planned(plans[..|plans| - 1], areaId, year, w) + (if PlanCounts(last, areaId, year, w) then last.plan else 0)
  }

  /** `.filter(area, anno, mes).first()`: the amount of the first plan for the
      slot, or 0 when there is none. */
  function FirstPlanAmount(plans: seq<Plan>, areaId: nat, year: int, month: int): (r: int)
    ensures (forall i :: 0 <= i < |plans| ==> !PlanCounts(plans[i], areaId, year, InMonth(month))) ==> r == 0
    ensures r != 0 ==> exists i :: 0 <= i < |plans| && PlanCounts(plans[i], areaId, year, InMonth(month)) && plans[i].plan == r
  {
    if plans == [] then 0
    else if PlanCounts(plans[0], areaId, year, InMonth(month)) then plans[0].plan
    else
      var r := FirstPlanAmount(plans[1..], areaId, year, month);
      assert r != 0 ==> exists i :: 0 <= i < |plans| && PlanCounts(plans[i], areaId, year, InMonth(month)) && plans[i].plan == r by {
        if r != 0 {
          var i :| 0 <= i < |plans[1..]| && PlanCounts(plans[1..][i], areaId, year, InMonth(month)) && plans[1..][i].plan == r;
          assert plans[i + 1] == plans[1..][i];
        }
      }
      r
  }

  /** A compliance percentage, `real / plan * 100`, and exactly 0 unless the
      plan is positive. */
  function Pct(real_: int, plan: int): (r: real)
    ensures plan <= 0 ==> r == 0.0
    ensures plan > 0 ==> r * (plan as real) == (real_ as real) * 100.0
    ensures plan > 0 ==> (r == 100.0 <==> real_ == plan)
    ensures plan > 0 && real_ >= 0 ==> r >= 0.0
    ensures plan > 0 ==> (r <= 100.0 <==> real_ <= plan)
  {
    if plan > 0 then
      var r := (real_ as real) / (plan as real) * 100.0;
      ScaleByPositive(r, 100.0, plan as real);
      r
    else 0.0
  }

  /** Multiplying by a positive factor keeps order and equality. */
  lemma ScaleByPositive(x: real, y: real, p: real)
    requires p > 0.0
    ensures x * p <= y * p <==> x <= y
    ensures x * p == y * p <==> x == y
  {
    assert x * p - y * p == (x - y) * p;
  }

  /** `int(x)` of a ratio: the quotient rounded toward zero. */
  function TruncQuotient(a: int, b: int): (q: int)
    requires b > 0
    ensures a >= 0 ==> q >= 0 && q * b <= a < q * b + b
    ensures a < 0 ==> q <= 0 && q * b - b < a <= q * b
  {
    if a >= 0 then
      DivBounds(a, b);
      a / b
    else
      DivBounds(-a, b);
      NegateProduct((-a) / b, b);
      -((-a) / b)
  }

  lemma DivBounds(a: int, b: int)
    requires a >= 0 && b > 0
    ensures a / b >= 0 && (a / b) * b <= a < (a / b) * b + b
  {
    assert a == (a / b) * b + a % b;
  }

  lemma NegateProduct(p: int, b: int)
    ensures (-p) * b == -(p * b)
  {
  }

  /** The collection cycle in days: receivables over the year's sales times
      the days elapsed, truncated; 0 unless both sales and days are positive. */
  function CollectionCycle(receivable: int, sales: int, days: int): (r: int)
    ensures !(sales > 0 && days > 0) ==> r == 0
    ensures sales > 0 && days > 0 && receivable >= 0 ==>
              r >= 0 && r * sales <= receivable * days < r * sales + sales
    ensures sales > 0 && days > 0 && 0 <= receivable <= sales ==> r <= days
  {
    if sales > 0 && days > 0 then
      var q := TruncQuotient(receivable * days, sales);
      if 0 <= receivable then CycleBound(receivable, sales, days, q); q else q
    else 0
  }

  /** A truncated share of `days` never exceeds `days` while the
      receivable does not exceed the sales. */
  lemma CycleBound(receivable: int, sales: int, days: int, q: int)
    requires sales > 0 && days > 0 && receivable >= 0
    requires q * sales <= receivable * days
    ensures receivable <= sales ==> q <= days
  {
    if receivable <= sales {
      assert receivable * days <= sales * days by {
        assert (sales - receivable) * days >= 0;
      }
      assert (days - q) * sales >= 0;
    }
  }

  /** The dashboard's collection cycle for the year: 0 without sales or
      elapsed days; with non-negative invoice totals it is never negative,
      and it stays within the days elapsed while the signed receivables do
      not exceed the year's sales. */
  function DashboardCycle(invs: seq<Invoice>, year: int, days: int): (r: int)
    ensures CompanyActual(invs, year, WholeYear) <= 0 || days <= 0 ==> r == 0
    ensures (forall i :: 0 <= i < |invs| ==> Total(invs[i].items) >= 0) ==> r >= 0
    ensures (days > 0 && SignedTotal(invs) <= CompanyActual(invs, year, WholeYear) &&
             forall i :: 0 <= i < |invs| ==> Total(invs[i].items) >= 0) ==> r <= days
  {
    SignedTotalBounds(invs);
    CompanyActualBounds(invs, year, WholeYear);
    CollectionCycle(SignedTotal(invs), CompanyActual(invs, year, WholeYear), days)
  }

  // ---------------------------------------------------------------------
  // Properties of the figures
  // ---------------------------------------------------------------------

  /** Appending an invoice adds its item total to the area's actual figure
      exactly when it counts: right area, dated in the window, not
      "no firmada". */
  lemma ActualSnoc(invs: seq<Invoice>, x: Invoice, areaId: nat, year: int, w: Window)
    ensures Actual(invs + [x], areaId, year, w) ==
            Actual(invs, areaId, year, w) + (if Counts(x, areaId, year, w) then Total(x.items) else 0)
  {
    assert (invs + [x])[..|invs|] == invs;
  }

  lemma CompanyActualSnoc(invs: seq<Invoice>, x: Invoice, year: int, w: Window)
    ensures CompanyActual(invs + [x], year, w) ==
            CompanyActual(invs, year, w) + (if CountsForCompany(x, year, w) then Total(x.items) else 0)
  {
    assert (invs + [x])[..|invs|] == invs;
  }

  /** Up to month m is up to month m - 1 plus month m. */
  lemma {:induction false} ActualThroughSplit(invs: seq<Invoice>, areaId: nat, year: int, m: int)
    ensures Actual(invs, areaId, year, ThroughMonth(m)) ==
            Actual(invs, areaId, year, ThroughMonth(m - 1)) + Actual(invs, areaId, year, InMonth(m))
    decreases |invs|
  {
    if invs != [] {
      ActualThroughSplit(invs[..|invs| - 1], areaId, year, m);
    }
  }

  lemma {:induction false} PlannedThroughSplit(plans: seq<Plan>, areaId: nat, year: int, m: int)
    ensures Planned(plans, areaId, year, ThroughMonth(m)) ==
            Planned(plans, areaId, year, ThroughMonth(m - 1)) + Planned(plans, areaId, year, InMonth(m))
    decreases |plans|
  {
    if plans != [] {
      PlannedThroughSplit(plans[..|plans| - 1], areaId, year, m);
    }
  }

  /** Plans are for months 1..12 and invoice dates fall in months 1..12. */
  predicate PlanMonthsValid(plans: seq<Plan>)
  {
    forall i :: 0 <= i < |plans| ==> ValidMonth(plans[i].mes)
  }

  predicate InvoiceMonthsValid(invs: seq<Invoice>)
  {
    forall i :: 0 <= i < |invs| ==> invs[i].fecha.Some? ==> ValidMonth(invs[i].fecha.value.month)
  }

  /** Sum of the monthly plans of months 1..m. */
  function MonthlyPlans(plans: seq<Plan>, areaId: nat, year: int, m: int): int
    decreases m
  {
    if m <= 0 then 0 else MonthlyPlans(plans, areaId, year, m - 1) + Planned(plans, areaId, year, InMonth(m))
  }

  lemma {:induction false} PlannedBeforeJanuary(plans: seq<Plan>, areaId: nat, year: int, m: int)
    requires PlanMonthsValid(plans) && m <= 0
    ensures Planned(plans, areaId, year, ThroughMonth(m)) == 0
    decreases |plans|
  {
    if plans != [] {
      PlannedBeforeJanuary(plans[..|plans| - 1], areaId, year, m);
    }
  }

  /** The cumulative plan is the sum of the monthly plans of January
      through month m. */
  lemma {:induction false} CumulativePlanIsMonthlySum(plans: seq<Plan>, areaId: nat, year: int, m: int)
    requires PlanMonthsValid(plans)
    ensures Planned(plans, areaId, year, ThroughMonth(m)) == MonthlyPlans(plans, areaId, year, m)
    decreases if m < 0 then 0 else m
  {
    if m <= 0 {
      PlannedBeforeJanuary(plans, areaId, year, m);
    } else {
      PlannedThroughSplit(plans, areaId, year, m);
      CumulativePlanIsMonthlySum(plans, areaId, year, m - 1);
    }
  }

  /** With valid months, up to December is the whole year, for plans and
      for invoices alike. */
  lemma {:induction false} PlannedThroughDecember(plans: seq<Plan>, areaId: nat, year: int)
    requires PlanMonthsValid(plans)
    ensures Planned(plans, areaId, year, ThroughMonth(12)) == Planned(plans, areaId, year, WholeYear)
    decreases |plans|
  {
    if plans != [] {
      PlannedThroughDecember(plans[..|plans| - 1], areaId, year);
    }
  }

  lemma {:induction false} ActualThroughDecember(invs: seq<Invoice>, areaId: nat, year: int)
    requires InvoiceMonthsValid(invs)
    ensures Actual(invs, areaId, year, ThroughMonth(12)) == Actual(invs, areaId, year, WholeYear)
    decreases |invs|
  {
    if invs != [] {
      ActualThroughDecember(invs[..|invs| - 1], areaId, year);
    }
  }

  /** With at most one plan per slot, the first plan of the slot is the sum
      of the slot's plans, so `.first()` and `Sum` agree. */
  lemma {:induction false} FirstPlanIsMonthlyPlan(plans: seq<Plan>, areaId: nat, year: int, month: int)
    requires SlotsUnique(plans)
    ensures FirstPlanAmount(plans, areaId, year, month) == Planned(plans, areaId, year, InMonth(month))
    decreases |plans|
  {
    if plans != [] {
      var rest := plans[1..];
      assert SlotsUnique(rest) by {
        forall i, j | 0 <= i < j < |rest| ensures !SameSlot(rest[i], rest[j]) {
          assert rest[i] == plans[i + 1] && rest[j] == plans[j + 1];
        }
      }
      FirstPlanIsMonthlyPlan(rest, areaId, year, month);
      PlannedFront(plans, areaId, year, InMonth(month));
      if PlanCounts(plans[0], areaId, year, InMonth(month)) {
        NoOtherPlanInSlot(plans, areaId, year, month);
      }
    }
  }

  lemma {:induction false} PlannedFront(plans: seq<Plan>, areaId: nat, year: int, w: Window)
    requires plans != []
    ensures Planned(plans, areaId, year, w) ==
            (if PlanCounts(plans[0], areaId, year, w) then plans[0].plan else 0) + Planned(plans[1..], areaId, year, w)
    decreases |plans|
  {
    if |plans| > 1 {
      var front := plans[..|plans| - 1];
      PlannedFront(front, areaId, year, w);
      assert front[1..] == plans[1..][..|plans[1..]| - 1];
    }
  }

  lemma NoOtherPlanInSlot(plans: seq<Plan>, areaId: nat, year: int, month: int)
    requires plans != [] && SlotsUnique(plans)
    requires PlanCounts(plans[0], areaId, year, InMonth(month))
    ensures Planned(plans[1..], areaId, year, InMonth(month)) == 0
  {
    var rest := plans[1..];
    forall i | 0 <= i < |rest| ensures !PlanCounts(rest[i], areaId, year, InMonth(month)) {
      assert rest[i] == plans[i + 1];
      assert !SameSlot(plans[0], plans[i + 1]);
    }
    PlannedBounds(rest, areaId, year, InMonth(month));
  }

  // ---------------------------------------------------------------------
  // Empty and non-negative sums
  // ---------------------------------------------------------------------

  /** The `or 0` of an empty aggregate: nothing counted sums to 0, and
      non-negative invoice totals give a non-negative figure. */
  lemma {:induction false} ActualBounds(invs: seq<Invoice>, areaId: nat, year: int, w: Window)
    ensures (forall i :: 0 <= i < |invs| ==> !Counts(invs[i], areaId, year, w)) ==> Actual(invs, areaId, year, w) == 0
    ensures (forall i :: 0 <= i < |invs| ==> Total(invs[i].items) >= 0) ==> Actual(invs, areaId, year, w) >= 0
    decreases |invs|
  {
    if invs != [] {
      ActualBounds(invs[..|invs| - 1], areaId, year, w);
    }
  }

  lemma {:induction false} CompanyActualBounds(invs: seq<Invoice>, year: int, w: Window)
    ensures (forall i :: 0 <= i < |invs| ==> !CountsForCompany(invs[i], year, w)) ==> CompanyActual(invs, year, w) == 0
    ensures (forall i :: 0 <= i < |invs| ==> Total(invs[i].items) >= 0) ==> CompanyActual(invs, year, w) >= 0
    decreases |invs|
  {
    if invs != [] {
      CompanyActualBounds(invs[..|invs| - 1], year, w);
    }
  }

  lemma {:induction false} SignedTotalBounds(invs: seq<Invoice>)
    ensures (forall i :: 0 <= i < |invs| ==> !Signed(invs[i])) ==> SignedTotal(invs) == 0
    ensures (forall i :: 0 <= i < |invs| ==> Total(invs[i].items) >= 0) ==> SignedTotal(invs) >= 0
    decreases |invs|
  {
    if invs != [] {
      SignedTotalBounds(invs[..|invs| - 1]);
    }
  }

  /** Plans outside the filter sum to 0; plan amounts, which the plan form
      keeps non-negative, give a non-negative sum. */
  lemma {:induction false} PlannedBounds(plans: seq<Plan>, areaId: nat, year: int, w: Window)
    ensures (forall i :: 0 <= i < |plans| ==> !PlanCounts(plans[i], areaId, year, w)) ==> Planned(plans, areaId, year, w) == 0
    ensures (forall i :: 0 <= i < |plans| ==> plans[i].plan >= 0) ==> Planned(plans, areaId, year, w) >= 0
    decreases |plans|
  {
    if plans != [] {
      PlannedBounds(plans[..|plans| - 1], areaId, year, w);
    }
  }

  // ---------------------------------------------------------------------
  // Area figures against company figures
  // ---------------------------------------------------------------------

  /** The sum of an actual figure over a list of areas. */
  function AreasActual(areas: seq<Area>, invs: seq<Invoice>, year: int, w: Window): int
  {
    if areas == [] then 0
    else AreasActual(areas[..|areas| - 1], invs, year, w) + Actual(invs, areas[|areas| - 1].id, year, w)
  }

  /** The sum of a planned figure over a list of areas. */
  function AreasPlanned(areas: seq<Area>, plans: seq<Plan>, year: int, w: Window): int
  {
    if areas == [] then 0
    else AreasPlanned(areas[..|areas| - 1], plans, year, w) + Planned(plans, areas[|areas| - 1].id, year, w)
  }

  /** The sum of the areas' first plans for a month. */
  function AreasFirstPlan(areas: seq<Area>, plans: seq<Plan>, year: int, month: int): int
  {
    if areas == [] then 0
    else AreasFirstPlan(areas[..|areas| - 1], plans, year, month) + FirstPlanAmount(plans, areas[|areas| - 1].id, year, month)
  }

  /** Under unique slots the areas' first plans add up to their monthly plans. */
  lemma {:induction false} AreasFirstPlanIsMonthlyPlan(areas: seq<Area>, plans: seq<Plan>, year: int, month: int)
    requires SlotsUnique(plans)
    ensures AreasFirstPlan(areas, plans, year, month) == AreasPlanned(areas, plans, year, InMonth(month))
    decreases |areas|
  {
    if areas != [] {
      AreasFirstPlanIsMonthlyPlan(areas[..|areas| - 1], plans, year, month);
      FirstPlanIsMonthlyPlan(plans, areas[|areas| - 1].id, year, month);
    }
  }

  predicate AreaIdsDistinct(areas: seq<Area>)
  {
    forall i, j :: 0 <= i < j < |areas| ==> areas[i].id != areas[j].id
  }

  predicate AreaListed(areas: seq<Area>, id: nat)
  {
    exists i :: 0 <= i < |areas| && areas[i].id == id
  }

  /** What one invoice adds to the sum over areas. */
  function Share(areas: seq<Area>, x: Invoice, year: int, w: Window): int
  {
    if areas == [] then 0
    else Share(areas[..|areas| - 1], x, year, w) +
         (if Counts(x, areas[|areas| - 1].id, year, w) then Total(x.items) else 0)
  }

  lemma {:induction false} AreasActualSnoc(areas: seq<Area>, invs: seq<Invoice>, x: Invoice, year: int, w: Window)
    ensures AreasActual(areas, invs + [x], year, w) == AreasActual(areas, invs, year, w) + Share(areas, x, year, w)
    decreases |areas|
  {
    if areas != [] {
      AreasActualSnoc(areas[..|areas| - 1], invs, x, year, w);
      ActualSnoc(invs, x, areas[|areas| - 1].id, year, w);
    }
  }

  /** An invoice whose area is listed exactly once is shared out to that
      area alone. */
  lemma {:induction false} ShareOfListedArea(areas: seq<Area>, x: Invoice, year: int, w: Window)
    requires AreaIdsDistinct(areas)
    ensures AreaListed(areas, x.area.id) ==>
              Share(areas, x, year, w) == (if CountsForCompany(x, year, w) then Total(x.items) else 0)
    ensures !AreaListed(areas, x.area.id) ==> Share(areas, x, year, w) == 0
    decreases |areas|
  {
    if areas != [] {
      var front := areas[..|areas| - 1];
      var last := areas[|areas| - 1];
      assert AreaIdsDistinct(front);
      ShareOfListedArea(front, x, year, w);
      if last.id == x.area.id {
        assert !AreaListed(front, x.area.id) by {
          forall i | 0 <= i < |front| ensures front[i].id != x.area.id {
            assert front[i] == areas[i];
          }
        }
      } else {
        assert AreaListed(areas, x.area.id) <==> AreaListed(front, x.area.id) by {
          if AreaListed(areas, x.area.id) {
            var i :| 0 <= i < |areas| && areas[i].id == x.area.id;
            assert front[i] == areas[i];
          }
          if AreaListed(front, x.area.id) {
            var i :| 0 <= i < |front| && front[i].id == x.area.id;
            assert areas[i] == front[i];
          }
        }
      }
    }
  }

  /** When the areas are listed once each and every invoice belongs to a
      listed area, the per-area actual figures add up to the company-wide
      figure: the TOTAL row's annual actual equals the year's sales. */
  lemma {:induction false} AreasAddUpToCompany(areas: seq<Area>, invs: seq<Invoice>, year: int, w: Window)
    requires AreaIdsDistinct(areas)
    requires forall i :: 0 <= i < |invs| ==> AreaListed(areas, invs[i].area.id)
    ensures AreasActual(areas, invs, year, w) == CompanyActual(invs, year, w)
    decreases |invs|
  {
    if invs == [] {
      AreasActualEmpty(areas, year, w);
    } else {
      var front := invs[..|invs| - 1];
      var x := invs[|invs| - 1];
      assert invs == front + [x];
      AreasAddUpToCompany(areas, front, year, w);
      AreasActualSnoc(areas, front, x, year, w);
      ShareOfListedArea(areas, x, year, w);
      CompanyActualSnoc(front, x, year, w);
    }
  }

  lemma {:induction false} AreasActualEmpty(areas: seq<Area>, year: int, w: Window)
    ensures AreasActual(areas, [], year, w) == 0
    decreases |areas|
  {
    if areas != [] {
      AreasActualEmpty(areas[..|areas| - 1], year, w);
    }
  }
}
