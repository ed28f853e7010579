/**
 * The two compliance reports built from the figures of `Compliance`: the
 * dashboard table for the current month and the per-month table behind its
 * month selector.  Both walk the sales areas in the order given, append one
 * row per area and close with a TOTAL row whose percentages are computed
 * from the summed plan and actual columns.
 *
 * The reports differ in two places, both kept as written: the dashboard's
 * annual actual is the whole year, the table's is January through the
 * selected month; and the table's monthly plan is the first plan found for
 * the slot, not a sum.
 */
module Dashboard {
  import opened Common
  import opened Lines
  import opened InvoiceModel
  import opened Plans
  import opened Compliance

  // ---------------------------------------------------------------------
  // The dashboard table
  // ---------------------------------------------------------------------

  datatype DashboardRow = DashboardRow(
    nombre: string,
    planMensual: int, realMes: int, cumplimiento: real,
    planAcumulado: int, planAnual: int, realAnual: int,
    cumplimientoAcum: real, cumplimientoAnual: real,
    isTotal: bool)

  /** One area's row: plan and actual of the month, plan through the month,
      plan and actual of the whole year.  The cumulative percentage divides
      the whole year's actual by the plan through the month. */
  function AreaRow(area: Area, plans: seq<Plan>, invs: seq<Invoice>, year: int, month: int): DashboardRow
  {
    var planMes := Planned(plans, area.id, year, InMonth(month));
    var realMes := Actual(invs, area.id, year, InMonth(month));
    var planAcum := Planned(plans, area.id, year, ThroughMonth(month));
    var planAnual := Planned(plans, area.id, year, WholeYear);
    var realAnual := Actual(invs, area.id, year, WholeYear);
    DashboardRow(area.nombre, planMes, realMes, Pct(realMes, planMes), planAcum, planAnual, realAnual,
                 Pct(realAnual, planAcum), Pct(realAnual, planAnual), false)
  }

  /** The TOTAL row: the summed columns and percentages of those sums. */
  function DashboardTotal(planMes: int, realMes: int, planAcum: int, planAnual: int, realAnual: int): DashboardRow
  {
    DashboardRow("TOTAL", planMes, realMes, Pct(realMes, planMes), planAcum, planAnual, realAnual,
                 Pct(realAnual, planAcum), Pct(realAnual, planAnual), true)
  }

  /** `dashboard`: one row per area, then the TOTAL row built from running
      totals of the five figures. */
  method Dashboard(areas: seq<Area>, plans: seq<Plan>, invs: seq<Invoice>, year: int, month: int)
    returns (rows: seq<DashboardRow>)
    ensures |rows| == |areas| + 1
    ensures forall i :: 0 <= i < |areas| ==> rows[i] == AreaRow(areas[i], plans, invs, year, month)
    ensures rows[|areas|] == DashboardTotal(
              AreasPlanned(areas, plans, year, InMonth(month)),
              AreasActual(areas, invs, year, InMonth(month)),
              AreasPlanned(areas, plans, year, ThroughMonth(month)),
              AreasPlanned(areas, plans, year, WholeYear),
              AreasActual(areas, invs, year, WholeYear))
  {
    rows := [];
    var planMesTotal, realMesTotal, planAcumTotal, planAnualTotal, realAnualTotal := 0, 0, 0, 0, 0;
    for i := 0 to |areas|
      invariant |rows| == i
      invariant forall j :: 0 <= j < i ==> rows[j] == AreaRow(areas[j], plans, invs, year, month)
      invariant planMesTotal == AreasPlanned(areas[..i], plans, year, InMonth(month))
      invariant realMesTotal == AreasActual(areas[..i], invs, year, InMonth(month))
      invariant planAcumTotal == AreasPlanned(areas[..i], plans, year, ThroughMonth(month))
      invariant planAnualTotal == AreasPlanned(areas[..i], plans, year, WholeYear)
      invariant realAnualTotal == AreasActual(areas[..i], invs, year, WholeYear)
    {
      var row := AreaRow(areas[i], plans, invs, year, month);
      rows := rows + [row];
      AreasStep(areas, plans, invs, year, month, i);
      planMesTotal := planMesTotal + row.planMensual;
      realMesTotal := realMesTotal + row.realMes;
      planAcumTotal := planAcumTotal + row.planAcumulado;
      planAnualTotal := planAnualTotal + row.planAnual;
      realAnualTotal := realAnualTotal + row.realAnual;
    }
    assert areas[..|areas|] == areas;
    rows := rows + [DashboardTotal(planMesTotal, realMesTotal, planAcumTotal, planAnualTotal, realAnualTotal)];
  }

  /** One more area adds that area's five figures to the running sums. */
  lemma AreasStep(areas: seq<Area>, plans: seq<Plan>, invs: seq<Invoice>, year: int, month: int, i: nat)
    requires i < |areas|
    ensures AreasPlanned(areas[..i + 1], plans, year, InMonth(month)) ==
            AreasPlanned(areas[..i], plans, year, InMonth(month)) + Planned(plans, areas[i].id, year, InMonth(month))
    ensures AreasActual(areas[..i + 1], invs, year, InMonth(month)) ==
            AreasActual(areas[..i], invs, year, InMonth(month)) + Actual(invs, areas[i].id, year, InMonth(month))
    ensures AreasPlanned(areas[..i + 1], plans, year, ThroughMonth(month)) ==
            AreasPlanned(areas[..i], plans, year, ThroughMonth(month)) + Planned(plans, areas[i].id, year, ThroughMonth(month))
    ensures AreasPlanned(areas[..i + 1], plans, year, WholeYear) ==
            AreasPlanned(areas[..i], plans, year, WholeYear) + Planned(plans, areas[i].id, year, WholeYear)
    ensures AreasActual(areas[..i + 1], invs, year, WholeYear) ==
            AreasActual(areas[..i], invs, year, WholeYear) + Actual(invs, areas[i].id, year, WholeYear)
  {
    assert areas[..i + 1][..i] == areas[..i];
  }

  // ---------------------------------------------------------------------
  // The per-month table
  // ---------------------------------------------------------------------

  datatype TableRow = TableRow(
    nombre: string,
    planMensual: int, realMes: int, cumplimiento: real,
    planAcumulado: int, realAcumulado: int,
    planAnual: int, realAnual: int,
    cumplimientoAcum: real, cumplimientoAnual: real,
    isTotal: bool)

  /** The month the table shows: the requested one when it is an integer
      from 1 to 12, otherwise the current month. */
  function SelectMonth(requested: IntParam, current: int): (m: int)
    requires ValidMonth(current)
    ensures ValidMonth(m)
    ensures requested.Value? && ValidMonth(requested.n) ==> m == requested.n
    ensures !(requested.Value? && ValidMonth(requested.n)) ==> m == current
  {
    if requested.Value? && 1 <= requested.n <= 12 then requested.n else current
  }

  /** One area's row of the table for a month.  The monthly plan is the first
      plan for the slot; actual "through the month" and actual "of the
      year" are the same query. */
  function TableAreaRow(area: Area, plans: seq<Plan>, invs: seq<Invoice>, year: int, month: int): TableRow
  {
    var planMes := FirstPlanAmount(plans, area.id, year, month);
    var realMes := Actual(invs, area.id, year, InMonth(month));
    var planAcum := Planned(plans, area.id, year, ThroughMonth(month));
    var realAcum := Actual(invs, area.id, year, ThroughMonth(month));
    var planAnual := Planned(plans, area.id, year, WholeYear);
    var realAnual := Actual(invs, area.id, year, ThroughMonth(month));
    TableRow(area.nombre, planMes, realMes, Pct(realMes, planMes), planAcum, realAcum, planAnual, realAnual,
             Pct(realAnual, planAcum), Pct(realAnual, planAnual), false)
  }

  function TableTotal(planMes: int, realMes: int, planAcum: int, realAcum: int, planAnual: int, realAnual: int): TableRow
  {
    TableRow("TOTAL", planMes, realMes, Pct(realMes, planMes), planAcum, realAcum, planAnual, realAnual,
             Pct(realAnual, planAcum), Pct(realAnual, planAnual), true)
  }

  /** `tabla_areas_por_mes`: select the month, one row per area, then the
      TOTAL row of the column sums.  Every row, TOTAL included, has equal
      cumulative and annual actual figures. */
  method MonthTable(areas: seq<Area>, plans: seq<Plan>, invs: seq<Invoice>, year: int,
                    requested: IntParam, currentMonth: int) returns (month: int, rows: seq<TableRow>)
    requires ValidMonth(currentMonth)
    ensures month == SelectMonth(requested, currentMonth) && ValidMonth(month)
    ensures |rows| == |areas| + 1
    ensures forall i :: 0 <= i < |areas| ==> rows[i] == TableAreaRow(areas[i], plans, invs, year, month)
    ensures rows[|areas|] == TableTotal(
              AreasFirstPlan(areas, plans, year, month),
              AreasActual(areas, invs, year, InMonth(month)),
              AreasPlanned(areas, plans, year, ThroughMonth(month)),
              AreasActual(areas, invs, year, ThroughMonth(month)),
              AreasPlanned(areas, plans, year, WholeYear),
              AreasActual(areas, invs, year, ThroughMonth(month)))
    ensures forall i :: 0 <= i < |rows| ==> rows[i].realAcumulado == rows[i].realAnual
  {
    month := SelectMonth(requested, currentMonth);
    rows := [];
    for i := 0 to |areas|
      invariant |rows| == i
      invariant forall j :: 0 <= j < i ==> rows[j] == TableAreaRow(areas[j], plans, invs, year, month)
    {
      rows := rows + [TableAreaRow(areas[i], plans, invs, year, month)];
    }
    rows := rows + [TableTotal(
              AreasFirstPlan(areas, plans, year, month),
              AreasActual(areas, invs, year, InMonth(month)),
              AreasPlanned(areas, plans, year, ThroughMonth(month)),
              AreasActual(areas, invs, year, ThroughMonth(month)),
              AreasPlanned(areas, plans, year, WholeYear),
              AreasActual(areas, invs, year, ThroughMonth(month)))];
  }

  // ---------------------------------------------------------------------
  // How the two reports relate
  // ---------------------------------------------------------------------

  /** With unique slots the table's monthly plan is the dashboard's, for
      every area and for the TOTAL row. */
  lemma TablePlanMatchesDashboard(areas: seq<Area>, plans: seq<Plan>, invs: seq<Invoice>, year: int, month: int)
    requires SlotsUnique(plans)
    ensures forall a :: TableAreaRow(a, plans, invs, year, month).planMensual == AreaRow(a, plans, invs, year, month).planMensual
    ensures AreasFirstPlan(areas, plans, year, month) == AreasPlanned(areas, plans, year, InMonth(month))
  {
    forall a ensures TableAreaRow(a, plans, invs, year, month).planMensual == AreaRow(a, plans, invs, year, month).planMensual {
      FirstPlanIsMonthlyPlan(plans, a.id, year, month);
    }
    AreasFirstPlanIsMonthlyPlan(areas, plans, year, month);
  }

  /** The table for December shows the dashboard's annual actual figure,
      when invoice months are valid. */
  lemma DecemberTableMatchesDashboard(area: Area, plans: seq<Plan>, invs: seq<Invoice>, year: int, month: int)
    requires InvoiceMonthsValid(invs)
    ensures TableAreaRow(area, plans, invs, year, 12).realAnual == AreaRow(area, plans, invs, year, month).realAnual
  {
    ActualThroughDecember(invs, area.id, year);
  }

  /** For any earlier month the two "annual actual" figures can differ: an
      invoice of December counts in the dashboard but not in the table for
      November. */
  lemma AnnualActualsDiffer()
    ensures
      var area := Area(1, "Ventas", None);
      var inv := Invoice(1, "2025-0001", Some(Date(2025, 12, 1)), area, Client(1, "C", None, None), None,
                         Status(2, "Firmada"), 1, [Line(1, 1, 1, 500, 500)]);
      TableAreaRow(area, [], [inv], 2025, 11).realAnual == 0 &&
      AreaRow(area, [], [inv], 2025, 11).realAnual == 500
  {
    var area := Area(1, "Ventas", None);
    var inv := Invoice(1, "2025-0001", Some(Date(2025, 12, 1)), area, Client(1, "C", None, None), None,
                       Status(2, "Firmada"), 1, [Line(1, 1, 1, 500, 500)]);
    assert [inv][..0] == [];
    assert Recognized(inv);
  }

  /** When every invoice belongs to one of the listed areas, the dashboard's
      TOTAL annual actual is the year's sales used by the collection cycle. */
  lemma DashboardTotalIsYearSales(areas: seq<Area>, invs: seq<Invoice>, year: int)
    requires AreaIdsDistinct(areas)
    requires forall i :: 0 <= i < |invs| ==> AreaListed(areas, invs[i].area.id)
    ensures DashboardTotal(0, 0, 0, 0, AreasActual(areas, invs, year, WholeYear)).realAnual ==
            CompanyActual(invs, year, WholeYear)
  {
    AreasAddUpToCompany(areas, invs, year, WholeYear);
  }
}
