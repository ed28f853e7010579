/**
 * Monthly sales plans: one amount per sales area, year and month.  The
 * model's `clean()` refuses a plan whose (area, year, month) slot is taken
 * by another plan; the listing filters plans by any of the three and offers
 * the distinct years, newest first.
 */
module Plans {
  import opened Common
  import opened Text

  /** A plan.  `id` is None until the plan is saved; `plan` is the amount in
      cents; `mes` is meant to be one of the twelve month choices. */
  datatype Plan = Plan(id: Option<nat>, area: Area, anno: int, mes: int, plan: int)

  /** The largest amount a 10-digit field with 2 decimals holds, in cents. */
  const MaxPlanCents: int := 99_999_999_99

  /** The field constraints: a non-negative amount that fits the decimal
      field, and a month among the choices. */
  predicate FieldsValid(p: Plan)
  {
    0 <= p.plan <= MaxPlanCents && ValidMonth(p.mes)
  }

  predicate SameSlot(p: Plan, q: Plan)
  {
    p.area.id == q.area.id && p.anno == q.anno && p.mes == q.mes
  }

  /** `q` is one of the plans the existence query of `clean()` finds for
      `p`: same slot, and not `p` itself.  For an unsaved `p` the exclusion
      by id removes nothing. */
  predicate ConflictsWith(p: Plan, q: Plan)
  {
    SameSlot(p, q) && q.id != p.id
  }

  predicate HasConflict(p: Plan, store: seq<Plan>)
  {
    exists i :: 0 <= i < |store| && ConflictsWith(p, store[i])
  }

  /** The `unique_together` constraint on (area, year, month). */
  predicate SlotsUnique(store: seq<Plan>)
  {
    forall i, j :: 0 <= i < j < |store| ==> !SameSlot(store[i], store[j])
  }

  /** `Plan.objects.filter(...).exclude(id=self.id).exists()`. */
  function ConflictExists(p: Plan, store: seq<Plan>): (b: bool)
    ensures b <==> HasConflict(p, store)
  {
    if store == [] then false
    else if ConflictsWith(p, store[0]) then true
    else
      var b := ConflictExists(p, store[1..]);
      assert HasConflict(p, store[1..]) ==> HasConflict(p, store) by {
        if HasConflict(p, store[1..]) {
          var i :| 0 <= i < |store[1..]| && ConflictsWith(p, store[1..][i]);
          assert store[i + 1] == store[1..][i];
        }
      }
      assert HasConflict(p, store) ==> HasConflict(p, store[1..]) by {
        if HasConflict(p, store) {
          var i :| 0 <= i < |store| && ConflictsWith(p, store[i]);
          assert store[1..][i - 1] == store[i];
        }
      }
      b
  }

  /** The rejection text: the area's name in quotes, the month's name, the year. */
  function DuplicateMessage(p: Plan): string
    requires ValidMonth(p.mes)
  {
    "Ya existe un plan para el área \"" + p.area.nombre + "\" en " + MonthName(p.mes) + " de " + IntToString(p.anno)
  }

  /** `Plan.clean()`.  Looking up the month's name for the message fails
      with a KeyError when the month is not among the choices. */
  function Clean(p: Plan, store: seq<Plan>): (r: Outcome)
    ensures r.Fail? <==> HasConflict(p, store)
    ensures r.Fail? && ValidMonth(p.mes) ==> r.error == DuplicatePlan(DuplicateMessage(p))
    ensures r.Fail? && !ValidMonth(p.mes) ==> r.error == UnknownMonth
  {
    if !ConflictExists(p, store) then Pass
    else if !ValidMonth(p.mes) then Fail(UnknownMonth)
    else Fail(DuplicatePlan(DuplicateMessage(p)))
  }

  /** Saved plans carry distinct ids. */
  predicate IdsDistinct(store: seq<Plan>)
  {
    forall i, j :: 0 <= i < j < |store| ==> store[i].id != store[j].id
  }

  /** `clean()` excludes the plan itself: re-validating a saved plan of a
      store without duplicate slots succeeds. */
  lemma CleanAcceptsSavedPlan(store: seq<Plan>, k: nat)
    requires k < |store|
    requires SlotsUnique(store) && IdsDistinct(store)
    ensures Clean(store[k], store) == Pass
  {
    forall i | 0 <= i < |store| ensures !ConflictsWith(store[k], store[i]) {
      if i < k {
        assert !SameSlot(store[i], store[k]);
      } else if i > k {
        assert !SameSlot(store[k], store[i]);
      }
    }
  }

  /** A new plan passes `clean()` exactly when its slot is free, and then
      adding it keeps the slots unique. */
  lemma CleanGuardsUniqueness(p: Plan, store: seq<Plan>)
    requires p.id.None?
    requires forall i :: 0 <= i < |store| ==> store[i].id.Some?
    requires SlotsUnique(store)
    ensures Clean(p, store) == Pass <==> forall i :: 0 <= i < |store| ==> !SameSlot(p, store[i])
    ensures Clean(p, store) == Pass ==> SlotsUnique(store + [p])
  {
    if Clean(p, store) == Pass {
      var s := store + [p];
      forall i, j | 0 <= i < j < |s| ensures !SameSlot(s[i], s[j]) {
        if j == |store| {
          assert !ConflictsWith(p, store[i]);
        }
      }
    }
  }

  /** The message names the area, the month and the year. */
  lemma DuplicateMessageNamesSlot(p: Plan)
    requires ValidMonth(p.mes)
    ensures IsInfix(p.area.nombre, DuplicateMessage(p))
    ensures IsInfix(MonthName(p.mes), DuplicateMessage(p))
    ensures IsInfix(IntToString(p.anno), DuplicateMessage(p))
  {
    var a := "Ya existe un plan para el área \"";
    var m := DuplicateMessage(p);
    var i1 := |a|;
    var i2 := |a| + |p.area.nombre| + |"\" en "|;
    var i3 := i2 + |MonthName(p.mes)| + |" de "|;
    assert m[i1..i1 + |p.area.nombre|] == p.area.nombre;
    assert InfixAt(p.area.nombre, m, i1);
    assert m[i2..i2 + |MonthName(p.mes)|] == MonthName(p.mes);
    assert InfixAt(MonthName(p.mes), m, i2);
    assert m[i3..] == IntToString(p.anno);
    assert InfixAt(IntToString(p.anno), m, i3);
  }

  // ---------------------------------------------------------------------
  // Listing
  // ---------------------------------------------------------------------

  /** One optional filter of the listing: applied only when the parameter
      is present and non-empty. */
  predicate Keeps(filter: IntParam, value: int)
  {
    Falsy(filter) || (filter.Value? && filter.n == value)
  }

  predicate MatchesFilters(p: Plan, area: IntParam, anno: IntParam, mes: IntParam)
  {
    Keeps(area, p.area.id) && Keeps(anno, p.anno) && Keeps(mes, p.mes)
  }

  /** `lista_planes`: the plans matching every supplied filter, in store
      order.  A filter value that is not an integer makes the query raise. */
  function FilterPlans(plans: seq<Plan>, area: IntParam, anno: IntParam, mes: IntParam): (r: Result<seq<Plan>>)
    ensures r.Failure? <==> area.NonInteger? || anno.NonInteger? || mes.NonInteger?
    ensures r.Success? ==> forall p :: p in r.value <==> p in plans && MatchesFilters(p, area, anno, mes)
    ensures r.Success? ==> |r.value| <= |plans|
  {
    if area.NonInteger? || anno.NonInteger? || mes.NonInteger? then Failure(NotAnInteger)
    else Success(KeepMatching(plans, area, anno, mes))
  }

  function KeepMatching(plans: seq<Plan>, area: IntParam, anno: IntParam, mes: IntParam): (r: seq<Plan>)
    ensures forall p :: p in r <==> p in plans && MatchesFilters(p, area, anno, mes)
    ensures |r| <= |plans|
  {
    if plans == [] then []
    else
      var rest := KeepMatching(plans[1..], area, anno, mes);
      assert forall p :: p in plans <==> p == plans[0] || p in plans[1..];
      if MatchesFilters(plans[0], area, anno, mes) then [plans[0]] + rest else rest
  }

  /** With no filter supplied the listing shows every plan, in order. */
  lemma {:induction false} NoFilterKeepsAll(plans: seq<Plan>)
    ensures KeepMatching(plans, Missing, Missing, Missing) == plans
  {
    if plans != [] {
      NoFilterKeepsAll(plans[1..]);
      assert [plans[0]] + plans[1..] == plans;
    }
  }

  /** Filters compose: filtering by area and then by year is the same as
      filtering by both at once. */
  lemma {:induction false} FiltersCompose(plans: seq<Plan>, area: IntParam, anno: IntParam)
    ensures KeepMatching(KeepMatching(plans, area, Missing, Missing), Missing, anno, Missing)
            == KeepMatching(plans, area, anno, Missing)
  {
    if plans != [] {
      FiltersCompose(plans[1..], area, anno);
      var first := KeepMatching(plans, area, Missing, Missing);
      if MatchesFilters(plans[0], area, Missing, Missing) {
        assert first[1..] == KeepMatching(plans[1..], area, Missing, Missing);
      }
    }
  }

  predicate StrictlyDecreasing(xs: seq<int>)
  {
    forall i, j :: 0 <= i < j < |xs| ==> xs[i] > xs[j]
  }

  /** Insert a year into a list of distinct years sorted newest first. */
  function InsertYear(xs: seq<int>, y: int): (r: seq<int>)
    requires StrictlyDecreasing(xs)
    ensures StrictlyDecreasing(r)
    ensures forall z :: z in r <==> z == y || z in xs
  {
    if xs == [] then [y]
    else if y == xs[0] then xs
    else if y > xs[0] then [y] + xs
    else
      var rest := InsertYear(xs[1..], y);
      assert forall z :: z in xs <==> z == xs[0] || z in xs[1..];
      assert forall k :: 0 <= k < |rest| ==> rest[k] < xs[0] by {
        forall k | 0 <= k < |rest| ensures rest[k] < xs[0] {
          assert rest[k] in rest;
          if rest[k] != y {
            var m :| 0 <= m < |xs[1..]| && xs[1..][m] == rest[k];
            assert xs[m + 1] == rest[k];
          }
        }
      }
      var r := [xs[0]] + rest;
      assert StrictlyDecreasing(r) by {
        forall i, j | 0 <= i < j < |r| ensures r[i] > r[j] {
          assert r[j] == rest[j - 1];
          if i > 0 { assert r[i] == rest[i - 1]; }
        }
      }
      r
  }

  /** Some plan of the store is for the year. */
  predicate HasYear(plans: seq<Plan>, y: int)
  {
    exists i :: 0 <= i < |plans| && plans[i].anno == y
  }

  lemma HasYearSnoc(plans: seq<Plan>, y: int)
    requires plans != []
    ensures HasYear(plans, y) <==> y == plans[|plans| - 1].anno || HasYear(plans[..|plans| - 1], y)
  {
    var front := plans[..|plans| - 1];
    if HasYear(plans, y) && y != plans[|plans| - 1].anno {
      var i :| 0 <= i < |plans| && plans[i].anno == y;
      assert front[i].anno == y;
    }
    if HasYear(front, y) {
      var i :| 0 <= i < |front| && front[i].anno == y;
      assert plans[i].anno == y;
    }
  }

  /** `values_list('anno').distinct().order_by('-anno')`: every year that
      has a plan, once, newest first. */
  function AvailableYears(plans: seq<Plan>): (r: seq<int>)
    ensures StrictlyDecreasing(r)
    ensures forall y :: y in r <==> HasYear(plans, y)
  {
    if plans == [] then []
    else
      var rest := AvailableYears(plans[..|plans| - 1]);
      var last := plans[|plans| - 1];
      assert forall y :: HasYear(plans, y) <==> y == last.anno || HasYear(plans[..|plans| - 1], y) by {
        forall y ensures HasYear(plans, y) <==> y == last.anno || HasYear(plans[..|plans| - 1], y) {
          HasYearSnoc(plans, y);
        }
      }
      InsertYear(rest, last.anno)
  }
}
