/**
 * The plan store as the plan views change it: `crear_plan` saves a new plan
 * only after the form's field checks and `clean()` pass, and `editar_plan`
 * changes the amount of an existing plan and nothing else.
 */
module PlanRegistry {
  import opened Common
  import opened Plans

  /** A plan read back from the store: saved with an id, its fields valid. */
  predicate Stored(p: Plan)
  {
    p.id.Some? && FieldsValid(p)
  }

  /** Position of the plan with the given primary key. */
  function FindPlan(plans: seq<Plan>, pk: nat): (r: Option<nat>)
    ensures r.Some? ==> r.value < |plans| && plans[r.value].id == Some(pk)
    ensures r.None? ==> forall i :: 0 <= i < |plans| ==> plans[i].id != Some(pk)
  {
    if plans == [] then None
    else if plans[0].id == Some(pk) then Some(0)
    else match FindPlan(plans[1..], pk)
      case None => None
      case Some(k) => Some(k + 1)
  }

  /** The field checks the plan form runs before `clean()`: the month must be
      a choice and the amount must be non-negative and fit the field. */
  function CheckFields(p: Plan): (r: Outcome)
    ensures r == Pass <==> FieldsValid(p)
    ensures !ValidMonth(p.mes) ==> r == Fail(UnknownMonth)
    ensures ValidMonth(p.mes) && !FieldsValid(p) ==> r == Fail(InvalidAmount)
  {
    if !ValidMonth(p.mes) then Fail(UnknownMonth)
    else if !(0 <= p.plan <= MaxPlanCents) then Fail(InvalidAmount)
    else Pass
  }

  class PlanStore {
    var plans: seq<Plan>
    /** The next primary key the database hands out. */
    var nextId: nat

    /** Every plan is saved with valid fields and an id below `nextId`, ids
        are distinct, and no two plans share an (area, year, month) slot. */
    predicate Valid()
      reads this
    {
      (forall i :: 0 <= i < |plans| ==> Stored(plans[i]) && plans[i].id.value < nextId) &&
      IdsDistinct(plans) && SlotsUnique(plans)
    }

    constructor ()
      ensures plans == [] && Valid()
    {
      plans := [];
      nextId := 1;
    }

    /** `crear_plan`: check the fields, then `clean()`, then save.  Any
        failure is shown on the form and the store is left unchanged. */
    method Create(area: Area, anno: int, mes: int, amount: int) returns (outcome: Outcome)
      requires Valid()
      modifies this
      ensures Valid()
      ensures outcome == Pass <==>
                FieldsValid(Plan(None, area, anno, mes, amount)) &&
                forall i :: 0 <= i < |old(plans)| ==> !SameSlot(Plan(None, area, anno, mes, amount), old(plans)[i])
      ensures outcome.Fail? ==> plans == old(plans)
      ensures outcome.Fail? && FieldsValid(Plan(None, area, anno, mes, amount)) ==>
                outcome.error == DuplicatePlan(DuplicateMessage(Plan(None, area, anno, mes, amount)))
      ensures outcome == Pass ==> plans == old(plans) + [Plan(Some(old(nextId)), area, anno, mes, amount)]
    {
      var candidate := Plan(None, area, anno, mes, amount);
      var checked := CheckFields(candidate);
      if checked.Fail? {
        return checked;
      }
      CleanGuardsUniqueness(candidate, plans);
      var cleaned := Clean(candidate, plans);
      if cleaned.Fail? {
        return cleaned;
      }
      var saved := candidate.(id := Some(nextId));
      assert forall i :: 0 <= i < |plans| ==> SameSlot(saved, plans[i]) == SameSlot(candidate, plans[i]);
      plans := plans + [saved];
      nextId := nextId + 1;
      outcome := Pass;
    }

    /** `editar_plan`: a 404 for an unknown key; otherwise the form (amount
        only) is validated, which runs `clean()` on the edited plan, and
        the new amount is saved.  Area, year and month never change. */
    method Edit(pk: nat, amount: int) returns (outcome: Outcome)
      requires Valid()
      modifies this
      ensures Valid()
      ensures nextId == old(nextId)
      ensures FindPlan(old(plans), pk).None? ==> outcome == Fail(NotFound)
      ensures outcome.Fail? ==> plans == old(plans)
      ensures FindPlan(old(plans), pk).Some? ==> (outcome == Pass <==> 0 <= amount <= MaxPlanCents)
      ensures outcome == Pass ==>
                FindPlan(old(plans), pk).Some? &&
                var k := FindPlan(old(plans), pk).value;
                plans == old(plans)[k := old(plans)[k].(plan := amount)]
    {
      var k := FindPlan(plans, pk);
      if k.None? {
        return Fail(NotFound);
      }
      var edited := plans[k.value].(plan := amount);
      var checked := CheckFields(edited);
      if checked.Fail? {
        return checked;
      }
      var updated := plans[k.value := edited];
      assert forall i :: 0 <= i < |plans| ==> SameSlot(updated[i], plans[i]) && updated[i].id == plans[i].id;
      CleanAcceptsSavedPlan(updated, k.value);
      var cleaned := Clean(edited, plans);
      assert cleaned == Pass by {
        forall i | 0 <= i < |plans| ensures !ConflictsWith(edited, plans[i]) {
          assert !ConflictsWith(updated[k.value], updated[i]);
        }
      }
      plans := updated;
      outcome := Pass;
    }
  }
}
