/**
 * The two-step creation of an offer.  `crear_oferta` leaves the header in
 * the session; `agregar_items_oferta` keeps a list of draft items there,
 * one per activity, and on "terminar" numbers the offer, creates it with
 * one stored item per draft item and clears the session;
 * `eliminar_item_oferta` deletes a draft item by its position.
 */
module OfferDraft {
  import opened Common
  import opened Lines
  import opened OfferModel
  import opened Numbering
  import opened OfferEditing

  /** The offer header `crear_oferta` stores in the session. */
  datatype OfferHeader = OfferHeader(area: Area, cliente: Client, observaciones: Option<string>)

  /** One entry of the session's item list.  The quantity is whatever
      `int()` returned, so it may be negative until the offer is stored. */
  datatype DraftItem = DraftItem(actividadId: nat, codigo: string, descripcion: string,
                                 cantidad: int, precio: int, importe: int)

  /** The draft entry for an activity and a quantity, priced at the
      activity's current price. */
  function DraftFor(a: Activity, cantidad: int): (d: DraftItem)
    ensures d.actividadId == a.id && d.cantidad == cantidad && d.precio == a.precio
    ensures d.importe == d.precio * d.cantidad
  {
    DraftItem(a.id, a.codigo, a.actividad, cantidad, a.precio, a.precio * cantidad)
  }

  /** `sum(item['importe'] for item in items)`. */
  function DraftTotal(items: seq<DraftItem>): int
  {
    if items == [] then 0 else DraftTotal(items[..|items| - 1]) + items[|items| - 1].importe
  }

  lemma {:induction false} DraftTotalConcat(a: seq<DraftItem>, b: seq<DraftItem>)
    ensures DraftTotal(a + b) == DraftTotal(a) + DraftTotal(b)
    decreases |b|
  {
    if b == [] {
      assert a + b == a;
    } else {
      assert (a + b)[..|a + b| - 1] == a + b[..|b| - 1];
      DraftTotalConcat(a, b[..|b| - 1]);
    }
  }

  /** Deleting an entry lowers the draft total by exactly its amount. */
  lemma {:induction false} DraftTotalRemoveAt(items: seq<DraftItem>, k: nat)
    requires k < |items|
    ensures DraftTotal(RemoveAt(items, k)) == DraftTotal(items) - items[k].importe
  {
    var front, x, back := items[..k], items[k], items[k + 1..];
    assert items == front + [x] + back;
    assert RemoveAt(items, k) == front + back;
    DraftTotalConcat(front + [x], back);
    DraftTotalConcat(front, [x]);
    DraftTotalConcat(front, back);
    assert DraftTotal([x]) == x.importe by { assert [x][..0] == []; }
  }

  /** Deleting an entry keeps one priced entry per activity. */
  lemma RemoveAtKeepsDraft(items: seq<DraftItem>, k: nat)
    requires k < |items|
    requires DraftActivitiesDistinct(items)
    requires forall i :: 0 <= i < |items| ==> items[i].importe == items[i].precio * items[i].cantidad
    ensures DraftActivitiesDistinct(RemoveAt(items, k))
    ensures forall i :: 0 <= i < |items| - 1 ==> RemoveAt(items, k)[i].importe == RemoveAt(items, k)[i].precio * RemoveAt(items, k)[i].cantidad
  {
    var r := RemoveAt(items, k);
    forall a, b | 0 <= a < b < |r| ensures r[a].actividadId != r[b].actividadId {
      var a' := if a < k then a else a + 1;
      var b' := if b < k then b else b + 1;
      assert r[a] == items[a'] && r[b] == items[b'];
    }
  }

  predicate HasDraftActivity(items: seq<DraftItem>, actividadId: nat)
  {
    exists i :: 0 <= i < |items| && items[i].actividadId == actividadId
  }

  predicate DraftActivitiesDistinct(items: seq<DraftItem>)
  {
    forall i, j :: 0 <= i < j < |items| ==> items[i].actividadId != items[j].actividadId
  }

  /** The loop of `agregar_items_oferta` that looks for the activity in the
      list and stops at the first match. */
  method FindDraftActivity(items: seq<DraftItem>, actividadId: nat) returns (found: bool)
    ensures found <==> HasDraftActivity(items, actividadId)
  {
    found := false;
    var i := 0;
    while i < |items|
      invariant 0 <= i <= |items|
      invariant !found ==> forall j :: 0 <= j < i ==> items[j].actividadId != actividadId
      invariant found ==> HasDraftActivity(items, actividadId)
    {
      if items[i].actividadId == actividadId {
        found := true;
        break;
      }
      i := i + 1;
    }
  }

  /** The stored item the draft entry becomes: same activity, quantity and
      price, its amount set by `save()`. */
  predicate StoredFrom(l: Line, d: DraftItem, id: nat)
  {
    l.id == id && l.actividad == d.actividadId && l.cantidad == d.cantidad && l.precio == d.precio && Priced(l)
  }

  /** The loop of "terminar" that creates one `OfertaItem` per draft entry.
      The first entry with a negative quantity fails its save and ends the
      loop; the items created before it stay stored. */
  method CreateOfferItems(oferta: nat, draft: seq<DraftItem>, firstId: nat) returns (lines: seq<Line>, complete: bool)
    ensures complete <==> forall i :: 0 <= i < |draft| ==> draft[i].cantidad >= 0
    ensures complete ==> |lines| == |draft|
    ensures !complete ==> |lines| < |draft| && draft[|lines|].cantidad < 0
    ensures forall i :: 0 <= i < |lines| ==> StoredFrom(lines[i], draft[i], firstId + i)
  {
    lines := [];
    var i := 0;
    while i < |draft|
      invariant 0 <= i <= |draft| && |lines| == i
      invariant forall j :: 0 <= j < i ==> draft[j].cantidad >= 0
      invariant forall j :: 0 <= j < i ==> StoredFrom(lines[j], draft[j], firstId + j)
    {
      var d := draft[i];
      if d.cantidad < 0 {
        return lines, false;
      }
      var item := new OfferItem(oferta, Line(firstId + i, d.actividadId, d.cantidad, d.precio, 0));
      item.Save();
      lines := lines + [item.Row()];
      i := i + 1;
    }
    complete := true;
  }

  /** The session of one user while an offer is being put together. */
  class OfferSession {
    /** `oferta_data`, absent until `crear_oferta` succeeds. */
    var header: Option<OfferHeader>
    /** Whether `items_oferta` exists in the session, and its contents. */
    var itemsPresent: bool
    var items: seq<DraftItem>

    /** An absent list is empty; the list holds one priced entry per activity. */
    predicate Valid()
      reads this
    {
      (!itemsPresent ==> items == []) &&
      DraftActivitiesDistinct(items) &&
      forall i :: 0 <= i < |items| ==> items[i].importe == items[i].precio * items[i].cantidad
    }

    function Total(): int
      reads this
    {
      DraftTotal(items)
    }

    constructor ()
      ensures header.None? && !itemsPresent && items == []
      ensures Valid()
    {
      header := None;
      itemsPresent := false;
      items := [];
    }

    /** `crear_oferta`: store the header.  An item list left over from an
        unfinished draft is kept. */
    method Start(h: OfferHeader)
      requires Valid()
      modifies this
      ensures Valid()
      ensures header == Some(h) && itemsPresent == old(itemsPresent) && items == old(items)
    {
      header := Some(h);
    }

    /** `agregar_items_oferta` with an activity and a quantity posted:
        without a header nothing happens; otherwise the list is created if
        absent, and an entry for the activity is appended unless the
        activity is unknown, already listed, or the quantity is not an
        integer.  A negative quantity is accepted into the draft. */
    method AddItem(actividad: IntParam, cantidad: IntParam, catalog: seq<Activity>) returns (outcome: Outcome)
      requires Valid()
      modifies this
      ensures Valid()
      ensures header == old(header)
      ensures old(header).None? ==> outcome == Fail(NoDraft) && itemsPresent == old(itemsPresent) && items == old(items)
      ensures old(header).Some? ==> itemsPresent
      ensures outcome.Fail? ==> items == old(items)
      ensures old(header).Some? && (actividad.Missing? || cantidad.Missing?) ==> outcome == Pass && items == old(items)
      ensures old(header).Some? && !actividad.Missing? && !cantidad.Missing? && LookupActivity(catalog, actividad).Failure? ==>
                outcome == Fail(LookupActivity(catalog, actividad).error)
      ensures outcome == Fail(ActivityAlreadyPresent) <==>
                old(header).Some? && !actividad.Missing? && !cantidad.Missing? &&
                LookupActivity(catalog, actividad).Success? &&
                HasDraftActivity(old(items), LookupActivity(catalog, actividad).value.id)
      ensures (old(header).Some? && !actividad.Missing? && !cantidad.Missing? &&
               LookupActivity(catalog, actividad).Success? &&
               !HasDraftActivity(old(items), LookupActivity(catalog, actividad).value.id) &&
               !cantidad.Value?) ==> outcome == Fail(NotAnInteger)
      ensures outcome.Pass? <==>
                old(header).Some? &&
                (actividad.Missing? || cantidad.Missing? ||
                 (LookupActivity(catalog, actividad).Success? &&
                  !HasDraftActivity(old(items), LookupActivity(catalog, actividad).value.id) &&
                  cantidad.Value?))
      ensures outcome.Pass? && !actividad.Missing? && !cantidad.Missing? ==>
                LookupActivity(catalog, actividad).Success? && cantidad.Value? &&
                items == old(items) + [DraftFor(LookupActivity(catalog, actividad).value, cantidad.n)] &&
                Total() == old(Total()) + LookupActivity(catalog, actividad).value.precio * cantidad.n
    {
      if header.None? {
        return Fail(NoDraft);
      }
      itemsPresent := true;
      if actividad.Missing? || cantidad.Missing? {
        return Pass;
      }
      var found := LookupActivity(catalog, actividad);
      if found.Failure? {
        return Fail(found.error);
      }
      var a := found.value;
      var present := FindDraftActivity(items, a.id);
      if present {
        return Fail(ActivityAlreadyPresent);
      }
      if !cantidad.Value? {
        return Fail(NotAnInteger);
      }
      var entry := DraftFor(a, cantidad.n);
      DraftTotalConcat(items, [entry]);
      assert DraftTotal([entry]) == entry.importe by { assert [entry][..0] == []; }
      items := items + [entry];
      outcome := Pass;
    }

    /** `eliminar_item_oferta`: with a list in the session, delete the entry
        at the posted position (0 when none is posted).  A position that is
        not an integer is an uncaught ValueError; one out of range is
        reported and changes nothing. */
    method RemoveItem(position: IntParam) returns (outcome: Outcome)
      requires Valid()
      modifies this
      ensures Valid()
      ensures header == old(header) && itemsPresent == old(itemsPresent)
      ensures !old(itemsPresent) ==> outcome == Pass && items == old(items)
      ensures !outcome.Pass? ==> items == old(items)
      ensures outcome.Abort? <==> old(itemsPresent) && (position.Blank? || position.NonInteger?)
      ensures outcome.Abort? ==> outcome.error == NotAnInteger
      ensures old(itemsPresent) && position.Value? && !(0 <= position.n < |old(items)|) ==> outcome == Fail(NotFound)
      ensures old(itemsPresent) && position.Missing? ==>
                if old(items) == [] then outcome == Fail(NotFound)
                else outcome == Pass && items == old(items)[1..] && Total() == old(Total()) - old(items)[0].importe
      ensures old(itemsPresent) && position.Value? && 0 <= position.n < |old(items)| ==>
                outcome == Pass && items == RemoveAt(old(items), position.n) &&
                Total() == old(Total()) - old(items)[position.n].importe
    {
      if !itemsPresent {
        return Pass;
      }
      if position.Blank? || position.NonInteger? {
        return Abort(NotAnInteger);
      }
      var k := if position.Missing? then 0 else position.n;
      if 0 <= k < |items| {
        DraftTotalRemoveAt(items, k);
        RemoveAtKeepsDraft(items, k);
        assert k == 0 ==> RemoveAt(items, k) == items[1..];
        items := RemoveAt(items, k);
        outcome := Pass;
      } else {
        outcome := Fail(NotFound);
      }
    }

    /** "terminar": number the offer for today's year, create it dated today,
        create its items and clear the session.  A number already taken
        stops before anything is stored; an entry with a negative quantity
        stops after the offer and the earlier items are stored.  Either
        error is reported and leaves the session as it was. */
    method Finalize(offers: seq<Offer>, today: Date, user: nat, newOfferId: nat, firstItemId: nat)
      returns (outcome: Outcome, stored: seq<Offer>)
      requires Valid()
      modifies this
      ensures Valid()
      ensures old(header).None? ==> outcome == Fail(NoDraft) && stored == offers && items == old(items)
      ensures outcome.Fail? ==> header == old(header) && items == old(items)
      ensures old(header).Some? && OfferNumberTaken(offers, NextOfferNumber(offers, today.year)) ==>
                outcome == Fail(DuplicateNumber) && stored == offers
      ensures old(header).Some? && !OfferNumberTaken(offers, NextOfferNumber(offers, today.year)) ==>
                |stored| == |offers| + 1 && stored[..|offers|] == offers &&
                var o := stored[|offers|];
                o.id == newOfferId && o.numero == NextOfferNumber(offers, today.year) && o.fecha == today &&
                o.area == old(header).value.area && o.cliente == old(header).value.cliente &&
                o.observaciones == old(header).value.observaciones && o.createdBy == user &&
                |o.items| <= |old(items)| &&
                (forall i :: 0 <= i < |o.items| ==> StoredFrom(o.items[i], old(items)[i], firstItemId + i)) &&
                ((forall i :: 0 <= i < |old(items)| ==> old(items)[i].cantidad >= 0) <==> outcome.Pass?) &&
                (outcome.Pass? ==> |o.items| == |old(items)|) &&
                (outcome.Fail? ==> outcome.error == NegativeQuantity && |o.items| < |old(items)| &&
                                   old(items)[|o.items|].cantidad < 0)
      ensures outcome.Pass? ==> header.None? && !itemsPresent && items == []
      ensures OfferNumbersUnique(offers) ==> OfferNumbersUnique(stored)
    {
      if header.None? {
        return Fail(NoDraft), offers;
      }
      itemsPresent := true;
      var h := header.value;
      var numero := NextOfferNumber(offers, today.year);
      if OfferNumberTaken(offers, numero) {
        return Fail(DuplicateNumber), offers;
      }
      var lines, complete := CreateOfferItems(newOfferId, items, firstItemId);
      var offer := Offer(newOfferId, numero, today, h.area, h.cliente, h.observaciones, user, lines);
      stored := offers + [offer];
      assert stored[..|offers|] == offers;
      if !complete {
        return Fail(NegativeQuantity), stored;
      }
      header := None;
      itemsPresent := false;
      items := [];
      outcome := Pass;
    }
  }
}
