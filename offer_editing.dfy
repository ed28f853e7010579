/**
 * The item requests of `editar_oferta` on a stored offer: add an activity
 * (at most one item per activity), remove an item, change a quantity.
 * Unlike the invoice editor, these requests catch the lookup and parse
 * errors they expect and turn them into a flash message; the errors they
 * do not expect end the request with a server error.
 */
module OfferEditing {
  import opened Common
  import opened Lines
  import opened OfferModel

  /** How a request ends: its change is stored, it is refused with a flash
      message, or it is aborted (a 404 or an uncaught exception).  Only
      `Done` changes anything. */
  datatype Response<T> = Done(value: T) | Refused(reason: Error) | Aborted(reason: Error)

  /** `Actividad.objects.get(id=...)`, whose failures the add request catches. */
  function LookupActivity(catalog: seq<Activity>, p: IntParam): (r: Result<Activity>)
    ensures p.Missing? ==> r == Failure(NotFound)
    ensures p.Blank? || p.NonInteger? ==> r == Failure(NotAnInteger)
    ensures p.Value? ==> (r.Failure? <==> p.n < 0 || FindActivity(catalog, p.n).None?)
    ensures r.Success? ==> r.value in catalog && p == Value(r.value.id)
  {
    if p.Missing? then Failure(NotFound)
    else if !p.Value? then Failure(NotAnInteger)
    else if p.n < 0 then Failure(NotFound)
    else match FindActivity(catalog, p.n)
      case None => Failure(NotFound)
      case Some(a) => Success(a)
  }

  /** `oferta.items.get(id=...)`: the position of the item within this offer. */
  function LookupItem(items: seq<Line>, p: IntParam): (r: Result<nat>)
    ensures p.Missing? ==> r == Failure(NotFound)
    ensures p.Blank? || p.NonInteger? ==> r == Failure(NotAnInteger)
    ensures p.Value? ==> (r.Failure? <==> p.n < 0 || IndexOfId(items, p.n).None?)
    ensures r.Success? ==> r.value < |items| && p == Value(items[r.value].id)
  {
    if p.Missing? then Failure(NotFound)
    else if !p.Value? then Failure(NotAnInteger)
    else if p.n < 0 then Failure(NotFound)
    else match IndexOfId(items, p.n)
      case None => Failure(NotFound)
      case Some(i) => Success(i)
  }

  /** `int(cantidad)` followed by the save of the item: a missing value is a
      TypeError and a negative one violates the quantity constraint, both
      uncaught; a value that is not an integer is the caught ValueError. */
  function StoreQuantity(p: IntParam): (r: Response<nat>)
    ensures r.Done? <==> p.Value? && p.n >= 0
    ensures r.Done? ==> r.value == p.n
    ensures r.Refused? <==> p.Blank? || p.NonInteger?
    ensures r.Aborted? <==> p.Missing? || (p.Value? && p.n < 0)
  {
    if p.Missing? then Aborted(MissingInput)
    else if !p.Value? then Refused(NotAnInteger)
    else if p.n < 0 then Aborted(NegativeQuantity)
    else Done(p.n)
  }

  /** "agregar_item": refuse an unknown activity or one the offer already
      has; otherwise append one item at the activity's current price. */
  function AddOfferItem(offer: Offer, actividad: IntParam, cantidad: IntParam,
                        catalog: seq<Activity>, newItemId: nat): (r: Response<Offer>)
    ensures LookupActivity(catalog, actividad).Failure? ==> r == Refused(LookupActivity(catalog, actividad).error)
    ensures r == Refused(ActivityAlreadyPresent) <==>
              LookupActivity(catalog, actividad).Success? &&
              HasActivity(offer.items, LookupActivity(catalog, actividad).value.id)
    ensures r.Done? <==>
              LookupActivity(catalog, actividad).Success? &&
              !HasActivity(offer.items, LookupActivity(catalog, actividad).value.id) &&
              StoreQuantity(cantidad).Done?
    ensures r.Aborted? <==>
              LookupActivity(catalog, actividad).Success? &&
              !HasActivity(offer.items, LookupActivity(catalog, actividad).value.id) &&
              StoreQuantity(cantidad).Aborted?
    ensures r.Done? ==>
              var a := LookupActivity(catalog, actividad).value;
              var q := StoreQuantity(cantidad).value;
              !HasActivity(offer.items, a.id) &&
              r.value.(items := offer.items) == offer &&
              r.value.items == offer.items + [Line(newItemId, a.id, q, a.precio, q * a.precio)] &&
              Total(r.value.items) == Total(offer.items) + q * a.precio
    ensures r.Done? && ActivitiesDistinct(offer.items) ==> ActivitiesDistinct(r.value.items)
  {
    match LookupActivity(catalog, actividad)
    case Failure(e) => Refused(e)
    case Success(a) =>
      if HasActivity(offer.items, a.id) then Refused(ActivityAlreadyPresent)
      else match StoreQuantity(cantidad)
        case Refused(e) => Refused(e)
        case Aborted(e) => Aborted(e)
        case Done(q) =>
          var line := Saved(Line(newItemId, a.id, q, a.precio, 0));
          TotalConcat(offer.items, [line]);
          assert Total([line]) == line.importe by { assert [line][..0] == []; }
          Done(offer.(items := offer.items + [line]))
  }

  /** "eliminar_item": only a missing item is caught; an id that is not an
      integer escapes as a server error. */
  function RemoveOfferItem(offer: Offer, itemId: IntParam): (r: Response<Offer>)
    ensures r.Refused? <==> itemId.Missing? || (itemId.Value? && (itemId.n < 0 || IndexOfId(offer.items, itemId.n).None?))
    ensures r.Aborted? <==> itemId.Blank? || itemId.NonInteger?
    ensures r.Done? ==>
              LookupItem(offer.items, itemId).Success? &&
              var i := LookupItem(offer.items, itemId).value;
              r.value.(items := offer.items) == offer &&
              r.value.items == RemoveAt(offer.items, i) &&
              Total(r.value.items) == Total(offer.items) - offer.items[i].importe
  {
    match LookupItem(offer.items, itemId)
    case Failure(NotAnInteger) => Aborted(NotAnInteger)
    case Failure(e) => Refused(e)
    case Success(i) =>
      TotalRemoveAt(offer.items, i);
      Done(offer.(items := RemoveAt(offer.items, i)))
  }

  /** "actualizar_cantidad": a bad item id or a quantity that is not an
      integer is refused and the item keeps its quantity; otherwise the item
      is saved with the new quantity and its amount recomputed. */
  function UpdateOfferItemQuantity(offer: Offer, itemId: IntParam, nuevaCantidad: IntParam): (r: Response<Offer>)
    ensures LookupItem(offer.items, itemId).Failure? ==> r == Refused(LookupItem(offer.items, itemId).error)
    ensures LookupItem(offer.items, itemId).Success? ==>
              (r.Refused? <==> nuevaCantidad.Blank? || nuevaCantidad.NonInteger?)
    ensures r.Done? <==> LookupItem(offer.items, itemId).Success? && StoreQuantity(nuevaCantidad).Done?
    ensures r.Aborted? <==> LookupItem(offer.items, itemId).Success? && StoreQuantity(nuevaCantidad).Aborted?
    ensures r.Done? ==>
              var i := LookupItem(offer.items, itemId).value;
              var q := StoreQuantity(nuevaCantidad).value;
              r.value.(items := offer.items) == offer &&
              |r.value.items| == |offer.items| &&
              (forall j :: 0 <= j < |offer.items| && j != i ==> r.value.items[j] == offer.items[j]) &&
              r.value.items[i] == offer.items[i].(cantidad := q, importe := q * offer.items[i].precio) &&
              Total(r.value.items) == Total(offer.items) - offer.items[i].importe + q * offer.items[i].precio
  {
    match LookupItem(offer.items, itemId)
    case Failure(e) => Refused(e)
    case Success(i) =>
      match StoreQuantity(nuevaCantidad)
      case Refused(e) => Refused(e)
      case Aborted(e) => Aborted(e)
      case Done(q) =>
        var line := Saved(offer.items[i].(cantidad := q));
        TotalReplaceAt(offer.items, i, line);
        Done(offer.(items := offer.items[i := line]))
  }

  /** Updating a quantity keeps the one-item-per-activity rule. */
  lemma UpdateKeepsActivitiesDistinct(offer: Offer, itemId: IntParam, nuevaCantidad: IntParam)
    requires ActivitiesDistinct(offer.items)
    requires UpdateOfferItemQuantity(offer, itemId, nuevaCantidad).Done?
    ensures ActivitiesDistinct(UpdateOfferItemQuantity(offer, itemId, nuevaCantidad).value.items)
  {
    var r := UpdateOfferItemQuantity(offer, itemId, nuevaCantidad).value;
    forall j | 0 <= j < |r.items| ensures r.items[j].actividad == offer.items[j].actividad { }
  }

  /** Removing an item keeps the one-item-per-activity rule. */
  lemma RemoveKeepsActivitiesDistinct(offer: Offer, itemId: IntParam)
    requires ActivitiesDistinct(offer.items)
    requires RemoveOfferItem(offer, itemId).Done?
    ensures ActivitiesDistinct(RemoveOfferItem(offer, itemId).value.items)
  {
    var r := RemoveOfferItem(offer, itemId).value.items;
    var i := LookupItem(offer.items, itemId).value;
    forall a, b | 0 <= a < b < |r| ensures r[a].actividad != r[b].actividad {
      var a' := if a < i then a else a + 1;
      var b' := if b < i then b else b + 1;
      assert r[a] == offer.items[a'] && r[b] == offer.items[b'];
    }
  }

  /** One of the three item requests `editar_oferta` handles. */
  datatype ItemEdit =
    | AddItem(actividad: IntParam, cantidad: IntParam)
    | RemoveItem(itemId: IntParam)
    | UpdateQuantity(itemId: IntParam, nuevaCantidad: IntParam)

  function ApplyItemEdit(offer: Offer, edit: ItemEdit, catalog: seq<Activity>, newItemId: nat): (r: Response<Offer>)
    ensures r.Done? ==> r.value.(items := offer.items) == offer
  {
    match edit
    case AddItem(a, c) => AddOfferItem(offer, a, c, catalog, newItemId)
    case RemoveItem(i) => RemoveOfferItem(offer, i)
    case UpdateQuantity(i, q) => UpdateOfferItemQuantity(offer, i, q)
  }

  /** Position of the offer with the given id. */
  function FindOffer(offers: seq<Offer>, id: nat): (r: Option<nat>)
    ensures r.Some? ==> r.value < |offers| && offers[r.value].id == id
    ensures r.None? ==> forall i :: 0 <= i < |offers| ==> offers[i].id != id
  {
    if offers == [] then None
    else if offers[0].id == id then Some(0)
    else match FindOffer(offers[1..], id)
      case None => None
      case Some(k) => Some(k + 1)
  }

  /** `editar_oferta` on an item request: a 404 for an unknown offer,
      otherwise the edit applied to that offer and to no other. */
  function EditOffer(offers: seq<Offer>, ofertaId: nat, edit: ItemEdit,
                     catalog: seq<Activity>, newItemId: nat): (r: Response<seq<Offer>>)
    ensures FindOffer(offers, ofertaId).None? ==> r == Aborted(NotFound)
    ensures FindOffer(offers, ofertaId).Some? ==>
              var k := FindOffer(offers, ofertaId).value;
              var applied := ApplyItemEdit(offers[k], edit, catalog, newItemId);
              (r.Done? <==> applied.Done?) &&
              (applied.Refused? ==> r == Refused(applied.reason)) &&
              (applied.Aborted? ==> r == Aborted(applied.reason)) &&
              (applied.Done? ==> r.value == offers[k := applied.value])
    ensures r.Done? ==>
              |r.value| == |offers| &&
              forall i :: 0 <= i < |offers| ==>
                r.value[i].(items := offers[i].items) == offers[i] &&
                (i != FindOffer(offers, ofertaId).value ==> r.value[i] == offers[i])
  {
    match FindOffer(offers, ofertaId)
    case None => Aborted(NotFound)
    case Some(k) =>
      match ApplyItemEdit(offers[k], edit, catalog, newItemId)
      case Refused(e) => Refused(e)
      case Aborted(e) => Aborted(e)
      case Done(o) => Done(offers[k := o])
  }

  /** Item edits never touch an offer's number or date: numbers stay unique
      and every offer keeps the date it was created with. */
  lemma EditOfferKeepsNumbersAndDates(offers: seq<Offer>, ofertaId: nat, edit: ItemEdit,
                                      catalog: seq<Activity>, newItemId: nat)
    requires EditOffer(offers, ofertaId, edit, catalog, newItemId).Done?
    ensures var r := EditOffer(offers, ofertaId, edit, catalog, newItemId).value;
            forall i :: 0 <= i < |offers| ==> r[i].numero == offers[i].numero && r[i].fecha == offers[i].fecha
    ensures OfferNumbersUnique(offers) ==> OfferNumbersUnique(EditOffer(offers, ofertaId, edit, catalog, newItemId).value)
  {
    var r := EditOffer(offers, ofertaId, edit, catalog, newItemId).value;
    forall i | 0 <= i < |offers| ensures r[i].numero == offers[i].numero && r[i].fecha == offers[i].fecha {
      assert r[i].(items := offers[i].items) == offers[i];
    }
  }
}
