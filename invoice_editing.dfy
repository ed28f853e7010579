/**
 * Creating invoices and editing their items, with the invoice store held as
 * a sequence of invoices.
 *
 * `crear_factura` takes the area, client and notes from its form, numbers
 * the invoice for the current year and saves it without a date; the model
 * keeps that behaviour (`CreateInvoice`) and, beside it, the dated creation
 * that numbering evidently relies on (`CreateInvoiceDated`).  The three item
 * edits of `editar_factura` act on one invoice of the store.
 */
module InvoiceEditing {
  import opened Common
  import opened Lines
  import opened InvoiceModel
  import opened Numbering

  /** The fields the invoice creation form accepts. */
  datatype InvoiceHeader = InvoiceHeader(area: Area, cliente: Client, observaciones: Option<string>)

  /** The stored invoice the creation form would save for the given number and date. */
  function NewInvoice(id: nat, numero: string, fecha: Option<Date>, header: InvoiceHeader, estado: Status, user: nat): Invoice
  {
    Invoice(id, numero, fecha, header.area, header.cliente, header.observaciones, estado, user, [])
  }

  /** The invoice `crear_factura` saves: numbered by scanning the invoices
      dated in the current year, with the default state and NO date.  An
      unparsable last number, a number already taken and a missing default
      state all abort the request. */
  function CreateInvoice(store: seq<Invoice>, header: InvoiceHeader, year: nat, user: nat,
                         statuses: seq<Status>, newId: nat): (r: Result<seq<Invoice>>)
    ensures r.Failure? <==> NextInvoiceNumber(store, year).Failure?
                            || InvoiceNumberTaken(store, NextInvoiceNumber(store, year).value)
                            || FindStatus(statuses, DefaultStatusId).None?
    ensures r.Success? ==>
              |r.value| == |store| + 1 && r.value[..|store|] == store &&
              r.value[|store|] == NewInvoice(newId, NextInvoiceNumber(store, year).value, None, header,
                                             FindStatus(statuses, DefaultStatusId).value, user)
  {
    match NextInvoiceNumber(store, year)
    case Failure(e) => Failure(e)
    case Success(numero) =>
      if InvoiceNumberTaken(store, numero) then Failure(DuplicateNumber)
      else match FindStatus(statuses, DefaultStatusId)
        case None => Failure(NotFound)
        case Some(estado) => Success(store + [NewInvoice(newId, numero, None, header, estado, user)])
  }

  /** The dateless invoices `crear_factura` saves never enter the year scan,
      so the second creation of a year that has no dated invoice computes
      the first number again and is refused by the unique constraint. */
  lemma CreateInvoiceRepeatsNumber(header: InvoiceHeader, year: nat, user: nat, statuses: seq<Status>)
    requires FindStatus(statuses, DefaultStatusId).Some?
    ensures CreateInvoice([], header, year, user, statuses, 1).Success?
    ensures CreateInvoice(CreateInvoice([], header, year, user, statuses, 1).value, header, year, user, statuses, 2)
            == Failure(DuplicateNumber)
  {
    var first := CreateInvoice([], header, year, user, statuses, 1);
    assert NextInvoiceNumber([], year) == Success(InvoiceNumber(year, 1));
    var store := first.value;
    assert !DatedIn(store[0], year);
    assert NumbersDatedIn(store, year) == [];
    assert NextInvoiceNumber(store, year) == Success(InvoiceNumber(year, 1));
    assert InvoiceNumberTaken(store, InvoiceNumber(year, 1)) by {
      assert store[0].numero == InvoiceNumber(year, 1);
    }
  }

  /** Creation with the invoice dated today: the number is computed for
      today's year and the invoice carries that date, so the next scan sees it. */
  function CreateInvoiceDated(store: seq<Invoice>, header: InvoiceHeader, today: Date, user: nat,
                              statuses: seq<Status>, newId: nat): (r: Result<seq<Invoice>>)
    ensures r.Failure? <==> NextInvoiceNumber(store, today.year).Failure?
                            || InvoiceNumberTaken(store, NextInvoiceNumber(store, today.year).value)
                            || FindStatus(statuses, DefaultStatusId).None?
    ensures r.Success? ==>
              |r.value| == |store| + 1 && r.value[..|store|] == store &&
              r.value[|store|] == NewInvoice(newId, NextInvoiceNumber(store, today.year).value, Some(today), header,
                                             FindStatus(statuses, DefaultStatusId).value, user)
  {
    match NextInvoiceNumber(store, today.year)
    case Failure(e) => Failure(e)
    case Success(numero) =>
      if InvoiceNumberTaken(store, numero) then Failure(DuplicateNumber)
      else match FindStatus(statuses, DefaultStatusId)
        case None => Failure(NotFound)
        case Some(estado) => Success(store + [NewInvoice(newId, numero, Some(today), header, estado, user)])
  }

  /** Dated creation succeeds on a store kept in the numbering invariant and
      keeps both the invariant and the uniqueness of numbers. */
  lemma CreateInvoiceDatedKeepsNumbering(store: seq<Invoice>, header: InvoiceHeader, today: Date, user: nat,
                                         statuses: seq<Status>, newId: nat)
    requires NumberingInvariant(store) && InvoiceNumbersUnique(store)
    requires FindStatus(statuses, DefaultStatusId).Some?
    requires RoomInYear(store, today.year)
    ensures CreateInvoiceDated(store, header, today, user, statuses, newId).Success?
    ensures NumberingInvariant(CreateInvoiceDated(store, header, today, user, statuses, newId).value)
    ensures InvoiceNumbersUnique(CreateInvoiceDated(store, header, today, user, statuses, newId).value)
  {
    NextInvoiceNumberIsFresh(store, today.year);
    var n := NextInvoiceSequence(store, today.year).value;
    var numero := InvoiceNumber(today.year, n);
    assert !InvoiceNumberTaken(store, numero) by {
      forall i | 0 <= i < |store| ensures store[i].numero != numero { }
    }
    InvoiceNumberWellNumbered(today.year, n);
    var r := CreateInvoiceDated(store, header, today, user, statuses, newId).value;
    assert r == store + [NewInvoice(newId, numero, Some(today), header, FindStatus(statuses, DefaultStatusId).value, user)];
  }

  /** Two dated creations in a row both succeed and receive different numbers. */
  lemma SuccessiveDatedCreationsDiffer(store: seq<Invoice>, header: InvoiceHeader, today: Date, user: nat,
                                       statuses: seq<Status>, id1: nat, id2: nat)
    requires NumberingInvariant(store) && InvoiceNumbersUnique(store)
    requires FindStatus(statuses, DefaultStatusId).Some?
    requires RoomInYear(store, today.year)
    requires CreateInvoiceDated(store, header, today, user, statuses, id1).Success? ==>
               RoomInYear(CreateInvoiceDated(store, header, today, user, statuses, id1).value, today.year)
    ensures CreateInvoiceDated(store, header, today, user, statuses, id1).Success?
    ensures CreateInvoiceDated(CreateInvoiceDated(store, header, today, user, statuses, id1).value,
                               header, today, user, statuses, id2).Success?
    ensures var s1 := CreateInvoiceDated(store, header, today, user, statuses, id1).value;
            var s2 := CreateInvoiceDated(s1, header, today, user, statuses, id2).value;
            s2[|store|].numero != s2[|store| + 1].numero
  {
    CreateInvoiceDatedKeepsNumbering(store, header, today, user, statuses, id1);
    var s1 := CreateInvoiceDated(store, header, today, user, statuses, id1).value;
    CreateInvoiceDatedKeepsNumbering(s1, header, today, user, statuses, id2);
  }

  // ---------------------------------------------------------------------
  // Item edits of `editar_factura`
  // ---------------------------------------------------------------------

  /** `get_object_or_404(Actividad, id=...)` on a parameter that is present. */
  function ResolveActivity(catalog: seq<Activity>, p: IntParam): (r: Result<Activity>)
    requires !Falsy(p)
    ensures p.NonInteger? || p.Blank? ==> r == Failure(NotAnInteger)
    ensures p.Value? ==> (r.Failure? <==> p.n < 0 || FindActivity(catalog, p.n).None?)
    ensures r.Failure? ==> r.error in {NotAnInteger, NotFound}
    ensures r.Success? ==> r.value in catalog && p == Value(r.value.id)
  {
    if !p.Value? then Failure(NotAnInteger)
    else if p.n < 0 then Failure(NotFound)
    else match FindActivity(catalog, p.n)
      case None => Failure(NotFound)
      case Some(a) => Success(a)
  }

  /** `get_object_or_404(FacturaItem, id=..., factura=...)`: the position of the item. */
  function ResolveItem(items: seq<Line>, p: IntParam): (r: Result<nat>)
    requires !Falsy(p)
    ensures p.NonInteger? || p.Blank? ==> r == Failure(NotAnInteger)
    ensures p.Value? ==> (r.Failure? <==> p.n < 0 || IndexOfId(items, p.n).None?)
    ensures r.Failure? ==> r.error in {NotAnInteger, NotFound}
    ensures r.Success? ==> r.value < |items| && p == Value(items[r.value].id)
  {
    if !p.Value? then Failure(NotAnInteger)
    else if p.n < 0 then Failure(NotFound)
    else match IndexOfId(items, p.n)
      case None => Failure(NotFound)
      case Some(i) => Success(i)
  }

  /** `int(...)` of a present quantity, then the non-negative constraint of
      the quantity field. */
  function ParseQuantity(p: IntParam): (r: Result<nat>)
    requires !Falsy(p)
    ensures r.Success? <==> p.Value? && p.n >= 0
    ensures r.Success? ==> r.value == p.n
    ensures p.NonInteger? || p.Blank? ==> r == Failure(NotAnInteger)
    ensures p.Value? && p.n < 0 ==> r == Failure(NegativeQuantity)
  {
    if !p.Value? then Failure(NotAnInteger)
    else if p.n < 0 then Failure(NegativeQuantity)
    else Success(p.n)
  }

  /** "agregar_item": with both an activity and a quantity given, append one
      item at the activity's current price, its amount set by `save()`.
      With either missing the view skips the branch and falls through to a
      render whose `form` was never bound, which raises (a server error).
      No duplicate check is made. */
  function AddInvoiceItem(inv: Invoice, actividad: IntParam, cantidad: IntParam,
                          catalog: seq<Activity>, newItemId: nat): (r: Result<Invoice>)
    ensures Falsy(actividad) || Falsy(cantidad) ==> r == Failure(NoForm)
    ensures !Falsy(actividad) && !Falsy(cantidad) ==>
              (r.Failure? <==> ResolveActivity(catalog, actividad).Failure? || ParseQuantity(cantidad).Failure?)
    ensures r.Success? ==> r.value.(items := inv.items) == inv
    ensures r.Success? && !Falsy(actividad) && !Falsy(cantidad) ==>
              var a := ResolveActivity(catalog, actividad).value;
              var q := ParseQuantity(cantidad).value;
              |r.value.items| == |inv.items| + 1 && r.value.items[..|inv.items|] == inv.items &&
              r.value.items[|inv.items|] == Line(newItemId, a.id, q, a.precio, q * a.precio) &&
              Priced(r.value.items[|inv.items|]) &&
              Total(r.value.items) == Total(inv.items) + q * a.precio
  {
    if Falsy(actividad) || Falsy(cantidad) then Failure(NoForm)
    else match ResolveActivity(catalog, actividad)
      case Failure(e) => Failure(e)
      case Success(a) =>
        match ParseQuantity(cantidad)
        case Failure(e) => Failure(e)
        case Success(q) =>
          var line := Saved(Line(newItemId, a.id, q, a.precio, 0));
          TotalConcat(inv.items, [line]);
          assert Total([line]) == line.importe by { assert [line][..0] == []; }
          Success(inv.(items := inv.items + [line]))
  }

  /** "eliminar_item": delete the item with the given id from this invoice;
      without an id the view falls through to the unbound `form` and raises. */
  function RemoveInvoiceItem(inv: Invoice, itemId: IntParam): (r: Result<Invoice>)
    ensures Falsy(itemId) ==> r == Failure(NoForm)
    ensures !Falsy(itemId) ==> (r.Failure? <==> ResolveItem(inv.items, itemId).Failure?)
    ensures r.Success? ==> r.value.(items := inv.items) == inv
    ensures r.Success? && !Falsy(itemId) ==>
              var i := ResolveItem(inv.items, itemId).value;
              r.value.items == RemoveAt(inv.items, i) &&
              Total(r.value.items) == Total(inv.items) - inv.items[i].importe
  {
    if Falsy(itemId) then Failure(NoForm)
    else match ResolveItem(inv.items, itemId)
      case Failure(e) => Failure(e)
      case Success(i) =>
        TotalRemoveAt(inv.items, i);
        Success(inv.(items := RemoveAt(inv.items, i)))
  }

  /** "actualizar_cantidad": look the item up first, then parse the new
      quantity and save the item, which recomputes its amount.  With either
      parameter missing the view falls through to the unbound `form` and
      raises. */
  function UpdateInvoiceItemQuantity(inv: Invoice, itemId: IntParam, nuevaCantidad: IntParam): (r: Result<Invoice>)
    ensures Falsy(itemId) || Falsy(nuevaCantidad) ==> r == Failure(NoForm)
    ensures !Falsy(itemId) && !Falsy(nuevaCantidad) ==>
              (r.Failure? <==> ResolveItem(inv.items, itemId).Failure? || ParseQuantity(nuevaCantidad).Failure?)
    ensures !Falsy(itemId) && !Falsy(nuevaCantidad) && ResolveItem(inv.items, itemId).Failure? ==>
              r == Failure(ResolveItem(inv.items, itemId).error)
    ensures r.Success? ==> r.value.(items := inv.items) == inv
    ensures r.Success? && !Falsy(itemId) && !Falsy(nuevaCantidad) ==>
              var i := ResolveItem(inv.items, itemId).value;
              var q := ParseQuantity(nuevaCantidad).value;
              |r.value.items| == |inv.items| &&
              (forall j :: 0 <= j < |inv.items| && j != i ==> r.value.items[j] == inv.items[j]) &&
              r.value.items[i] == inv.items[i].(cantidad := q, importe := q * inv.items[i].precio) &&
              Total(r.value.items) == Total(inv.items) - inv.items[i].importe + q * inv.items[i].precio
  {
    if Falsy(itemId) || Falsy(nuevaCantidad) then Failure(NoForm)
    else match ResolveItem(inv.items, itemId)
      case Failure(e) => Failure(e)
      case Success(i) =>
        match ParseQuantity(nuevaCantidad)
        case Failure(e) => Failure(e)
        case Success(q) =>
          var line := Saved(inv.items[i].(cantidad := q));
          TotalReplaceAt(inv.items, i, line);
          Success(inv.(items := inv.items[i := line]))
  }

  /** One of the three item requests `editar_factura` handles. */
  datatype ItemEdit =
    | AddItem(actividad: IntParam, cantidad: IntParam)
    | RemoveItem(itemId: IntParam)
    | UpdateQuantity(itemId: IntParam, nuevaCantidad: IntParam)

  function ApplyItemEdit(inv: Invoice, edit: ItemEdit, catalog: seq<Activity>, newItemId: nat): (r: Result<Invoice>)
    ensures r.Success? ==> r.value.(items := inv.items) == inv
  {
    match edit
    case AddItem(a, c) => AddInvoiceItem(inv, a, c, catalog, newItemId)
    case RemoveItem(i) => RemoveInvoiceItem(inv, i)
    case UpdateQuantity(i, q) => UpdateInvoiceItemQuantity(inv, i, q)
  }

  /** Position of the invoice with the given id in the store. */
  function FindInvoice(store: seq<Invoice>, id: nat): (r: Option<nat>)
    ensures r.Some? ==> r.value < |store| && store[r.value].id == id
    ensures r.None? ==> forall i :: 0 <= i < |store| ==> store[i].id != id
  {
    if store == [] then None
    else if store[0].id == id then Some(0)
    else match FindInvoice(store[1..], id)
      case None => None
      case Some(k) => Some(k + 1)
  }

  /** `editar_factura` on an item request: a 404 for an unknown invoice,
      otherwise the edit applied to that invoice and to no other. */
  function EditInvoice(store: seq<Invoice>, facturaId: nat, edit: ItemEdit,
                       catalog: seq<Activity>, newItemId: nat): (r: Result<seq<Invoice>>)
    ensures FindInvoice(store, facturaId).None? ==> r == Failure(NotFound)
    ensures FindInvoice(store, facturaId).Some? ==>
              var k := FindInvoice(store, facturaId).value;
              var applied := ApplyItemEdit(store[k], edit, catalog, newItemId);
              (r.Success? <==> applied.Success?) &&
              (applied.Failure? ==> r == Failure(applied.error)) &&
              (applied.Success? ==> r.value == store[k := applied.value])
    ensures r.Success? ==>
              |r.value| == |store| &&
              forall i :: 0 <= i < |store| ==>
                r.value[i].(items := store[i].items) == store[i] &&
                (i != FindInvoice(store, facturaId).value ==> r.value[i] == store[i])
  {
    match FindInvoice(store, facturaId)
    case None => Failure(NotFound)
    case Some(k) =>
      match ApplyItemEdit(store[k], edit, catalog, newItemId)
      case Failure(e) => Failure(e)
      case Success(inv) => Success(store[k := inv])
  }

  /** Item edits never renumber or redate an invoice, so they keep the
      numbering invariant and the uniqueness of numbers. */
  lemma EditInvoiceKeepsNumbering(store: seq<Invoice>, facturaId: nat, edit: ItemEdit,
                                  catalog: seq<Activity>, newItemId: nat)
    requires EditInvoice(store, facturaId, edit, catalog, newItemId).Success?
    ensures NumberingInvariant(store) ==> NumberingInvariant(EditInvoice(store, facturaId, edit, catalog, newItemId).value)
    ensures InvoiceNumbersUnique(store) ==> InvoiceNumbersUnique(EditInvoice(store, facturaId, edit, catalog, newItemId).value)
  {
    var r := EditInvoice(store, facturaId, edit, catalog, newItemId).value;
    assert forall i :: 0 <= i < |store| ==> r[i].numero == store[i].numero && r[i].fecha == store[i].fecha by {
      forall i | 0 <= i < |store| ensures r[i].numero == store[i].numero && r[i].fecha == store[i].fecha {
        assert r[i].(items := store[i].items) == store[i];
      }
    }
  }
}
