/**
 * `facturar_oferta`: turn a stored offer into a new invoice dated today,
 * numbered like `crear_factura`, in the default state, with one invoice
 * item per offer item.  The offer itself is only read.
 */
module Promotion {
  import opened Common
  import opened Lines
  import opened InvoiceModel
  import opened OfferModel
  import opened Numbering
  import opened OfferEditing

  /** The invoice item copied from an offer item: same activity, quantity
      and price, the amount recomputed by `save()`. */
  predicate CopiedFrom(c: Line, l: Line, id: nat)
  {
    c.id == id && c.actividad == l.actividad && c.cantidad == l.cantidad && c.precio == l.precio && Priced(c)
  }

  /** The loop creating one `FacturaItem` per offer item.  The offer item's
      amount is handed to the constructor and then overwritten by `save()`. */
  method CopyItems(factura: nat, items: seq<Line>, firstId: nat) returns (copied: seq<Line>)
    ensures |copied| == |items|
    ensures forall i :: 0 <= i < |items| ==> CopiedFrom(copied[i], items[i], firstId + i)
  {
    copied := [];
    for i := 0 to |items|
      invariant |copied| == i
      invariant forall j :: 0 <= j < i ==> CopiedFrom(copied[j], items[j], firstId + j)
    {
      var l := items[i];
      var item := new InvoiceItem(factura, Line(firstId + i, l.actividad, l.cantidad, l.precio, l.importe));
      item.Save();
      copied := copied + [item.Row()];
    }
  }

  /** Copied items add up to the list price of the originals. */
  lemma {:induction false} CopiedListPrice(items: seq<Line>, copied: seq<Line>, firstId: nat)
    requires |copied| == |items|
    requires forall i :: 0 <= i < |items| ==> CopiedFrom(copied[i], items[i], firstId + i)
    ensures AllPriced(copied)
    ensures ListPrice(copied) == ListPrice(items)
    decreases |items|
  {
    if items != [] {
      var n := |items| - 1;
      CopiedListPrice(items[..n], copied[..n], firstId);
    }
  }

  /** The invoice total of a promoted offer equals the offer total whenever
      the offer's amounts were all written by `save()`. */
  lemma CopiedTotal(items: seq<Line>, copied: seq<Line>, firstId: nat)
    requires AllPriced(items)
    requires |copied| == |items|
    requires forall i :: 0 <= i < |items| ==> CopiedFrom(copied[i], items[i], firstId + i)
    ensures Total(copied) == Total(items)
  {
    CopiedListPrice(items, copied, firstId);
    TotalIsListPrice(copied);
    TotalIsListPrice(items);
  }

  /** `facturar_oferta`: a 404 for an unknown offer; the year scan and the
      default-state lookup can abort the request; a number already taken
      is refused by the unique constraint. */
  method PromoteOffer(store: seq<Invoice>, offers: seq<Offer>, ofertaId: nat, today: Date, user: nat,
                      statuses: seq<Status>, newId: nat, firstItemId: nat) returns (r: Result<seq<Invoice>>)
    ensures FindOffer(offers, ofertaId).None? ==> r == Failure(NotFound)
    ensures FindOffer(offers, ofertaId).Some? ==>
              (r.Failure? <==> NextInvoiceSequence(store, today.year).Failure? ||
                               FindStatus(statuses, DefaultStatusId).None? ||
                               InvoiceNumberTaken(store, InvoiceNumber(today.year, NextInvoiceSequence(store, today.year).value)))
    ensures r.Success? ==>
              FindOffer(offers, ofertaId).Some? && NextInvoiceSequence(store, today.year).Success? &&
              FindStatus(statuses, DefaultStatusId).Some? &&
              |r.value| == |store| + 1 && r.value[..|store|] == store &&
              var o := offers[FindOffer(offers, ofertaId).value];
              var inv := r.value[|store|];
              inv.id == newId && inv.numero == InvoiceNumber(today.year, NextInvoiceSequence(store, today.year).value) &&
              inv.fecha == Some(today) && inv.area == o.area && inv.cliente == o.cliente &&
              inv.observaciones == o.observaciones && inv.estado == FindStatus(statuses, DefaultStatusId).value &&
              inv.estado.id == DefaultStatusId && inv.createdBy == user &&
              |inv.items| == |o.items| &&
              (forall i :: 0 <= i < |o.items| ==> CopiedFrom(inv.items[i], o.items[i], firstItemId + i)) &&
              (AllPriced(o.items) ==> Total(inv.items) == Total(o.items))
    ensures r.Success? && InvoiceNumbersUnique(store) ==> InvoiceNumbersUnique(r.value)
  {
    var k := FindOffer(offers, ofertaId);
    if k.None? {
      return Failure(NotFound);
    }
    var offer := offers[k.value];
    var seqNo := NextInvoiceSequence(store, today.year);
    if seqNo.Failure? {
      return Failure(seqNo.error);
    }
    var numero := InvoiceNumber(today.year, seqNo.value);
    var estado := FindStatus(statuses, DefaultStatusId);
    if estado.None? {
      return Failure(NotFound);
    }
    if InvoiceNumberTaken(store, numero) {
      return Failure(DuplicateNumber);
    }
    var copied := CopyItems(newId, offer.items, firstItemId);
    if AllPriced(offer.items) {
      CopiedTotal(offer.items, copied, firstItemId);
    }
    var inv := Invoice(newId, numero, Some(today), offer.area, offer.cliente, offer.observaciones,
                       estado.value, user, copied);
    r := Success(store + [inv]);
    assert r.value[..|store|] == store;
  }

  /** On a store kept in the numbering invariant, the invoice promotion adds
      (dated today, numbered for today's year) carries a number no stored
      invoice has, and the store with it keeps the invariant while the year
      has room. */
  lemma PromotionKeepsNumbering(store: seq<Invoice>, today: Date, newInvoice: Invoice)
    requires NumberingInvariant(store) && InvoiceNumbersUnique(store)
    requires RoomInYear(store, today.year)
    requires NextInvoiceSequence(store, today.year).Success?
    requires newInvoice.fecha == Some(today)
    requires newInvoice.numero == InvoiceNumber(today.year, NextInvoiceSequence(store, today.year).value)
    ensures !InvoiceNumberTaken(store, newInvoice.numero)
    ensures NumberingInvariant(store + [newInvoice])
    ensures InvoiceNumbersUnique(store + [newInvoice])
  {
    NextInvoiceNumberIsFresh(store, today.year);
    InvoiceNumberWellNumbered(today.year, NextInvoiceSequence(store, today.year).value);
    var s := store + [newInvoice];
    assert forall i :: 0 <= i < |store| ==> s[i] == store[i];
  }
}
