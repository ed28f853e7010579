/**
 * The offer records: `Oferta` with its owned items, and `OfertaItem`,
 * whose `save()` recomputes the line amount before the row is written.
 */
module OfferModel {
  import opened Common
  import opened Lines

  /** A stored offer.  The date is set once, when the offer is created; the
      number is unique across all offers; the items belong to the offer. */
  datatype Offer = Offer(
    id: nat,
    numero: string,
    fecha: Date,
    area: Area,
    cliente: Client,
    observaciones: Option<string>,
    createdBy: nat,
    items: seq<Line>)

  /** The unique constraint on `numero_oferta`. */
  predicate OfferNumbersUnique(offers: seq<Offer>)
  {
    forall i, j :: 0 <= i < j < |offers| ==> offers[i].numero != offers[j].numero
  }

  predicate OfferNumberTaken(offers: seq<Offer>, numero: string)
  {
    exists i :: 0 <= i < |offers| && offers[i].numero == numero
  }

  /** A model instance of `OfertaItem`, before and after `save()`. */
  class OfferItem {
    var id: nat
    var oferta: nat
    var actividad: nat
    var cantidad: nat
    var precio: int
    var importe: int

    function Row(): Line
      reads this
    {
      Line(id, actividad, cantidad, precio, importe)
    }

    /** An unsaved `OfertaItem(oferta=..., ...)` instance. */
    constructor (oferta: nat, row: Line)
      ensures this.oferta == oferta && Row() == row
    {
      this.id := row.id;
      this.oferta := oferta;
      this.actividad := row.actividad;
      this.cantidad := row.cantidad;
      this.precio := row.precio;
      this.importe := row.importe;
    }

    /** `save()`: overwrite the amount with quantity times price. */
    method Save()
      modifies this`importe
      ensures Row() == Saved(old(Row()))
      ensures Priced(Row())
    {
      importe := cantidad * precio;
    }
  }
}
