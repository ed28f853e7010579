/**
 * The invoice records: `Factura` with its owned items, and `FacturaItem`,
 * whose `save()` recomputes the line amount before the row is written.
 */
module InvoiceModel {
  import opened Common
  import opened Lines

  /** `estado` defaults to the state with id 1 ("NO FIRMADA"). */
  const DefaultStatusId: nat := 1

  /** A stored invoice.  The date may be absent; the number is unique
      across all invoices; the items belong to the invoice. */
  datatype Invoice = Invoice(
    id: nat,
    numero: string,
    fecha: Option<Date>,
    area: Area,
    cliente: Client,
    observaciones: Option<string>,
    estado: Status,
    createdBy: nat,
    items: seq<Line>)

  /** The unique constraint on `numero_factura`. */
  predicate InvoiceNumbersUnique(store: seq<Invoice>)
  {
    forall i, j :: 0 <= i < j < |store| ==> store[i].numero != store[j].numero
  }

  predicate InvoiceNumberTaken(store: seq<Invoice>, numero: string)
  {
    exists i :: 0 <= i < |store| && store[i].numero == numero
  }

  /** A model instance of `FacturaItem`, before and after `save()`. */
  class InvoiceItem {
    var id: nat
    var factura: nat
    var actividad: nat
    var cantidad: nat
    var precio: int
    var importe: int

    /** The row this instance would write. */
    function Row(): Line
      reads this
    {
      Line(id, actividad, cantidad, precio, importe)
    }

    /** `FacturaItem(factura=..., actividad=..., cantidad=..., precio=..., importe=...)`:
        an unsaved instance holding whatever amount the caller supplied. */
    constructor (factura: nat, row: Line)
      ensures this.factura == factura && Row() == row
    {
      this.id := row.id;
      this.factura := factura;
      this.actividad := row.actividad;
      this.cantidad := row.cantidad;
      this.precio := row.precio;
      this.importe := row.importe;
    }

    /** `save()`: overwrite the amount with quantity times price. */
    method Save()
      modifies this`importe
      ensures Row() == Saved(old(Row()))
      ensures Priced(Row())
    {
      importe := cantidad * precio;
    }
  }
}
