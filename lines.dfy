/**
 * Line items, shared by invoices and offers: an activity, a quantity, the
 * unit price frozen when the line was added and the line amount
 * (`importe`).  Both item models recompute the amount as quantity times
 * price every time they are saved; `Saved` is that rule on values.
 */
module Lines {
  import opened Common

  /** A stored item row. `cantidad` is a PositiveIntegerField, so never negative. */
  datatype Line = Line(id: nat, actividad: nat, cantidad: nat, precio: int, importe: int)

  /** The amount agrees with quantity times price. */
  predicate Priced(l: Line) { l.importe == l.cantidad * l.precio }

  predicate AllPriced(items: seq<Line>) { forall i :: 0 <= i < |items| ==> Priced(items[i]) }

  /** The row `save()` writes: the amount is overwritten, nothing else changes. */
  function Saved(l: Line): (r: Line)
    ensures Priced(r)
    ensures r.id == l.id && r.actividad == l.actividad && r.cantidad == l.cantidad && r.precio == l.precio
  {
    l.(importe := l.cantidad * l.precio)
  }

  /** Saving twice stores the same row as saving once. */
  lemma SaveIdempotent(l: Line)
    ensures Saved(Saved(l)) == Saved(l)
  {
  }

  /** A row is left unchanged by `save()` exactly when its amount already agrees. */
  lemma SaveFixesOnlyPriced(l: Line)
    ensures Saved(l) == l <==> Priced(l)
  {
  }

  /** `sum(item.importe for item in items)`, added up in list order. */
  function Total(items: seq<Line>): int
  {
    if items == [] then 0 else Total(items[..|items| - 1]) + items[|items| - 1].importe
  }

  /** Sum of quantity times price over the items, independent of stored amounts. */
  function ListPrice(items: seq<Line>): int
  {
    if items == [] then 0 else ListPrice(items[..|items| - 1]) + items[|items| - 1].cantidad * items[|items| - 1].precio
  }

  /** When every amount was written by `save()`, the invoice total is the sum
      of quantity times price. */
  lemma {:induction false} TotalIsListPrice(items: seq<Line>)
    requires AllPriced(items)
    ensures Total(items) == ListPrice(items)
    decreases |items|
  {
    if items != [] {
      TotalIsListPrice(items[..|items| - 1]);
    }
  }

  lemma {:induction false} TotalConcat(a: seq<Line>, b: seq<Line>)
    ensures Total(a + b) == Total(a) + Total(b)
    decreases |b|
  {
    if b == [] {
      assert a + b == a;
    } else {
      assert (a + b)[..|a + b| - 1] == a + b[..|b| - 1];
      TotalConcat(a, b[..|b| - 1]);
    }
  }

  lemma {:induction false} TotalNonNegative(items: seq<Line>)
    requires forall i :: 0 <= i < |items| ==> items[i].importe >= 0
    ensures Total(items) >= 0
    decreases |items|
  {
    if items != [] {
      TotalNonNegative(items[..|items| - 1]);
    }
  }

  /** Position of the first item with the given id. */
  function IndexOfId(items: seq<Line>, id: nat): (r: Option<nat>)
    ensures r.Some? ==> r.value < |items| && items[r.value].id == id
    ensures r.Some? ==> forall j :: 0 <= j < r.value ==> items[j].id != id
    ensures r.None? ==> forall j :: 0 <= j < |items| ==> items[j].id != id
  {
    if items == [] then None
    else if items[0].id == id then Some(0)
    else match IndexOfId(items[1..], id)
      case None => None
      case Some(k) => Some(k + 1)
  }

  /** Some item bills the given activity. */
  predicate HasActivity(items: seq<Line>, actividad: nat)
  {
    exists i :: 0 <= i < |items| && items[i].actividad == actividad
  }

  predicate ActivitiesDistinct(items: seq<Line>)
  {
    forall i, j :: 0 <= i < j < |items| ==> items[i].actividad != items[j].actividad
  }

  /** The list without its element at position `i`, the others kept in order. */
  function RemoveAt<T>(items: seq<T>, i: nat): (r: seq<T>)
    requires i < |items|
    ensures |r| == |items| - 1
    ensures forall j :: 0 <= j < i ==> r[j] == items[j]
    ensures forall j :: i <= j < |r| ==> r[j] == items[j + 1]
  {
    items[..i] + items[i + 1..]
  }

  /** Removing an item lowers the total by exactly its amount. */
  lemma TotalRemoveAt(items: seq<Line>, i: nat)
    requires i < |items|
    ensures Total(RemoveAt(items, i)) == Total(items) - items[i].importe
  {
    TotalAround(items, i);
    TotalConcat(items[..i], items[i + 1..]);
  }

  /** The total is the total before an item, plus its amount, plus the total after it. */
  lemma TotalAround(items: seq<Line>, i: nat)
    requires i < |items|
    ensures Total(items) == Total(items[..i]) + items[i].importe + Total(items[i + 1..])
  {
    var front, back := items[..i + 1], items[i + 1..];
    assert items == front + back;
    TotalConcat(front, back);
    assert front[..i] == items[..i];
  }

  /** Replacing an item changes the total by the difference of the amounts. */
  lemma TotalReplaceAt(items: seq<Line>, i: nat, l: Line)
    requires i < |items|
    ensures Total(items[i := l]) == Total(items) - items[i].importe + l.importe
  {
    assert items == items[..i] + [items[i]] + items[i + 1..];
    assert items[i := l] == items[..i] + [l] + items[i + 1..];
    TotalConcat(items[..i] + [items[i]], items[i + 1..]);
    TotalConcat(items[..i], [items[i]]);
    TotalConcat(items[..i] + [l], items[i + 1..]);
    TotalConcat(items[..i], [l]);
  }
}
