/**
 * Document numbering.  Invoice numbers are `YYYY-NNNN` and offer numbers
 * `YYYYNNNNN`; each new number continues the last one of the year, found
 * by sorting the existing numbers as text, and a year without documents
 * starts at 1.  Issuance is taken to be serialized: the read-then-write race
 * between two concurrent requests is not part of this model.
 */
module Numbering {
  import opened Common
  import opened Text
  import opened InvoiceModel
  import opened OfferModel

  // ---------------------------------------------------------------------
  // Invoices
  // ---------------------------------------------------------------------

  /** `f"{year}-{n:04d}"`. */
  function InvoiceNumber(year: nat, n: nat): string
  {
    NatToString(year) + "-" + Padded(n, 4)
  }

  /** The invoice carries a date in the given year (`fecha_factura__year=year`). */
  predicate DatedIn(inv: Invoice, year: nat)
  {
    inv.fecha.Some? && inv.fecha.value.year == year
  }

  /** The numbers of the invoices dated in the year, in store order. */
  function NumbersDatedIn(store: seq<Invoice>, year: nat): (r: seq<string>)
    ensures forall i :: 0 <= i < |store| && DatedIn(store[i], year) ==> store[i].numero in r
    ensures forall x :: x in r ==> exists i :: 0 <= i < |store| && DatedIn(store[i], year) && store[i].numero == x
  {
    if store == [] then []
    else
      var rest := NumbersDatedIn(store[1..], year);
      assert forall x :: x in rest ==> exists i :: 0 <= i < |store| && DatedIn(store[i], year) && store[i].numero == x by {
        forall x | x in rest ensures exists i :: 0 <= i < |store| && DatedIn(store[i], year) && store[i].numero == x {
          var k :| 0 <= k < |store[1..]| && DatedIn(store[1..][k], year) && store[1..][k].numero == x;
          assert store[k + 1] == store[1..][k];
        }
      }
      assert forall i :: 1 <= i < |store| && DatedIn(store[i], year) ==> store[i].numero in rest by {
        forall i | 1 <= i < |store| && DatedIn(store[i], year) ensures store[i].numero in rest {
          assert store[i] == store[1..][i - 1];
        }
      }
      (if DatedIn(store[0], year) then [store[0].numero] else []) + rest
  }

  /** `int(numero.split('-')[1])`; None where Python raises (no second
      piece, or a piece that is not a number). */
  function SequenceOf(numero: string): Option<nat>
  {
    var parts := Split(numero, '-');
    if |parts| < 2 then None else ParseNat(parts[1])
  }

  /** The counter `crear_factura` and `facturar_oferta` compute: one past the
      counter of the textually greatest number dated in the year, or 1. */
  function NextInvoiceSequence(store: seq<Invoice>, year: nat): (r: Result<nat>)
    ensures r.Failure? ==> r.error == MalformedNumber
    ensures NumbersDatedIn(store, year) == [] ==> r == Success(1)
    ensures forall last :: IsLexGreatest(last, NumbersDatedIn(store, year)) ==>
              (r.Success? <==> SequenceOf(last).Some?) &&
              (r.Success? ==> r.value == SequenceOf(last).value + 1)
  {
    var numbers := NumbersDatedIn(store, year);
    match LexMax(numbers)
    case None => Success(1)
    case Some(last) =>
      LexGreatestUnique(last, numbers);
      match SequenceOf(last)
      case None => Failure(MalformedNumber)
      case Some(k) => Success(k + 1)
  }

  /** The number itself: the year, a dash, and the counter, which reads
      back from the number. */
  function NextInvoiceNumber(store: seq<Invoice>, year: nat): (r: Result<string>)
    ensures r.Success? <==> NextInvoiceSequence(store, year).Success?
    ensures r.Failure? ==> r.error == MalformedNumber
    ensures r.Success? ==>
              Split(r.value, '-')[0] == NatToString(year) &&
              SequenceOf(r.value) == Some(NextInvoiceSequence(store, year).value)
  {
    match NextInvoiceSequence(store, year)
    case Failure(e) => Failure(e)
    case Success(n) =>
      InvoiceNumberRoundTrip(year, n);
      Success(InvoiceNumber(year, n))
  }

  lemma DigitsHaveNoDash(s: string)
    requires AllDigits(s)
    ensures '-' !in s
  {
    forall i | 0 <= i < |s| ensures s[i] != '-' {
      assert IsDigit(s[i]);
    }
  }

  /** An invoice number splits at its dash into the year and the padded
      counter, and reading the counter back gives the number it was made from. */
  lemma InvoiceNumberRoundTrip(year: nat, n: nat)
    ensures Split(InvoiceNumber(year, n), '-') == [NatToString(year), Padded(n, 4)]
    ensures SequenceOf(InvoiceNumber(year, n)) == Some(n)
  {
    var y, p := NatToString(year), Padded(n, 4);
    PaddedRoundTrip(n, 4);
    DigitsHaveNoDash(y);
    DigitsHaveNoDash(p);
    assert Join([y, p], '-') == InvoiceNumber(year, n);
    SplitJoinRoundTrip([y, p], '-');
  }

  /** The shape every invoice number has when it was issued for `year` with
      a counter below 10000. */
  predicate WellNumbered(numero: string, year: nat)
  {
    var parts := Split(numero, '-');
    |parts| == 2 && parts[0] == NatToString(year) && |parts[1]| == 4 && AllDigits(parts[1])
  }

  /** The store invariant under which numbering never repeats itself: every
      invoice is dated and numbered for the year of its date. */
  predicate NumberingInvariant(store: seq<Invoice>)
  {
    forall i :: 0 <= i < |store| ==> store[i].fecha.Some? && WellNumbered(store[i].numero, store[i].fecha.value.year)
  }

  /** The year has not yet used its last four-digit counter. */
  predicate RoomInYear(store: seq<Invoice>, year: nat)
  {
    NextInvoiceSequence(store, year).Success? ==> NextInvoiceSequence(store, year).value <= 9999
  }

  lemma InvoiceNumberWellNumbered(year: nat, n: nat)
    requires n < 10000
    ensures WellNumbered(InvoiceNumber(year, n), year)
  {
    InvoiceNumberRoundTrip(year, n);
    assert Pow10(4) == 10000;
    PaddedLength(n, 4);
    PaddedRoundTrip(n, 4);
  }

  lemma WellNumberedShape(s: string, year: nat)
    requires WellNumbered(s, year)
    ensures s == NatToString(year) + "-" + Split(s, '-')[1]
    ensures SequenceOf(s) == Some(DigitsValue(Split(s, '-')[1]))
  {
    var parts := Split(s, '-');
    JoinSplitRoundTrip(s, '-');
    assert Join(parts, '-') == parts[0] + "-" + parts[1];
  }

  /** Serialized issuance never repeats an invoice number: as long as every
      stored invoice is dated and numbered for its own year, the next number
      for `year` exists, its counter is above the counter of every invoice of
      that year, and it differs from every stored number. */
  lemma NextInvoiceNumberIsFresh(store: seq<Invoice>, year: nat)
    requires NumberingInvariant(store)
    ensures NextInvoiceSequence(store, year).Success?
    ensures forall i :: 0 <= i < |store| && DatedIn(store[i], year) ==>
              SequenceOf(store[i].numero).Some? &&
              SequenceOf(store[i].numero).value < NextInvoiceSequence(store, year).value
    ensures forall i :: 0 <= i < |store| ==>
              store[i].numero != InvoiceNumber(year, NextInvoiceSequence(store, year).value)
    ensures (exists i :: 0 <= i < |store| && DatedIn(store[i], year)) ==>
              exists i :: 0 <= i < |store| && DatedIn(store[i], year) &&
                SequenceOf(store[i].numero) == Some(NextInvoiceSequence(store, year).value - 1)
  {
    var ys := NumbersDatedIn(store, year);
    var y := NatToString(year);
    match LexMax(ys)
    case None =>
      var candidate := InvoiceNumber(year, 1);
      InvoiceNumberRoundTrip(year, 1);
      forall i | 0 <= i < |store| ensures store[i].numero != candidate {
        var yi := store[i].fecha.value.year;
        assert !DatedIn(store[i], year);
        NatToStringDistinct(yi, year);
      }
    case Some(last) =>
      var j :| 0 <= j < |store| && DatedIn(store[j], year) && store[j].numero == last;
      WellNumberedShape(last, year);
      var dj := Split(last, '-')[1];
      var n := DigitsValue(dj) + 1;
      assert NextInvoiceSequence(store, year) == Success(n);
      forall i | 0 <= i < |store| && DatedIn(store[i], year)
        ensures SequenceOf(store[i].numero).Some? && SequenceOf(store[i].numero).value < n
      {
        var s := store[i].numero;
        WellNumberedShape(s, year);
        var di := Split(s, '-')[1];
        if s != last {
          LexTotal(s, last);
          LexCommonPrefix(y + "-", di, dj);
          LexOrderIsNumericOrder(di, dj);
        }
      }
      var candidate := InvoiceNumber(year, n);
      InvoiceNumberRoundTrip(year, n);
      forall i | 0 <= i < |store| ensures store[i].numero != candidate {
        var yi := store[i].fecha.value.year;
        if yi != year {
          NatToStringDistinct(yi, year);
        }
      }
  }

  // ---------------------------------------------------------------------
  // Offers
  // ---------------------------------------------------------------------

  /** `f"{year}{str(n).zfill(5)}"`. */
  function OfferNumber(year: nat, n: nat): string
  {
    NatToString(year) + Padded(n, 5)
  }

  /** The numbers of `Oferta.objects.filter(numero_oferta__startswith=prefix)`. */
  function NumbersWithPrefix(offers: seq<Offer>, prefix: string): (r: seq<string>)
    ensures forall i :: 0 <= i < |offers| && prefix <= offers[i].numero ==> offers[i].numero in r
    ensures forall x :: x in r ==> prefix <= x && exists i :: 0 <= i < |offers| && offers[i].numero == x
  {
    if offers == [] then []
    else
      var rest := NumbersWithPrefix(offers[1..], prefix);
      assert forall x :: x in rest ==> exists i :: 0 <= i < |offers| && offers[i].numero == x by {
        forall x | x in rest ensures exists i :: 0 <= i < |offers| && offers[i].numero == x {
          var k :| 0 <= k < |offers[1..]| && offers[1..][k].numero == x;
          assert offers[k + 1] == offers[1..][k];
        }
      }
      assert forall i :: 1 <= i < |offers| && prefix <= offers[i].numero ==> offers[i].numero in rest by {
        forall i | 1 <= i < |offers| && prefix <= offers[i].numero ensures offers[i].numero in rest {
          assert offers[i] == offers[1..][i - 1];
        }
      }
      (if prefix <= offers[0].numero then [offers[0].numero] else []) + rest
  }

  /** `numero[4:]`: everything after the first four characters. */
  function OfferSuffix(numero: string): string
  {
    if |numero| >= 4 then numero[4..] else ""
  }

  /** One past the counter of the textually greatest offer number starting
      with the year; 1 when there is none or its counter is not a number. */
  function NextOfferSequence(offers: seq<Offer>, year: nat): (n: nat)
    ensures n >= 1
    ensures NumbersWithPrefix(offers, NatToString(year)) == [] ==> n == 1
    ensures forall last :: IsLexGreatest(last, NumbersWithPrefix(offers, NatToString(year))) ==>
              (ParseNat(OfferSuffix(last)).None? ==> n == 1) &&
              (ParseNat(OfferSuffix(last)).Some? ==> n == ParseNat(OfferSuffix(last)).value + 1)
  {
    var numbers := NumbersWithPrefix(offers, NatToString(year));
    match LexMax(numbers)
    case None => 1
    case Some(last) =>
      LexGreatestUnique(last, numbers);
      match ParseNat(OfferSuffix(last))
      case None => 1
      case Some(k) => k + 1
  }

  /** The number itself: the year followed by the counter, which reads back
      from everything after the year's four digits. */
  function NextOfferNumber(offers: seq<Offer>, year: nat): (r: string)
    ensures 1000 <= year <= 9999 ==>
              NatToString(year) <= r && ParseNat(OfferSuffix(r)) == Some(NextOfferSequence(offers, year))
  {
    var n := NextOfferSequence(offers, year);
    if 1000 <= year <= 9999 then
      OfferNumberRoundTrip(year, n);
      OfferNumber(year, n)
    else OfferNumber(year, n)
  }

  /** The shape of an offer number issued for a four-digit year with a
      counter below 100000: nine digits. */
  predicate OfferWellNumbered(numero: string)
  {
    |numero| == 9 && AllDigits(numero)
  }

  /** An offer number issued for a four-digit year reads back, after its first
      four characters, as the counter it was made from. */
  lemma OfferNumberRoundTrip(year: nat, n: nat)
    requires 1000 <= year <= 9999
    ensures NatToString(year) <= OfferNumber(year, n)
    ensures OfferSuffix(OfferNumber(year, n)) == Padded(n, 5)
    ensures ParseNat(OfferSuffix(OfferNumber(year, n))) == Some(n)
    ensures n < 100000 ==> OfferWellNumbered(OfferNumber(year, n))
  {
    FourDigitYear(year);
    PaddedRoundTrip(n, 5);
    var s := OfferNumber(year, n);
    assert s[4..] == Padded(n, 5);
    if n < 100000 {
      assert Pow10(5) == 100000;
      PaddedLength(n, 5);
      assert AllDigits(s) by {
        forall i | 0 <= i < |s| ensures IsDigit(s[i]) {
          if i < 4 { assert s[i] == NatToString(year)[i]; } else { assert s[i] == Padded(n, 5)[i - 4]; }
        }
      }
    }
  }

  lemma NineDigitSuffix(s: string)
    requires OfferWellNumbered(s)
    ensures OfferSuffix(s) == s[4..] && |s[4..]| == 5 && AllDigits(s[4..])
    ensures ParseNat(OfferSuffix(s)) == Some(DigitsValue(s[4..]))
  {
    assert forall i :: 0 <= i < 5 ==> s[4..][i] == s[i + 4];
  }

  /** Serialized issuance never repeats an offer number: when every stored
      offer number has nine digits and the year has four, the next counter is
      above the counter of every number of the year and the next number
      differs from every stored one. */
  lemma NextOfferNumberIsFresh(offers: seq<Offer>, year: nat)
    requires 1000 <= year <= 9999
    requires forall i :: 0 <= i < |offers| ==> OfferWellNumbered(offers[i].numero)
    ensures forall i :: 0 <= i < |offers| && NatToString(year) <= offers[i].numero ==>
              ParseNat(OfferSuffix(offers[i].numero)).Some? &&
              ParseNat(OfferSuffix(offers[i].numero)).value < NextOfferSequence(offers, year)
    ensures forall i :: 0 <= i < |offers| ==> offers[i].numero != NextOfferNumber(offers, year)
    ensures (exists i :: 0 <= i < |offers| && NatToString(year) <= offers[i].numero) ==>
              exists i :: 0 <= i < |offers| && NatToString(year) <= offers[i].numero &&
                ParseNat(OfferSuffix(offers[i].numero)) == Some(NextOfferSequence(offers, year) - 1)
  {
    var y := NatToString(year);
    FourDigitYear(year);
    var ys := NumbersWithPrefix(offers, y);
    var n := NextOfferSequence(offers, year);
    var candidate := NextOfferNumber(offers, year);
    OfferNumberRoundTrip(year, n);
    match LexMax(ys)
    case None =>
      forall i | 0 <= i < |offers| ensures offers[i].numero != candidate {
        assert !(y <= offers[i].numero);
      }
    case Some(last) =>
      NineDigitSuffix(last);
      var dl := last[4..];
      assert last == y + dl;
      assert n == DigitsValue(dl) + 1;
      forall i | 0 <= i < |offers| && y <= offers[i].numero
        ensures ParseNat(OfferSuffix(offers[i].numero)).Some? && ParseNat(OfferSuffix(offers[i].numero)).value < n
      {
        var s := offers[i].numero;
        NineDigitSuffix(s);
        assert s == y + s[4..];
        if s != last {
          LexTotal(s, last);
          LexCommonPrefix(y, s[4..], dl);
          LexOrderIsNumericOrder(s[4..], dl);
        }
      }
      forall i | 0 <= i < |offers| ensures offers[i].numero != candidate {
        var s := offers[i].numero;
        if y <= s {
          NineDigitSuffix(s);
        }
      }
  }
}
