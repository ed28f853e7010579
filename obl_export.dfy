/**
 * `exportar_factura_obl`: the accounting hand-off file of one invoice.  The
 * file is seventeen `key=value` (or section) lines joined by newlines; the
 * invoice total appears three times, the date as DD/MM/YYYY, and the
 * optional codes of the area and the client as Python renders them, which
 * is the word "None" when they are absent.
 */
module OblExport {
  import opened Common
  import opened Text
  import opened Lines
  import opened InvoiceModel
  import opened InvoiceEditing

  /** `str(Decimal)` of an amount with two decimal places, given in cents:
      the signed units, a point and exactly two digits. */
  function MoneyText(cents: int): (s: string)
    ensures |s| >= 4 && s[|s| - 3] == '.'
    ensures '\n' !in s
  {
    var a: nat := if cents < 0 then -cents else cents;
    var frac := Padded(a % 100, 2);
    PaddedLength(a % 100, 2);
    PaddedRoundTrip(a % 100, 2);
    MoneyShape(UnitsText(cents), frac);
    assert '\n' !in frac by {
      NoSeparatorInDigits([frac], '\n');
      assert [frac][0] == frac;
    }
    UnitsText(cents) + "." + frac
  }

  /** The units of an amount in cents, with a minus sign when negative. */
  function UnitsText(cents: int): (s: string)
    ensures |s| >= 1 && '\n' !in s
  {
    var a: nat := if cents < 0 then -cents else cents;
    var digits := NatToString(a / 100);
    NoSeparatorInDigits([digits], '\n');
    assert [digits][0] == digits;
    if cents < 0 then "-" + digits else digits
  }

  /** Reads an amount written as above back into cents. */
  function ParseMoney(s: string): Option<int>
  {
    if |s| < 4 || s[|s| - 3] != '.' then None
    else
      var whole := s[..|s| - 3];
      if |whole| > 0 && whole[0] == '-' then
        match Cents(whole[1..], s[|s| - 2..])
        case Some(c) => Some(-(c as int))
        case None => None
      else
        match Cents(whole, s[|s| - 2..])
        case Some(c) => Some(c as int)
        case None => None
  }

  /** Units and hundredths, both plain digit strings. */
  function Cents(units: string, frac: string): Option<nat>
  {
    var u := ParseNat(units);
    var f := ParseNat(frac);
    if u.Some? && f.Some? then Some(u.value * 100 + f.value) else None
  }

  /** Where the parts of `whole.frac` sit. */
  lemma MoneyShape(whole: string, frac: string)
    ensures var s := whole + "." + frac;
            |s| == |whole| + 1 + |frac| && s[|whole|] == '.' && s[..|whole|] == whole && s[|whole| + 1..] == frac
  {
  }

  /** Reading `whole.frac` when `whole` starts with a minus sign. */
  lemma ParseNegativeParts(whole: string, frac: string)
    requires |whole| >= 1 && whole[0] == '-' && |frac| == 2
    ensures Cents(whole[1..], frac).Some? ==>
              ParseMoney(whole + "." + frac) == Some(-(Cents(whole[1..], frac).value as int))
  {
    MoneyShape(whole, frac);
  }

  /** Reading `whole.frac` when `whole` has no sign. */
  lemma ParseUnsignedParts(whole: string, frac: string)
    requires |whole| >= 1 && whole[0] != '-' && |frac| == 2
    ensures Cents(whole, frac).Some? ==>
              ParseMoney(whole + "." + frac) == Some(Cents(whole, frac).value as int)
  {
    MoneyShape(whole, frac);
  }

  /** Every amount the export writes reads back as itself. */
  lemma MoneyTextRoundTrip(cents: int)
    ensures ParseMoney(MoneyText(cents)) == Some(cents)
  {
    var a: nat := if cents < 0 then -cents else cents;
    var frac := Padded(a % 100, 2);
    var digits := NatToString(a / 100);
    var whole := UnitsText(cents);
    assert MoneyText(cents) == whole + "." + frac;
    PaddedLength(a % 100, 2);
    PaddedRoundTrip(a % 100, 2);
    NatToStringRoundTrip(a / 100);
    assert Cents(digits, frac) == Some(a) by {
      assert a / 100 * 100 + a % 100 == a;
    }
    if cents < 0 {
      assert whole[1..] == digits;
      ParseNegativeParts(whole, frac);
    } else {
      assert IsDigit(digits[0]);
      ParseUnsignedParts(whole, frac);
    }
  }

  /** `strftime('%d/%m/%Y')`. */
  function DateText(d: Date): string
  {
    Padded(d.day, 2) + "/" + Padded(d.month, 2) + "/" + Padded(d.year, 4)
  }

  /** For a date of a four-digit year the text is ten characters and its
      three parts read back as day, month and year. */
  lemma DateTextReadsBack(d: Date)
    requires 1 <= d.day <= 31 && ValidMonth(d.month) && d.year <= 9999
    ensures |DateText(d)| == 10 && '\n' !in DateText(d)
    ensures Split(DateText(d), '/') == [Padded(d.day, 2), Padded(d.month, 2), Padded(d.year, 4)]
    ensures ParseNat(Split(DateText(d), '/')[0]) == Some(d.day)
    ensures ParseNat(Split(DateText(d), '/')[1]) == Some(d.month)
    ensures ParseNat(Split(DateText(d), '/')[2]) == Some(d.year)
  {
    assert Pow10(2) == 100 && Pow10(4) == 10000;
    PaddedLength(d.day, 2);
    PaddedLength(d.month, 2);
    PaddedLength(d.year, 4);
    PaddedRoundTrip(d.day, 2);
    PaddedRoundTrip(d.month, 2);
    PaddedRoundTrip(d.year, 4);
    var parts := [Padded(d.day, 2), Padded(d.month, 2), Padded(d.year, 4)];
    assert forall i :: 0 <= i < |parts| ==> AllDigits(parts[i]);
    NoSeparatorInDigits(parts, '/');
    NoSeparatorInDigits(parts, '\n');
    assert Join(parts[2..], '/') == parts[2];
    assert Join(parts[1..], '/') == parts[1] + "/" + parts[2];
    assert Join(parts, '/') == DateText(d);
    SplitJoinRoundTrip(parts, '/');
  }

  lemma NoSeparatorInDigits(parts: seq<string>, sep: char)
    requires !IsDigit(sep)
    requires forall i :: 0 <= i < |parts| ==> AllDigits(parts[i])
    ensures forall i :: 0 <= i < |parts| ==> sep !in parts[i]
  {
    forall i | 0 <= i < |parts| ensures sep !in parts[i] {
      forall k | 0 <= k < |parts[i]| ensures parts[i][k] != sep {
        assert IsDigit(parts[i][k]);
      }
    }
  }

  /** An optional text field in an f-string. */
  function OptText(o: Option<string>): (s: string)
    ensures o.None? ==> s == "None"
    ensures o.Some? ==> s == o.value
  {
    match o
    case None => "None"
    case Some(t) => t
  }

  /** An optional integer field in an f-string. */
  function OptIntText(o: Option<int>): (s: string)
    ensures o.None? ==> s == "None"
  {
    match o
    case None => "None"
    case Some(n) => IntToString(n)
  }

  /** The total as written: the sum starts from the integer 0, so an invoice
      without items shows "0"; otherwise the sum is a two-place decimal. */
  function TotalText(items: seq<Line>): (s: string)
    ensures items == [] ==> s == "0"
    ensures items != [] ==> ParseMoney(s) == Some(Total(items))
  {
    if items == [] then "0"
    else
      MoneyTextRoundTrip(Total(items));
      MoneyText(Total(items))
  }

  /** The seventeen lines for an invoice, its total and its date text, in
      the order the export appends them to an initially empty list. */
  function OblLines(inv: Invoice, total: string, fecha: string): (lines: seq<string>)
    ensures |lines| == 17
  {
    []
    + ["[Obligacion]"]
    + ["Concepto=Obligacion por Factura Emitida"]
    + ["Tipo={7DE34F15-C9BA-4FE0-AEE6-B5E85ADB84DC}"]
    + ["Unidad=" + OptText(inv.area.centroCosto)]
    + ["Entidad=" + OptText(inv.cliente.clienteVersat)]
    + ["Numero=" + inv.numero]
    + ["Fechaemi=" + fecha]
    + ["Descripcion=" + inv.area.nombre]
    + ["Fecharec="]
    + ["ImporteMC=" + total]
    + ["CuentaMC=" + OptIntText(inv.cliente.cuentaVersat)]
    + ["[Contrapartidas]"]
    + ["Concepto=107"]
    + ["Importe=" + total]
    + ["{"]
    + ["900011008  |CUP|" + total]
    + ["}"]
  }

  datatype OblFile = OblFile(filename: string, content: string)

  /** The export: a 404 for an unknown invoice, a crash (`strftime` on None)
      for an undated one; otherwise the lines are appended one by one and
      joined with newlines, and the file is named after the invoice. */
  method ExportObl(store: seq<Invoice>, facturaId: nat) returns (r: Result<OblFile>)
    ensures FindInvoice(store, facturaId).None? ==> r == Failure(NotFound)
    ensures FindInvoice(store, facturaId).Some? && store[FindInvoice(store, facturaId).value].fecha.None? ==>
              r == Failure(NoDate)
    ensures r.Success? <==> FindInvoice(store, facturaId).Some? && store[FindInvoice(store, facturaId).value].fecha.Some?
    ensures r.Success? ==>
              var inv := store[FindInvoice(store, facturaId).value];
              r.value.filename == inv.numero + ".obl" &&
              r.value.content == Join(OblLines(inv, TotalText(inv.items), DateText(inv.fecha.value)), '\n')
  {
    var k := FindInvoice(store, facturaId);
    if k.None? {
      return Failure(NotFound);
    }
    var inv := store[k.value];
    var total := TotalText(inv.items);
    var lines: seq<string> := [];
    lines := lines + ["[Obligacion]"];
    lines := lines + ["Concepto=Obligacion por Factura Emitida"];
    lines := lines + ["Tipo={7DE34F15-C9BA-4FE0-AEE6-B5E85ADB84DC}"];
    lines := lines + ["Unidad=" + OptText(inv.area.centroCosto)];
    lines := lines + ["Entidad=" + OptText(inv.cliente.clienteVersat)];
    lines := lines + ["Numero=" + inv.numero];
    if inv.fecha.None? {
      return Failure(NoDate);
    }
    lines := lines + ["Fechaemi=" + DateText(inv.fecha.value)];
    lines := lines + ["Descripcion=" + inv.area.nombre];
    lines := lines + ["Fecharec="];
    lines := lines + ["ImporteMC=" + total];
    lines := lines + ["CuentaMC=" + OptIntText(inv.cliente.cuentaVersat)];
    lines := lines + ["[Contrapartidas]"];
    lines := lines + ["Concepto=107"];
    lines := lines + ["Importe=" + total];
    lines := lines + ["{"];
    lines := lines + ["900011008  |CUP|" + total];
    lines := lines + ["}"];
    assert lines == OblLines(inv, total, DateText(inv.fecha.value));
    r := Success(OblFile(inv.numero + ".obl", Join(lines, '\n')));
  }

  /** The value of a `key=value` line, if the line has that key. */
  function ValueOf(line: string, key: string): (v: Option<string>)
    ensures v.Some? ==> line == key + "=" + v.value
  {
    var p := key + "=";
    if |line| >= |p| && line[..|p|] == p then
      assert line == p + line[|p|..];
      Some(line[|p|..])
    else None
  }

  /** A line written as `key=value` reads back as that value. */
  lemma ValueOfWritten(key: string, value: string)
    ensures ValueOf(key + "=" + value, key) == Some(value)
  {
    var line := key + "=" + value;
    assert line[..|key + "="|] == key + "=";
    assert line[|key + "="|..] == value;
  }

  /** The free-text fields an invoice contributes to the file. */
  predicate SingleLineFields(inv: Invoice)
  {
    '\n' !in inv.numero && '\n' !in inv.area.nombre &&
    '\n' !in OptText(inv.area.centroCosto) && '\n' !in OptText(inv.cliente.clienteVersat) &&
    '\n' !in OptIntText(inv.cliente.cuentaVersat)
  }

  /** None of the fixed texts of the file holds a newline. */
  lemma HeaderTextsSingleLine()
    ensures '\n' !in "[Obligacion]" && '\n' !in "Concepto=Obligacion por Factura Emitida"
  {
  }

  lemma TypeTextSingleLine()
    ensures '\n' !in "Tipo={7DE34F15-C9BA-4FE0-AEE6-B5E85ADB84DC}"
  {
  }

  lemma KeyTextsSingleLine()
    ensures '\n' !in "Unidad=" && '\n' !in "Entidad=" && '\n' !in "Numero=" && '\n' !in "Fechaemi="
    ensures '\n' !in "Descripcion=" && '\n' !in "Fecharec=" && '\n' !in "ImporteMC=" && '\n' !in "CuentaMC="
  {
  }

  lemma CounterpartTextsSingleLine()
    ensures '\n' !in "[Contrapartidas]" && '\n' !in "Concepto=107" && '\n' !in "Importe="
    ensures '\n' !in "{" && '\n' !in "900011008  |CUP|" && '\n' !in "}"
  {
  }

  /** No line of the file holds a newline when the fields it is built from
      hold none. */
  lemma OblLinesSingleLine(inv: Invoice, total: string, fecha: string)
    requires SingleLineFields(inv) && '\n' !in total && '\n' !in fecha
    ensures forall line :: line in OblLines(inv, total, fecha) ==> '\n' !in line
  {
    HeaderTextsSingleLine();
    TypeTextSingleLine();
    KeyTextsSingleLine();
    CounterpartTextsSingleLine();
  }

  /** The keyed lines of the file read back as the values written. */
  lemma OblLinesFields(inv: Invoice, total: string, fecha: string)
    ensures
      var lines := OblLines(inv, total, fecha);
      lines[0] == "[Obligacion]" && lines[11] == "[Contrapartidas]" &&
      ValueOf(lines[3], "Unidad") == Some(OptText(inv.area.centroCosto)) &&
      ValueOf(lines[5], "Numero") == Some(inv.numero) &&
      ValueOf(lines[6], "Fechaemi") == Some(fecha) &&
      ValueOf(lines[9], "ImporteMC") == Some(total) &&
      ValueOf(lines[13], "Importe") == Some(total) &&
      lines[15] == "900011008  |CUP|" + total
  {
    ValueOfWritten("Unidad", OptText(inv.area.centroCosto));
    ValueOfWritten("Numero", inv.numero);
    ValueOfWritten("Fechaemi", fecha);
    ValueOfWritten("ImporteMC", total);
    ValueOfWritten("Importe", total);
  }

  /** Reading the file back: when no free-text field holds a newline, the
      content splits into exactly the seventeen lines, from which the number,
      the date and the copies of the total are read off; the date splits
      into its zero-padded parts and, for an invoice with items, the total
      parses back into the sum of the item amounts. */
  lemma ExportReadsBack(inv: Invoice, d: Date)
    requires inv.fecha == Some(d)
    requires 1 <= d.day <= 31 && ValidMonth(d.month) && d.year <= 9999
    requires SingleLineFields(inv)
    ensures
      var lines := OblLines(inv, TotalText(inv.items), DateText(d));
      Split(Join(lines, '\n'), '\n') == lines &&
      ValueOf(lines[5], "Numero") == Some(inv.numero) &&
      ValueOf(lines[6], "Fechaemi") == Some(DateText(d)) &&
      ValueOf(lines[9], "ImporteMC") == Some(TotalText(inv.items)) &&
      ValueOf(lines[13], "Importe") == Some(TotalText(inv.items)) &&
      Split(DateText(d), '/') == [Padded(d.day, 2), Padded(d.month, 2), Padded(d.year, 4)] &&
      (inv.items != [] ==> ParseMoney(TotalText(inv.items)) == Some(Total(inv.items)))
  {
    var total := TotalText(inv.items);
    var lines := OblLines(inv, total, DateText(d));
    DateTextReadsBack(d);
    assert '\n' !in total by {
      if inv.items != [] { assert total == MoneyText(Total(inv.items)); }
    }
    OblLinesSingleLine(inv, total, DateText(d));
    assert forall i :: 0 <= i < |lines| ==> '\n' !in lines[i] by {
      forall i | 0 <= i < |lines| ensures '\n' !in lines[i] {
        assert lines[i] in lines;
      }
    }
    SplitJoinRoundTrip(lines, '\n');
    OblLinesFields(inv, total, DateText(d));
  }

  /** A concrete export: an invoice of one item of 3 at 500.00, with no cost
      centre, dated 5 March 2025. */
  lemma ExampleExport()
    ensures
      var inv := Invoice(7, "2025-0003", Some(Date(2025, 3, 5)), Area(1, "Ventas", None),
                         Client(2, "Cliente", Some("C-01"), Some(1010)), None, Status(2, "FIRMADA"), 1,
                         [Line(1, 4, 3, 50000, 150000)]);
      var lines := OblLines(inv, TotalText(inv.items), DateText(inv.fecha.value));
      ValueOf(lines[3], "Unidad") == Some("None") &&
      ValueOf(lines[6], "Fechaemi") == Some("05/03/2025") &&
      ValueOf(lines[9], "ImporteMC") == Some("1500.00")
  {
    var inv := Invoice(7, "2025-0003", Some(Date(2025, 3, 5)), Area(1, "Ventas", None),
                       Client(2, "Cliente", Some("C-01"), Some(1010)), None, Status(2, "FIRMADA"), 1,
                       [Line(1, 4, 3, 50000, 150000)]);
    ExampleTotal();
    ExampleDate();
    OblLinesFields(inv, TotalText(inv.items), DateText(inv.fecha.value));
  }

  lemma ExampleTotal()
    ensures TotalText([Line(1, 4, 3, 50000, 150000)]) == "1500.00"
  {
    var items := [Line(1, 4, 3, 50000, 150000)];
    assert items[..0] == [];
    assert Total(items) == 150000;
    ExampleDigits();
  }

  lemma ExampleDigits()
    ensures NatToString(1500) == "1500" && Padded(0, 2) == "00"
  {
    assert NatToString(15) == "15";
    assert NatToString(150) == "150";
  }

  lemma ExampleDate()
    ensures DateText(Date(2025, 3, 5)) == "05/03/2025"
  {
    assert Padded(5, 2) == "05" && Padded(3, 2) == "03";
    assert NatToString(2025) == "2025";
  }
}
