/**
 * Shared vocabulary of the billing model: optional values, results of
 * operations that the application can reject, calendar dates and the
 * reference records (sales areas, clients, activities, invoice states)
 * that invoices, offers and plans point to.
 *
 * Money is always an integer number of cents: every amount in the
 * application is a decimal with two places, so products and sums of
 * amounts stay exact.
 */
module Common {

  datatype Option<T> = None | Some(value: T)

  /** Why an operation was refused or aborted.  Each operation's comment says
      which of these the application turns into a flash message and which
      end the request with a server error. */
  datatype Error =
    | NotFound              // a lookup by id found nothing (DoesNotExist / 404)
    | MissingInput          // a required request parameter was absent: nothing is done
    | NotAnInteger          // int(...) of a request parameter failed
    | NegativeQuantity      // the PositiveIntegerField constraint on a quantity
    | ActivityAlreadyPresent// the one-line-per-activity rule of offers
    | DuplicateNumber       // the unique constraint on invoice / offer numbers
    | MalformedNumber       // the stored number could not be parsed back
    | InvalidAmount         // a plan amount below 0 or beyond the decimal field
    | UnknownMonth          // a month outside the 1..12 choices
    | DuplicatePlan(message: string) // the plan registry's uniqueness check
    | NoDraft               // the offer draft has no header in the session
    | NoDate                // a date was formatted but the record has none
    | NoForm                // the view reached its render with `form` never bound (UnboundLocalError / 500)

  datatype Result<T> = Success(value: T) | Failure(error: Error)

  /** Outcome of an operation that only changes state or only checks: it
      goes through, it is refused with a message to the user, or it is
      aborted by an exception nothing catches (a server error). */
  datatype Outcome = Pass | Fail(error: Error) | Abort(error: Error)

  /** A calendar date; only the year and month matter to the reports. */
  datatype Date = Date(year: nat, month: nat, day: nat)

  predicate ValidMonth(m: int) { 1 <= m <= 12 }

  /** Spanish month names, as listed in the plan's month choices. */
  function MonthName(m: int): (name: string)
    requires ValidMonth(m)
    ensures |name| > 0
  {
    ["Enero", "Febrero", "Marzo", "Abril", "Mayo", "Junio", "Julio",
     "Agosto", "Septiembre", "Octubre", "Noviembre", "Diciembre"][m - 1]
  }

  /** An integer request parameter before parsing: absent, present but
      empty, present but not an integer, or an integer. */
  datatype IntParam = Missing | Blank | NonInteger | Value(n: int)

  /** Python truthiness of the raw parameter: None and "" are false. */
  predicate Falsy(p: IntParam) { p.Missing? || p.Blank? }

  /** A sales area; `centroCosto` is its optional cost-centre code. */
  datatype Area = Area(id: nat, nombre: string, centroCosto: Option<string>)

  /** The parts of a client the core reads: the external accounting code
      and account number are optional. */
  datatype Client = Client(id: nat, nombre: string, clienteVersat: Option<string>, cuentaVersat: Option<int>)

  /** A catalog activity (`actividad` is its description) with its current
      unit price in cents. */
  datatype Activity = Activity(id: nat, codigo: string, actividad: string, precio: int, activo: bool)

  /** An invoice state, an open set of names such as "FIRMADA" or "NO FIRMADA". */
  datatype Status = Status(id: nat, nombre: string)

  /** `Actividad.objects.get(id=...)`: the activity with that id, if any. */
  function FindActivity(catalog: seq<Activity>, id: nat): (r: Option<Activity>)
    ensures r.Some? ==> r.value in catalog && r.value.id == id
    ensures r.None? ==> forall a :: a in catalog ==> a.id != id
  {
    if catalog == [] then None
    else if catalog[0].id == id then Some(catalog[0])
    else FindActivity(catalog[1..], id)
  }

  /** `Estado.objects.get(id=...)`: the state with that id, if any. */
  function FindStatus(statuses: seq<Status>, id: nat): (r: Option<Status>)
    ensures r.Some? ==> r.value in statuses && r.value.id == id
    ensures r.None? ==> forall s :: s in statuses ==> s.id != id
  {
    if statuses == [] then None
    else if statuses[0].id == id then Some(statuses[0])
    else FindStatus(statuses[1..], id)
  }
}
