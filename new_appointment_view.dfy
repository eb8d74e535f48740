/**
 * appointments/views.py, NewAppointmentView.post: the required-field check,
 * the date and time parse errors, and the computation of the appointment's
 * end. Request data is a map from field names to JSON values; the date and
 * time parsers stand in for strptime on a string (None where it raises
 * ValueError); a date is a day number and a datetime is day·86400 + seconds.
 */
module NewAppointmentView {
  import opened Common
  import AppointmentModels

  const RequiredFields: seq<string> :=
    ["date", "time", "service", "location", "professional", "citizen_id",
     "email", "name", "last_name", "email", "phone"]

  const RequiredMessage: string := "Este campo es requerido."
  const InvalidDateMessage: string := "La fecha seleccionada es inválida."
  const InvalidTimeMessage: string := "La hora seleccionada es inválida."

  type Errors = map<string, seq<string>>

  /** Start and end of the appointment about to be booked. */
  datatype Booking = Booking(start: int, end: int)

  /**
   * How the view ends before the appointment is created: with the booking to
   * create, with status 400 and the recorded errors, or with the TypeError
   * strptime raises for a value that is not a string, which no handler
   * catches (status 500).
   */
  datatype Outcome = Accepted(booking: Booking) | Refused(errors: Errors) | TypeError

  /** `field not in request.data or not request.data[field]`. */
  predicate Missing(data: map<string, Value>, field: string)
  {
    field !in data || !Truthy(data[field])
  }

  /** The field is present and is a string that the parser rejects. */
  predicate Unparsable(data: map<string, Value>, field: string, parse: string -> Option<int>)
  {
    field in data && data[field].Str? && parse(data[field].s).None?
  }

  /** The field is present and is not a string: strptime raises TypeError on it. */
  predicate NotText(data: map<string, Value>, field: string)
  {
    field in data && !data[field].Str?
  }

  /** The "required" message for every required field that is absent or falsy. */
  function RequiredErrors(data: map<string, Value>): Errors
  {
    map f | f in RequiredFields && Missing(data, f) :: [RequiredMessage]
  }

  /** The errors the checks record, in the order the view records them. */
  function ExpectedErrors(data: map<string, Value>, parseDate: string -> Option<int>,
                          parseTime: string -> Option<int>): Errors
  {
    var required := RequiredErrors(data);
    var withDate :=
      if Unparsable(data, "date", parseDate) then required["date" := [InvalidDateMessage]]
      else required;
    if Unparsable(data, "time", parseTime) then withDate["time" := [InvalidTimeMessage]]
    else withDate
  }

  /**
   * The view up to the creation of the appointment: a date or time that is
   * not a string crashes it; otherwise either the errors (status 400) or the
   * start and end of the booking.
   */
  method Post(data: map<string, Value>, parseDate: string -> Option<int>,
              parseTime: string -> Option<int>, serviceDuration: int)
    returns (r: Outcome)
    ensures r.TypeError? <==> NotText(data, "date") || NotText(data, "time")
    ensures r.Refused? <==> !r.TypeError? && ExpectedErrors(data, parseDate, parseTime) != map[]
    ensures r.Refused? ==> r.errors == ExpectedErrors(data, parseDate, parseTime)
    ensures r.Accepted? ==>
              && "date" in data && data["date"].Str? && parseDate(data["date"].s).Some?
              && "time" in data && data["time"].Str? && parseTime(data["time"].s).Some?
              && r.booking.start == parseDate(data["date"].s).value * AppointmentModels.SecondsPerDay
                                    + parseTime(data["time"].s).value
              && r.booking.end == r.booking.start + serviceDuration
  {
    var errors := CheckRequired(data);
    var startDate: Option<int> := None;
    if "date" in data {
      if !data["date"].Str? {
        return TypeError;
      }
      startDate := parseDate(data["date"].s);
      if startDate.None? {
        errors := errors["date" := [InvalidDateMessage]];
      }
    }
    var startTime: Option<int> := None;
    if "time" in data {
      if !data["time"].Str? {
        return TypeError;
      }
      startTime := parseTime(data["time"].s);
      if startTime.None? {
        errors := errors["time" := [InvalidTimeMessage]];
      }
    }

    if errors != map[] {
      return Refused(errors);
    }
    assert "date" !in errors && "time" !in errors;
    var start := startDate.value * AppointmentModels.SecondsPerDay + startTime.value;
    var end := start + serviceDuration;
    r := Accepted(Booking(start, end));
  }

  /** The loop over the required fields: "required" for each absent or falsy one. */
  method CheckRequired(data: map<string, Value>) returns (errors: Errors)
    ensures errors == RequiredErrors(data)
  {
    errors := map[];
    var k := 0;
    while k < |RequiredFields|
      invariant 0 <= k <= |RequiredFields|
      invariant errors == map f | f in RequiredFields[..k] && Missing(data, f) :: [RequiredMessage]
    {
      var field := RequiredFields[k];
      if field !in data || !Truthy(data[field]) {
        errors := errors[field := [RequiredMessage]];
      }
      assert RequiredFields[..k + 1] == RequiredFields[..k] + [field];
      k := k + 1;
    }
    assert RequiredFields[..k] == RequiredFields;
  }

  /**
   * Both directions: a required field gets the "required" message exactly
   * when it is absent or empty, unless a failed parse of that same field
   * replaced the message.
   */
  lemma RequiredFieldErrors(data: map<string, Value>, parseDate: string -> Option<int>,
                            parseTime: string -> Option<int>, f: string)
    requires f in RequiredFields && f != "date" && f != "time"
    ensures f in ExpectedErrors(data, parseDate, parseTime) <==> Missing(data, f)
    ensures f in ExpectedErrors(data, parseDate, parseTime) ==>
              ExpectedErrors(data, parseDate, parseTime)[f] == [RequiredMessage]
  {
  }

  /**
   * The date and the time are reported when absent, empty or unparsable; a
   * failed parse wins over the "required" message.
   */
  lemma DateAndTimeErrors(data: map<string, Value>, parseDate: string -> Option<int>,
                          parseTime: string -> Option<int>)
    ensures var e := ExpectedErrors(data, parseDate, parseTime);
            && ("date" in e <==> Missing(data, "date") || Unparsable(data, "date", parseDate))
            && ("time" in e <==> Missing(data, "time") || Unparsable(data, "time", parseTime))
            && ("date" in e ==> e["date"] == if Unparsable(data, "date", parseDate)
                                             then [InvalidDateMessage] else [RequiredMessage])
            && ("time" in e ==> e["time"] == if Unparsable(data, "time", parseTime)
                                             then [InvalidTimeMessage] else [RequiredMessage])
  {
    assert RequiredFields[0] == "date" && RequiredFields[1] == "time";
  }

  /**
   * An empty date is both missing and unparsable: the parse error, recorded
   * second, replaces the "required" message.
   */
  lemma EmptyDateReportsInvalid(data: map<string, Value>, parseDate: string -> Option<int>,
                                parseTime: string -> Option<int>)
    requires "date" in data && data["date"] == Str("") && parseDate("").None?
    ensures ExpectedErrors(data, parseDate, parseTime)["date"] == [InvalidDateMessage]
  {
  }

  /** A request with every field present, non-empty and parsable is accepted. */
  lemma CompleteRequestAccepted(data: map<string, Value>, parseDate: string -> Option<int>,
                                parseTime: string -> Option<int>)
    requires forall f :: f in RequiredFields ==> !Missing(data, f)
    requires "date" in data && data["date"].Str? && parseDate(data["date"].s).Some?
    requires "time" in data && data["time"].Str? && parseTime(data["time"].s).Some?
    ensures !NotText(data, "date") && !NotText(data, "time")
    ensures ExpectedErrors(data, parseDate, parseTime) == map[]
  {
    assert RequiredErrors(data).Keys == {};
  }
}
