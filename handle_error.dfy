/**
 * packages/ui/src/lib/handle_error.ts: the client routes an error response
 * either to form fields or to notifications. The side effects (`setFieldError`,
 * `notifications.show`, the `onErrorData` callback) are recorded, in order,
 * as a list of effects.
 */
module HandleError {
  import opened Wrappers
  import opened HttpException

  predicate StartsWith(s: string, prefix: string)
  {
    |prefix| <= |s| && s[..|prefix|] == prefix
  }

  /** The form path of a server-side field name. */
  function ParseField(field: string): (path: string)
    ensures StartsWith(field, "params") ==> path == field
    ensures !StartsWith(field, "params") ==> path == "payload." + field
  {
    if StartsWith(field, "params") then field else "payload." + field
  }

  /** Distinct server fields land on distinct form paths. */
  lemma ParseFieldInjective(f: string, g: string)
    requires ParseField(f) == ParseField(g)
    ensures f == g
  {
    PayloadIsNotParams(f);
    PayloadIsNotParams(g);
    if !StartsWith(f, "params") && !StartsWith(g, "params") {
      assert f == ("payload." + f)[8..] == ("payload." + g)[8..] == g;
    }
  }

  lemma PayloadIsNotParams(f: string)
    ensures !StartsWith("payload." + f, "params")
  {
    assert ("payload." + f)[2] == 'y';
  }

  /** `metadata` of an error response: a record or a list of validation errors. */
  datatype ErrorMetadata = Record(entries: map<string, string>) | Entries(errors: seq<ValidationError>)

  /** A response body that passed the shape check. */
  datatype ErrorData = ErrorData(
    id: string,
    status: int,
    code: Option<string>,
    message: string,
    help: Option<string>,
    metadata: Option<ErrorMetadata>,
    source: Option<string>)

  /** What was caught: an HTTP error whose body may or may not have the expected shape, or anything else. */
  datatype Caught = HttpError(data: Option<ErrorData>) | OtherError

  datatype Effect =
    | Notification(title: string, message: string, red: bool)
    | FieldError(path: string, message: string)
    | ErrorDataCallback(data: ErrorData)

  /**
   * The form, when one is passed: the names whose values are defined.
   * `formValues[name] !== undefined` is `name in fields`.
   */
  type Form = Option<set<string>>

  predicate HasField(form: Form, name: string)
  {
    form.Some? && name in form.value
  }

  /** The effect of one validation entry. */
  function RouteEntry(entry: ValidationError, form: Form): (e: Effect)
    ensures e.FieldError? <==> entry.field != "" && HasField(form, entry.field)
    ensures e.FieldError? ==> e == FieldError(ParseField(entry.field), entry.message)
    ensures e.Notification? ==> e == Notification(entry.field, entry.message, false)
  {
    if form.Some? && entry.field != "" && entry.field in form.value then
      FieldError(ParseField(entry.field), entry.message)
    else
      Notification(entry.field, entry.message, false)
  }

  /** The effects of a list of validation entries, one per entry, in order. */
  function RouteEntries(errors: seq<ValidationError>, form: Form): (r: seq<Effect>)
    ensures |r| == |errors|
    ensures forall i :: 0 <= i < |errors| ==> r[i] == RouteEntry(errors[i], form)
  {
    if errors == [] then [] else RouteEntries(errors[..|errors| - 1], form) + [RouteEntry(errors[|errors| - 1], form)]
  }

  /** The effect of a response with no list metadata. */
  function RouteMessage(data: ErrorData, form: Form): (e: Effect)
    ensures e.FieldError? <==> data.source.Some? && data.source.value != "" && HasField(form, data.source.value)
    ensures e.FieldError? ==> e == FieldError(ParseField(data.source.value), data.message)
    ensures data.source.None? || data.source == Some("") ==> e == Notification("Error", data.message, true)
  {
    if data.source.Some? && data.source.value != "" then
      if HasField(form, data.source.value) then FieldError(ParseField(data.source.value), data.message)
      else Notification(data.source.value, data.message, false)
    else
      Notification("Error", data.message, true)
  }

  const UnknownError := Notification("Error", "An unknown error occurred", true)
  const InvalidResponse := Notification("Error", "Response from the server was not valid", true)

  /** The full sequence of effects `handleError` produces. */
  function Routing(error: Caught, form: Form, hasCallback: bool): seq<Effect>
  {
    match error
    case OtherError => [UnknownError]
    case HttpError(None) => [InvalidResponse]
    case HttpError(Some(data)) =>
      var callback := if hasCallback then [ErrorDataCallback(data)] else [];
      match data.metadata
      case Some(Entries(errors)) =>
        callback + RouteEntries(errors, form)
      case _ => callback + [RouteMessage(data, form)]
  }

  /** `handleError`, one effect at a time, as the source's loop does. */
  method Handle(error: Caught, form: Form, hasCallback: bool) returns (effects: seq<Effect>)
    ensures effects == Routing(error, form, hasCallback)
  {
    if error.OtherError? {
      return [UnknownError];
    }
    if error.data.None? {
      return [InvalidResponse];
    }
    var data := error.data.value;
    effects := [];
    if hasCallback {
      effects := effects + [ErrorDataCallback(data)];
    }
    if data.metadata.Some? && data.metadata.value.Entries? {
      var routed := RouteEach(data.metadata.value.errors, form);
      effects := effects + routed;
      EntriesLayout(data, form, hasCallback);
    } else if data.source.Some? && data.source.value != "" {
      if form.Some? && data.source.value in form.value {
        effects := effects + [FieldError(ParseField(data.source.value), data.message)];
      } else {
        effects := effects + [Notification(data.source.value, data.message, false)];
      }
    } else {
      effects := effects + [Notification("Error", data.message, true)];
    }
  }

  /** The loop over the validation entries: one effect per entry, in order. */
  method RouteEach(errors: seq<ValidationError>, form: Form) returns (effects: seq<Effect>)
    ensures effects == RouteEntries(errors, form)
  {
    effects := [];
    for i := 0 to |errors|
      invariant effects == RouteEntries(errors[..i], form)
    {
      assert errors[..i + 1][..i] == errors[..i];
      var entry := errors[i];
      if form.Some? && entry.field != "" && entry.field in form.value {
        effects := effects + [FieldError(ParseField(entry.field), entry.message)];
      } else {
        effects := effects + [Notification(entry.field, entry.message, false)];
      }
    }
    assert errors[..|errors|] == errors;
  }

  /** With list metadata, the routing is the optional callback followed by the entries' effects. */
  lemma EntriesLayout(data: ErrorData, form: Form, hasCallback: bool)
    requires data.metadata.Some? && data.metadata.value.Entries?
    ensures Routing(HttpError(Some(data)), form, hasCallback) ==
      (if hasCallback then [ErrorDataCallback(data)] else []) + RouteEntries(data.metadata.value.errors, form)
  {
  }

  /** Anything that is not an HTTP error gives exactly one generic notification. */
  lemma OtherErrorNotifiesOnce(form: Form, hasCallback: bool)
    ensures Routing(OtherError, form, hasCallback) == [Notification("Error", "An unknown error occurred", true)]
  {
  }

  /** A body of the wrong shape gives only the "not valid" notification, and no callback. */
  lemma InvalidShapeNotifiesOnce(form: Form, hasCallback: bool)
    ensures Routing(HttpError(None), form, hasCallback) == [Notification("Error", "Response from the server was not valid", true)]
  {
  }

  /** The callback comes before every other effect, and is the only callback. */
  lemma CallbackFirst(data: ErrorData, form: Form)
    ensures var r := Routing(HttpError(Some(data)), form, true);
      |r| >= 1 && r[0] == ErrorDataCallback(data) &&
      forall i :: 1 <= i < |r| ==> !r[i].ErrorDataCallback?
  {
  }

  /** List metadata: entry `i` yields effect `i` (after the callback), a field error exactly when the form has the field. */
  lemma EntriesRouting(data: ErrorData, form: Form, hasCallback: bool, i: int)
    requires data.metadata.Some? && data.metadata.value.Entries?
    requires 0 <= i < |data.metadata.value.errors|
    ensures var r := Routing(HttpError(Some(data)), form, hasCallback);
      var k := if hasCallback then 1 else 0;
      var entry := data.metadata.value.errors[i];
      |r| == k + |data.metadata.value.errors| &&
      (r[k + i].FieldError? <==> entry.field != "" && HasField(form, entry.field)) &&
      r[k + i].message == entry.message
  {
    EntriesLayout(data, form, hasCallback);
  }

  /** An empty error list is still list metadata: nothing is shown besides the callback. */
  lemma EmptyEntriesShowNothing(data: ErrorData, form: Form, hasCallback: bool)
    requires data.metadata == Some(Entries([]))
    ensures forall e :: e in Routing(HttpError(Some(data)), form, hasCallback) ==> e.ErrorDataCallback?
  {
  }

  /** Without a form, no field error is ever set. */
  lemma NoFormNoFieldError(error: Caught, hasCallback: bool)
    ensures forall e :: e in Routing(error, None, hasCallback) ==> !e.FieldError?
  {
  }
}
