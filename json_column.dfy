/**
 * packages/node_lib/src/columns/json.ts: `JSONColumn`, the column options for
 * a model field stored as JSON text. `prepare` turns the field's value into
 * the stored text, `consume` turns the stored text back into a value, and a
 * falsy value is stored and read back as null. The default serializer
 * (`JSON.stringify` / `JSON.parse`) is a parameter: its internals are not
 * part of this model.
 */
module JsonColumn {
  import opened Wrappers

  /** A JavaScript value as a column may hold it. */
  datatype Value =
    | Undefined
    | Null
    | Bool(b: bool)
    | Number(n: int)
    | NaN
    | Str(s: string)
    | Arr(items: seq<Value>)
    | Obj(fields: map<string, Value>)

  /** JavaScript falsiness: `undefined`, `null`, `false`, `0`, `NaN` and the empty string. */
  predicate Falsy(v: Value)
  {
    v == Undefined || v == Null || v == Bool(false) || v == Number(0) || v == NaN || v == Str("")
  }

  /** What the database holds: null, or the stored text. */
  type Stored = Option<string>

  /** A custom serializer; either half may be missing, and the default then takes its place. */
  datatype Serializer = Serializer(serialize: Option<Value -> string>, deserialize: Option<string -> Value>)

  /**
   * Column options: the two hooks, the custom serializer (only on input) and
   * every other option, by name.
   */
  datatype ColumnOptions = ColumnOptions(
    prepare: Option<Value -> Stored>,
    consume: Option<Stored -> Value>,
    serializer: Option<Serializer>,
    others: map<string, string>)

  /** The `prepare` hook over a chosen `serialize`. */
  function Prepare(serialize: Value -> string, v: Value): (r: Stored)
    ensures Falsy(v) ==> r.None?
    ensures !Falsy(v) ==> r == Some(serialize(v))
  {
    if Falsy(v) then None else Some(serialize(v))
  }

  /** The `consume` hook over a chosen `deserialize`; the empty text is falsy. */
  function Consume(deserialize: string -> Value, stored: Stored): (r: Value)
    ensures stored.None? || stored == Some("") ==> r == Null
    ensures stored.Some? && stored.value != "" ==> r == deserialize(stored.value)
  {
    match stored
    case None => Null
    case Some(text) => if text == "" then Null else deserialize(text)
  }

  /** The serialize function in use: the custom one when given, `stringify` otherwise. */
  function SerializeOf(options: Option<ColumnOptions>, stringify: Value -> string): Value -> string
  {
    if options.Some? && options.value.serializer.Some? && options.value.serializer.value.serialize.Some?
    then options.value.serializer.value.serialize.value
    else stringify
  }

  /** The deserialize function in use: the custom one when given, `parse` otherwise. */
  function DeserializeOf(options: Option<ColumnOptions>, parse: string -> Value): string -> Value
  {
    if options.Some? && options.value.serializer.Some? && options.value.serializer.value.deserialize.Some?
    then options.value.serializer.value.deserialize.value
    else parse
  }

  /**
   * `JSONColumn(options)`: the two hooks over the serializer in use, with the
   * remaining options spread over them, so a `prepare` or `consume` given in
   * the options replaces the built-in one. The serializer is not passed on.
   */
  function JSONColumn(options: Option<ColumnOptions>, stringify: Value -> string, parse: string -> Value): (r: ColumnOptions)
    ensures r.prepare.Some? && r.consume.Some? && r.serializer.None?
    ensures r.others == (if options.Some? then options.value.others else map[])
    ensures options.Some? && options.value.prepare.Some? ==> r.prepare == options.value.prepare
    ensures options.Some? && options.value.consume.Some? ==> r.consume == options.value.consume
    ensures (options.None? || options.value.prepare.None?) ==>
      forall v :: r.prepare.value(v) == Prepare(SerializeOf(options, stringify), v)
    ensures (options.None? || options.value.consume.None?) ==>
      forall s :: r.consume.value(s) == Consume(DeserializeOf(options, parse), s)
  {
    var serialize := SerializeOf(options, stringify);
    var deserialize := DeserializeOf(options, parse);
    var rest := options.GetOr(ColumnOptions(None, None, None, map[]));
    ColumnOptions(
      if rest.prepare.Some? then rest.prepare else Some(v => Prepare(serialize, v)),
      if rest.consume.Some? then rest.consume else Some(s => Consume(deserialize, s)),
      None,
      rest.others)
  }

  /** A serializer pair that round-trips `v` through non-empty text. */
  ghost predicate RoundTrips(serialize: Value -> string, deserialize: string -> Value, v: Value)
  {
    serialize(v) != "" && deserialize(serialize(v)) == v
  }

  /**
   * Writing and then reading a field through the built-in hooks gives back
   * a truthy value the serializer round-trips, and null for every falsy one.
   */
  lemma StoredAndRead(options: Option<ColumnOptions>, stringify: Value -> string, parse: string -> Value, v: Value)
    requires options.None? || (options.value.prepare.None? && options.value.consume.None?)
    requires !Falsy(v) ==> RoundTrips(SerializeOf(options, stringify), DeserializeOf(options, parse), v)
    ensures var column := JSONColumn(options, stringify, parse);
      column.consume.value(column.prepare.value(v)) == (if Falsy(v) then Null else v)
  {
  }

  /** Without a custom serializer, the hooks call `stringify` and `parse`. */
  lemma DefaultsAreJson(options: Option<ColumnOptions>, stringify: Value -> string, parse: string -> Value, v: Value, text: string)
    requires options.None? || (options.value.serializer.None? && options.value.prepare.None? && options.value.consume.None?)
    requires !Falsy(v) && text != ""
    ensures JSONColumn(options, stringify, parse).prepare.value(v) == Some(stringify(v))
    ensures JSONColumn(options, stringify, parse).consume.value(Some(text)) == parse(text)
  {
  }

  /** Whatever the serializer, `prepare` never stores the text of a falsy value, and reads of null give null. */
  lemma FalsyIsNull(options: Option<ColumnOptions>, stringify: Value -> string, parse: string -> Value, v: Value)
    requires options.None? || (options.value.prepare.None? && options.value.consume.None?)
    requires Falsy(v)
    ensures JSONColumn(options, stringify, parse).prepare.value(v).None?
    ensures JSONColumn(options, stringify, parse).consume.value(None) == Null
  {
  }
}
