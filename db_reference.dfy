/**
 * packages/node_lib/src/db_reference.ts: `DBReference.create`, which turns a
 * table structure into one accessor object per table. An accessor holds the
 * `table` entry (name, qualified-column function, pivot options), then every
 * column key with its column name, then every alias `<key>C` with the key
 * itself; a later entry of the same name replaces an earlier one, as object
 * spreading does. Objects are maps from property name to value; the runtime
 * shape check of the structure is a type here.
 */
module DbReference {
  import opened Wrappers

  /** Pivot options, by option name. */
  type PivotOptions = map<string, string>

  /** One table of the structure: its SQL name, optional pivot options, and columns by key. */
  datatype TableEntry = TableEntry(name: string, pivot: Option<PivotOptions>, columns: map<string, string>)

  /**
   * The `table` entry of an accessor: the name, the columns function with the
   * direct column properties attached to it, and the configured pivot.
   */
  datatype TableMeta = TableMeta(name: string, columnProperties: map<string, string>, configuredPivot: Option<PivotOptions>, rawColumns: map<string, string>)

  /** A property of an accessor: the `table` entry or a string. */
  datatype Property = Meta(meta: TableMeta) | Text(value: string)

  type Accessor = map<string, Property>

  /** `table.columns(k)`: the column's name qualified by the table's name. */
  function Qualified(meta: TableMeta, columnKey: string): (r: string)
    requires columnKey in meta.rawColumns
    ensures |r| == |meta.name| + 1 + |meta.rawColumns[columnKey]|
    ensures r[..|meta.name|] == meta.name && r[|meta.name|] == '.'
    ensures r[|meta.name| + 1..] == meta.rawColumns[columnKey]
  {
    meta.name + "." + meta.rawColumns[columnKey]
  }

  /**
   * `table.pivot(customOptions)`: nothing when neither a configured pivot nor
   * custom options exist; otherwise the custom options spread over the
   * configured ones.
   */
  function Pivot(meta: TableMeta, custom: Option<PivotOptions>): (r: Option<PivotOptions>)
    ensures r.None? <==> meta.configuredPivot.None? && custom.None?
    ensures r.Some? ==> r.value.Keys == meta.configuredPivot.GetOr(map[]).Keys + custom.GetOr(map[]).Keys
    ensures r.Some? && custom.Some? ==> forall k :: k in custom.value ==> r.value[k] == custom.value[k]
    ensures r.Some? && meta.configuredPivot.Some? ==>
      forall k :: k in meta.configuredPivot.value && k !in custom.GetOr(map[]) ==> r.value[k] == meta.configuredPivot.value[k]
  {
    if meta.configuredPivot.None? && custom.None? then None
    else Some(meta.configuredPivot.GetOr(map[]) + custom.GetOr(map[]))
  }

  /** The alias names `<key>C` of a set of column keys. */
  function AliasNames(keys: set<string>): set<string>
  {
    set k | k in keys :: k + "C"
  }

  function MetaOf(entry: TableEntry): TableMeta
  {
    TableMeta(entry.name, entry.columns, entry.pivot, entry.columns)
  }

  /**
   * What reading property `p` of a table's accessor gives: an alias wins
   * over a column key, and a column key wins over `table`.
   */
  function Lookup(entry: TableEntry, p: string): (r: Option<Property>)
    ensures r.None? <==> p !in AliasNames(entry.columns.Keys) && p !in entry.columns && p != "table"
  {
    if p in AliasNames(entry.columns.Keys) then Some(Text(p[..|p| - 1]))
    else if p in entry.columns then Some(Text(entry.columns[p]))
    else if p == "table" then Some(Meta(MetaOf(entry)))
    else None
  }

  /** `acc` is the accessor of `entry`: it has exactly the properties `Lookup` gives, with those values. */
  ghost predicate Describes(acc: Accessor, entry: TableEntry)
  {
    forall p :: (p in acc <==> Lookup(entry, p).Some?) && (p in acc ==> acc[p] == Lookup(entry, p).value)
  }

  /** The loop attaching each column key to the columns function as a property. */
  method AttachColumnProperties(rawColumns: map<string, string>) returns (props: map<string, string>)
    ensures props == rawColumns
  {
    props := map[];
    var remaining := rawColumns.Keys;
    while remaining != {}
      invariant remaining <= rawColumns.Keys
      invariant props.Keys == rawColumns.Keys - remaining
      invariant forall k :: k in props ==> props[k] == rawColumns[k]
      decreases remaining
    {
      var k :| k in remaining;
      props := props[k := rawColumns[k]];
      remaining := remaining - {k};
    }
  }

  /** The `reduce` building `{ <key>C: <key> }` for every column key. */
  method ColumnAliases(rawColumns: map<string, string>) returns (aliases: map<string, string>)
    ensures aliases.Keys == AliasNames(rawColumns.Keys)
    ensures forall k :: k in rawColumns ==> aliases[k + "C"] == k
  {
    aliases := map[];
    var remaining := rawColumns.Keys;
    while remaining != {}
      invariant remaining <= rawColumns.Keys
      invariant aliases.Keys == AliasNames(rawColumns.Keys - remaining)
      invariant forall k :: k in rawColumns.Keys - remaining ==> aliases[k + "C"] == k
      decreases remaining
    {
      var k :| k in remaining;
      forall j | j in rawColumns.Keys - remaining
        ensures j + "C" != k + "C"
      {
        if j + "C" == k + "C" {
          AliasNameInjective(j, k);
        }
      }
      aliases := aliases[k + "C" := k];
      remaining := remaining - {k};
    }
  }

  /** Every entry of a string map as a `Text` property. */
  function Texts(m: map<string, string>): (r: Accessor)
    ensures r.Keys == m.Keys && forall k :: k in m ==> r[k] == Text(m[k])
  {
    map k | k in m :: Text(m[k])
  }

  /**
   * The accessor of one table: the `table` entry, then the raw columns,
   * then the aliases spread over it.
   */
  method TableAccessor(entry: TableEntry) returns (acc: Accessor)
    ensures Describes(acc, entry)
  {
    var props := AttachColumnProperties(entry.columns);
    var meta := TableMeta(entry.name, props, entry.pivot, entry.columns);
    var aliases := ColumnAliases(entry.columns);
    acc := map["table" := Meta(meta)] + Texts(entry.columns) + Texts(aliases);
    SpreadDescribes(entry, aliases);
  }

  /** Spreading the columns and their aliases over the `table` entry gives the accessor `Lookup` describes. */
  lemma SpreadDescribes(entry: TableEntry, aliases: map<string, string>)
    requires aliases.Keys == AliasNames(entry.columns.Keys)
    requires forall k :: k in entry.columns ==> aliases[k + "C"] == k
    ensures Describes(map["table" := Meta(MetaOf(entry))] + Texts(entry.columns) + Texts(aliases), entry)
  {
    var acc := map["table" := Meta(MetaOf(entry))] + Texts(entry.columns) + Texts(aliases);
    forall p | p in aliases
      ensures acc[p] == Lookup(entry, p).value
    {
      var k :| k in entry.columns && p == k + "C";
      assert p[..|p| - 1] == k;
    }
  }

  /** `DBReference.create`: one accessor per table key of the structure. */
  method Create(structure: map<string, TableEntry>) returns (reference: map<string, Accessor>)
    ensures reference.Keys == structure.Keys
    ensures forall t :: t in structure ==> Describes(reference[t], structure[t])
  {
    reference := map[];
    var remaining := structure.Keys;
    while remaining != {}
      invariant remaining <= structure.Keys
      invariant reference.Keys == structure.Keys - remaining
      invariant forall t :: t in reference ==> Describes(reference[t], structure[t])
      decreases remaining
    {
      var t :| t in remaining;
      var acc := TableAccessor(structure[t]);
      reference := reference[t := acc];
      remaining := remaining - {t};
    }
  }

  /** Two keys with the same alias name are the same key. */
  lemma AliasNameInjective(a: string, b: string)
    requires a + "C" == b + "C"
    ensures a == b
  {
    assert a == (a + "C")[..|a|];
  }

  /** An alias reads back as its column key. */
  lemma AliasReadsKey(entry: TableEntry, acc: Accessor, k: string)
    requires Describes(acc, entry) && k in entry.columns
    ensures k + "C" in acc && acc[k + "C"] == Text(k)
  {
    assert Lookup(entry, k + "C").Some?;
    assert (k + "C")[..|k + "C"| - 1] == k;
  }

  /** A column key reads back as its column name unless it is itself the alias of another key. */
  lemma ColumnReadsName(entry: TableEntry, acc: Accessor, k: string)
    requires Describes(acc, entry) && k in entry.columns && k !in AliasNames(entry.columns.Keys)
    ensures k in acc && acc[k] == Text(entry.columns[k])
  {
    assert Lookup(entry, k).Some?;
  }

  /** `table` gives the table's name, columns and pivot unless a column or alias is named `table`. */
  lemma TableEntryReadsMeta(entry: TableEntry, acc: Accessor)
    requires Describes(acc, entry)
    requires "table" !in entry.columns && "table" !in AliasNames(entry.columns.Keys)
    ensures "table" in acc && acc["table"].Meta?
    ensures acc["table"].meta.name == entry.name && acc["table"].meta.configuredPivot == entry.pivot
    ensures forall k :: k in entry.columns ==> Qualified(acc["table"].meta, k) == entry.name + "." + entry.columns[k]
  {
    assert Lookup(entry, "table").Some?;
  }

  /**
   * A column key that is another key's alias is shadowed: when both `k` and
   * `k + "C"` are column keys, reading `k + "C"` gives `k`, not its column name.
   */
  lemma AliasShadowsColumn(acc: Accessor, entry: TableEntry, k: string)
    requires Describes(acc, entry)
    requires k in entry.columns && k + "C" in entry.columns
    ensures k + "C" in acc && acc[k + "C"] == Text(k)
  {
    assert k + "C" in AliasNames(entry.columns.Keys);
    assert (k + "C")[..|k|] == k;
    assert Lookup(entry, k + "C").Some?;
  }
}
