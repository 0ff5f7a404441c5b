/**
 * packages/node_lib/src/base_transformer.ts: the `pick` and `omit` helpers
 * transformers use to shape a model's fields for a response. An object is a
 * map from property name to value; the list of keys may repeat a key.
 */
module BaseTransformer {

  /** The keys `pick` keeps: requested and present in the source. */
  function Picked<V>(source: map<string, V>, keys: seq<string>): (r: map<string, V>)
    ensures r.Keys <= source.Keys
    ensures forall k :: k in r <==> k in source && k in keys
    ensures forall k :: k in r ==> r[k] == source[k]
  {
    map k | k in source && k in keys :: source[k]
  }

  /** What `omit` leaves: the source's keys other than the listed ones. */
  function Omitted<V>(source: map<string, V>, keys: seq<string>): (r: map<string, V>)
    ensures r.Keys <= source.Keys
    ensures forall k :: k in r <==> k in source && k !in keys
    ensures forall k :: k in r ==> r[k] == source[k]
  {
    map k | k in source && k !in keys :: source[k]
  }

  /** `pick`: copies each requested key that the source has into a new object. */
  method Pick<V>(source: map<string, V>, keys: seq<string>) returns (result: map<string, V>)
    ensures result == Picked(source, keys)
  {
    result := map[];
    for i := 0 to |keys|
      invariant result == Picked(source, keys[..i])
    {
      var key := keys[i];
      if key in source {
        result := result[key := source[key]];
      }
      assert keys[..i + 1] == keys[..i] + [key];
    }
    assert keys[..|keys|] == keys;
  }

  /** `omit`: deletes each listed key from a copy of the source. */
  method Omit<V>(source: map<string, V>, keys: seq<string>) returns (result: map<string, V>)
    ensures result == Omitted(source, keys)
  {
    result := source;
    for i := 0 to |keys|
      invariant result == Omitted(source, keys[..i])
    {
      var key := keys[i];
      result := result - {key};
      assert keys[..i + 1] == keys[..i] + [key];
    }
    assert keys[..|keys|] == keys;
  }

  /** Picking and omitting the same keys split the source in two: disjoint, and together all of it. */
  lemma PickOmitPartition<V>(source: map<string, V>, keys: seq<string>)
    ensures Picked(source, keys).Keys !! Omitted(source, keys).Keys
    ensures Picked(source, keys) + Omitted(source, keys) == source
  {
    var both := Picked(source, keys) + Omitted(source, keys);
    assert both.Keys == source.Keys;
  }

  /** Listing a key the source does not have changes nothing. */
  lemma OmitAbsentKey<V>(source: map<string, V>, keys: seq<string>, absent: string)
    requires absent !in source
    ensures Omitted(source, keys + [absent]) == Omitted(source, keys)
    ensures Omitted(source, [absent]) == source
  {
    assert Omitted(source, [absent]).Keys == source.Keys;
    assert Omitted(source, keys + [absent]).Keys == Omitted(source, keys).Keys;
  }

  /** Omitting again, or picking again, with the same keys changes nothing. */
  lemma Idempotent<V>(source: map<string, V>, keys: seq<string>)
    ensures Omitted(Omitted(source, keys), keys) == Omitted(source, keys)
    ensures Picked(Picked(source, keys), keys) == Picked(source, keys)
  {
    assert Omitted(Omitted(source, keys), keys).Keys == Omitted(source, keys).Keys;
    assert Picked(Picked(source, keys), keys).Keys == Picked(source, keys).Keys;
  }

  /** Only the set of listed keys matters: order and repetition do not. */
  lemma OnlyKeySetMatters<V>(source: map<string, V>, keys: seq<string>, others: seq<string>)
    requires forall k :: k in keys <==> k in others
    ensures Picked(source, keys) == Picked(source, others)
    ensures Omitted(source, keys) == Omitted(source, others)
  {
    assert Picked(source, keys).Keys == Picked(source, others).Keys;
    assert Omitted(source, keys).Keys == Omitted(source, others).Keys;
  }
}
