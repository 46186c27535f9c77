/**
 * Properties of `CFF::Model` that relate several of its operations:
 * what serialisation does with the collections, and what a model
 * rehydrated from a parsed mapping serialises back to.
 */
module CffProperties {
  import opened Ruby
  import opened Util
  import opened Cff

  /** `array_field_to_yaml` works member by member: it distributes over concatenation. */
  lemma {:induction false} ArrayFieldToYamlAppend(a: seq<Citant>, b: seq<Citant>)
    ensures ArrayFieldToYaml(a + b) == ArrayFieldToYaml(a) + ArrayFieldToYaml(b)
  {
    if a == [] {
      assert a + b == b;
    } else {
      assert (a + b)[1..] == a[1..] + b;
      ArrayFieldToYamlAppend(a[1..], b);
    }
  }

  /**
   * A member without `fields` is dropped from the output without disturbing
   * the members around it.
   */
  lemma ArrayFieldToYamlDropsOther(a: seq<Citant>, x: Value, b: seq<Citant>)
    ensures ArrayFieldToYaml(a + [Other(x)] + b) == ArrayFieldToYaml(a) + ArrayFieldToYaml(b)
  {
    ArrayFieldToYamlAppend(a + [Other(x)], b);
    ArrayFieldToYamlAppend(a, [Other(x)]);
  }

  /** A person or entity is kept, in its place, as its `fields`. */
  lemma ArrayFieldToYamlKeeps(a: seq<Citant>, c: Citant, b: seq<Citant>)
    requires !c.Other?
    ensures ArrayFieldToYaml(a + [c] + b) == ArrayFieldToYaml(a) + [Dict(c.fields)] + ArrayFieldToYaml(b)
  {
    ArrayFieldToYamlAppend(a + [c], b);
    ArrayFieldToYamlAppend(a, [c]);
  }

  /** Keywords that are strings already come out exactly as they went in. */
  lemma KeywordStringsOfStrings(keywords: seq<Value>)
    requires forall i :: 0 <= i < |keywords| ==> keywords[i].Str?
    ensures KeywordStrings(keywords) == keywords
  {
    var r := KeywordStrings(keywords);
    assert forall i :: 0 <= i < |r| ==> r[i] == keywords[i];
  }

  /**
   * Serialising classified records gives, for the i-th record, the `fields`
   * of the person built from it when it has `given-names`, and of the
   * entity built from it otherwise.
   */
  lemma ClassifiedToYaml(records: seq<Value>, newPerson: Hash -> Hash, newEntity: Hash -> Hash)
    requires forall i :: 0 <= i < |records| ==> records[i].Dict?
    ensures |ArrayFieldToYaml(Classified(records, newPerson, newEntity))| == |records|
    ensures forall i :: 0 <= i < |records| ==>
              ArrayFieldToYaml(Classified(records, newPerson, newEntity))[i]
              == Dict(if "given-names" in records[i].hash.entries
                      then newPerson(records[i].hash) else newEntity(records[i].hash))
  {
    ArrayFieldToYamlKeepsAll(Classified(records, newPerson, newEntity));
  }

  /** A person or entity whose `fields` are the record it was built from. */
  function AsGiven(record: Hash): Hash
  {
    record
  }

  /** When a person and an entity give back the record they were built from, records survive unchanged. */
  lemma ClassifiedToYamlIdentity(records: seq<Value>)
    requires forall i :: 0 <= i < |records| ==> records[i].Dict?
    ensures ArrayFieldToYaml(Classified(records, AsGiven, AsGiven)) == records
  {
    var out := ArrayFieldToYaml(Classified(records, AsGiven, AsGiven));
    ClassifiedToYaml(records, AsGiven, AsGiven);
    assert forall i :: 0 <= i < |records| ==> out[i] == records[i];
  }

  /** The mapping a model rehydrated from `raw` serialises to. */
  function RehydrateThenSerialise(raw: Hash, newPerson: Hash -> Hash, newEntity: Hash -> Hash): Hash
    requires raw.Valid() && Rehydratable(raw)
  {
    CollectionKeysDistinct();
    YamlMapping(DeleteFromHash(raw, COLLECTION_KEYS),
                Classified(raw.entries["authors"].items, newPerson, newEntity),
                Classified(raw.entries["contact"].items, newPerson, newEntity),
                raw.entries["keywords"].items)
  }

  /** A model actually built from a parsed mapping serialises to `RehydrateThenSerialise`. */
  method SerialiseRehydrated(raw: Hash, newPerson: Hash -> Hash, newEntity: Hash -> Hash) returns (out: Hash)
    requires raw.Valid() && Rehydratable(raw)
    ensures out == RehydrateThenSerialise(raw, newPerson, newEntity)
  {
    var m := new Model.FromHash(raw, newPerson, newEntity);
    out := m.ToYaml();
  }

  /**
   * Rehydrating and serialising again: every scalar field of the parsed
   * mapping, allow-listed or not, reappears with its value; `authors` and
   * `contact` reappear when non-empty, record by record in their original
   * order, as the `fields` of the person or entity each was classified as;
   * `keywords` reappear when non-empty, as strings, in order.
   */
  lemma RehydratedSerialisation(raw: Hash, newPerson: Hash -> Hash, newEntity: Hash -> Hash)
    requires raw.Valid() && Rehydratable(raw)
    ensures var out := RehydrateThenSerialise(raw, newPerson, newEntity);
      && (forall k :: k !in COLLECTION_KEYS ==> out.Lookup(k) == raw.Lookup(k))
      && (forall c :: c == "authors" || c == "contact" ==>
            var records := raw.entries[c].items;
            && (out.Lookup(c).Some? <==> records != [])
            && (records != [] ==>
                  && out.entries[c].List?
                  && |out.entries[c].items| == |records|
                  && forall i :: 0 <= i < |records| ==>
                       out.entries[c].items[i]
                       == Dict(if "given-names" in records[i].hash.entries
                               then newPerson(records[i].hash) else newEntity(records[i].hash))))
      && (out.Lookup("keywords").Some? <==> raw.entries["keywords"].items != [])
      && (raw.entries["keywords"].items != [] ==>
            out.entries["keywords"] == List(KeywordStrings(raw.entries["keywords"].items)))
  {
    CollectionKeysDistinct();
    ClassifiedToYaml(raw.entries["authors"].items, newPerson, newEntity);
    ClassifiedToYaml(raw.entries["contact"].items, newPerson, newEntity);
  }

  /**
   * The full round trip. When people and entities give back the records
   * they were built from, the keywords are strings, all three collections
   * are non-empty and stand last in the parsed mapping (in the order the
   * model writes them), serialising the rehydrated model gives back the
   * parsed mapping itself, order included.
   */
  lemma RoundTrip(raw: Hash, scalars: seq<string>)
    requires raw.Valid() && Rehydratable(raw)
    requires raw.keys == scalars + ["authors", "contact", "keywords"]
    requires raw.entries["authors"].items != [] && raw.entries["contact"].items != []
    requires raw.entries["keywords"].items != []
    requires forall i :: 0 <= i < |raw.entries["keywords"].items| ==> raw.entries["keywords"].items[i].Str?
    ensures RehydrateThenSerialise(raw, AsGiven, AsGiven) == raw
  {
    var authors := raw.entries["authors"].items;
    var contact := raw.entries["contact"].items;
    var keywords := raw.entries["keywords"].items;
    ClassifiedToYamlIdentity(authors);
    ClassifiedToYamlIdentity(contact);
    KeywordStringsOfStrings(keywords);
    YamlMappingRestores(raw, scalars, Classified(authors, AsGiven, AsGiven),
                        Classified(contact, AsGiven, AsGiven), keywords);
  }

  /**
   * Serialising the scalar part of a mapping together with collections that
   * serialise to the mapping's own collection entries restores the mapping.
   */
  lemma YamlMappingRestores(raw: Hash, scalars: seq<string>,
                            authors: seq<Citant>, contact: seq<Citant>, keywords: seq<Value>)
    requires raw.Valid()
    requires raw.keys == scalars + ["authors", "contact", "keywords"]
    requires authors != [] && contact != [] && keywords != []
    requires raw.entries["authors"] == List(ArrayFieldToYaml(authors))
    requires raw.entries["contact"] == List(ArrayFieldToYaml(contact))
    requires raw.entries["keywords"] == List(KeywordStrings(keywords))
    ensures YamlMapping(DeleteFromHash(raw, COLLECTION_KEYS), authors, contact, keywords) == raw
  {
    var out := YamlMapping(DeleteFromHash(raw, COLLECTION_KEYS), authors, contact, keywords);
    RestoresKeys(raw, scalars, authors, contact, keywords);
    RestoresEntries(raw, authors, contact, keywords);
    assert out == Hash(out.keys, out.entries);
  }

  lemma RestoresKeys(raw: Hash, scalars: seq<string>,
                     authors: seq<Citant>, contact: seq<Citant>, keywords: seq<Value>)
    requires raw.Valid()
    requires raw.keys == scalars + ["authors", "contact", "keywords"]
    requires authors != [] && contact != [] && keywords != []
    ensures YamlMapping(DeleteFromHash(raw, COLLECTION_KEYS), authors, contact, keywords).keys == raw.keys
  {
    ScalarKeysFirst(raw, scalars);
    var f := DeleteFromHash(raw, COLLECTION_KEYS);
    YamlMappingKeysAll(f, authors, contact, keywords);
  }

  /** With all three collections non-empty, their keys follow the fields' keys in a fixed order. */
  lemma YamlMappingKeysAll(fields: Hash, authors: seq<Citant>, contact: seq<Citant>, keywords: seq<Value>)
    requires fields.Valid() && NoCollectionKeys(fields)
    requires authors != [] && contact != [] && keywords != []
    ensures YamlMapping(fields, authors, contact, keywords).keys == fields.keys + ["authors", "contact", "keywords"]
  {
    assert fields.keys + ["authors"] + ["contact"] + ["keywords"] == fields.keys + ["authors", "contact", "keywords"];
  }

  lemma RestoresEntries(raw: Hash, authors: seq<Citant>, contact: seq<Citant>, keywords: seq<Value>)
    requires raw.Lookup("authors") == Some(List(ArrayFieldToYaml(authors)))
    requires raw.Lookup("contact") == Some(List(ArrayFieldToYaml(contact)))
    requires raw.Lookup("keywords") == Some(List(KeywordStrings(keywords)))
    requires authors != [] && contact != [] && keywords != []
    ensures DeleteFromHash(raw, COLLECTION_KEYS).Valid() ==>
              YamlMapping(DeleteFromHash(raw, COLLECTION_KEYS), authors, contact, keywords).entries == raw.entries
  {
    var f := DeleteFromHash(raw, COLLECTION_KEYS);
    if f.Valid() {
      CollectionKeysDistinct();
      var out := YamlMapping(f, authors, contact, keywords);
      forall k
        ensures out.Lookup(k) == raw.Lookup(k)
      {
        if k !in COLLECTION_KEYS {
          assert f.Lookup(k) == raw.Lookup(k);
        }
      }
      LookupExtensional(out, raw);
    }
  }

  /** With the collection keys last, removing them leaves exactly the keys before them. */
  lemma ScalarKeysFirst(raw: Hash, scalars: seq<string>)
    requires raw.Valid()
    requires raw.keys == scalars + ["authors", "contact", "keywords"]
    ensures KeysWithout(raw.keys, COLLECTION_KEYS) == scalars
  {
    CollectionKeysDistinct();
    DistinctSplit(scalars, ["authors", "contact", "keywords"]);
    assert "authors" in ["authors", "contact", "keywords"];
    assert "contact" in ["authors", "contact", "keywords"];
    assert "keywords" in ["authors", "contact", "keywords"];
    KeysWithoutAppend(scalars, ["authors", "contact", "keywords"], COLLECTION_KEYS);
    KeysWithoutNone(scalars, COLLECTION_KEYS);
    KeysWithoutAll(["authors", "contact", "keywords"], COLLECTION_KEYS);
  }
}
