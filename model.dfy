/**
 * `CFF::Model`: the in-memory record behind a CITATION.cff file. It holds an
 * insertion-ordered field map, the `authors` and `contact` collections of
 * people and entities, and the `keywords`; it is built either from a title
 * or from a parsed mapping, lets callers read and write the allow-listed
 * fields by name, and projects itself onto the mapping that is handed to the
 * YAML emitter.
 */
module Cff {
  import opened Ruby
  import opened Util

  /** The only field names the by-name accessors accept. */
  const ALLOWED_FIELDS: seq<string> :=
    ["abstract", "cff-version", "commit", "date-released", "doi", "message", "title", "version"]

  /** The message a model built from a title starts with. */
  const DEFAULT_MESSAGE: string :=
    "If you use this software in your work, please cite it using the following metadata"

  /** The version of the citation file format; its value is defined outside the model. */
  const DEFAULT_SPEC_VERSION: string

  /** The top-level keys that hold the collections rather than scalar fields. */
  const COLLECTION_KEYS: set<string> := {"authors", "contact", "keywords"}

  /**
   * A member of `authors` or `contact`. `Person` and `Entity` carry the
   * mapping their `fields` method returns; `Other` is any other object a
   * caller appended, which has no `fields`.
   */
  datatype Citant = Person(fields: Hash) | Entity(fields: Hash) | Other(obj: Value)

  datatype Error =
    | NoMethodError(name: string)   // a by-name access outside the allow-list
    | ArgumentError(input: string)  // `Date.parse` could not read the string
    | TypeError                     // `Date.parse` was given something that is not a string

  datatype Result<T> = Ok(value: T) | Err(error: Error)

  /** Allow-listed names are field names already: no underscore, and not a setter's name. */
  lemma AllowedFieldNames()
    ensures forall f :: f in ALLOWED_FIELDS ==> !IsSetterName(f) && MethodToField(f) == f
  {
    forall f | f in ALLOWED_FIELDS
      ensures !IsSetterName(f) && MethodToField(f) == f
    {
      MethodToFieldFixed(f);
    }
  }

  /** The three collection keys are different names. */
  lemma CollectionKeysDistinct()
    ensures "authors" != "contact" && "authors" != "keywords" && "contact" != "keywords"
    ensures forall k :: k in COLLECTION_KEYS <==> k == "authors" || k == "contact" || k == "keywords"
  {
    assert "authors"[0] != "contact"[0] && "authors"[0] != "keywords"[0] && "contact"[0] != "keywords"[0];
  }

  /** No collection key among the scalar fields. */
  predicate NoCollectionKeys(h: Hash)
  {
    "authors" !in h.entries && "contact" !in h.entries && "keywords" !in h.entries
  }

  /** A sequence of raw records, each a mapping, as `authors` and `contact` hold them in a parsed file. */
  predicate IsRecordList(v: Value)
  {
    v.List? && forall i :: 0 <= i < |v.items| ==> v.items[i].Dict?
  }

  /**
   * What rehydration needs of a parsed mapping: `authors`, `contact` and
   * `keywords` are all present (each is walked with `each`, without a nil
   * guard), the first two hold mappings (each is asked `has_key?`).
   */
  predicate Rehydratable(raw: Hash)
  {
    && "authors" in raw.entries && IsRecordList(raw.entries["authors"])
    && "contact" in raw.entries && IsRecordList(raw.entries["contact"])
    && "keywords" in raw.entries && raw.entries["keywords"].List?
  }

  /** A raw record becomes a `Person` when it has `given-names`, an `Entity` otherwise. */
  function Classify(record: Hash, newPerson: Hash -> Hash, newEntity: Hash -> Hash): (c: Citant)
    ensures c.Person? <==> "given-names" in record.entries
    ensures !c.Other?
  {
    if "given-names" in record.entries then Person(newPerson(record)) else Entity(newEntity(record))
  }

  /** The raw records, classified one by one, in their original order. */
  function Classified(records: seq<Value>, newPerson: Hash -> Hash, newEntity: Hash -> Hash): (r: seq<Citant>)
    requires forall i :: 0 <= i < |records| ==> records[i].Dict?
    ensures |r| == |records|
    ensures forall i :: 0 <= i < |r| ==> r[i] == Classify(records[i].hash, newPerson, newEntity)
  {
    if records == [] then []
    else [Classify(records[0].hash, newPerson, newEntity)] + Classified(records[1..], newPerson, newEntity)
  }

  /**
   * `array_field_to_yaml`: the `fields` of the members that have them, in
   * order; members without `fields` are dropped.
   */
  function ArrayFieldToYaml(cs: seq<Citant>): (r: seq<Value>)
    ensures |r| <= |cs|
    ensures forall j :: 0 <= j < |r| ==> r[j].Dict?
  {
    if cs == [] then []
    else if cs[0].Other? then ArrayFieldToYaml(cs[1..])
    else [Dict(cs[0].fields)] + ArrayFieldToYaml(cs[1..])
  }

  /** When every member has `fields`, each one is kept, in its place, as its `fields`. */
  lemma {:induction false} ArrayFieldToYamlKeepsAll(cs: seq<Citant>)
    requires forall i :: 0 <= i < |cs| ==> !cs[i].Other?
    ensures |ArrayFieldToYaml(cs)| == |cs|
    ensures forall i :: 0 <= i < |cs| ==> ArrayFieldToYaml(cs)[i] == Dict(cs[i].fields)
  {
    if cs != [] {
      ArrayFieldToYamlKeepsAll(cs[1..]);
    }
  }

  /** When no member has `fields`, nothing is left. */
  lemma {:induction false} ArrayFieldToYamlDropsAll(cs: seq<Citant>)
    requires forall i :: 0 <= i < |cs| ==> cs[i].Other?
    ensures ArrayFieldToYaml(cs) == []
  {
    if cs != [] {
      ArrayFieldToYamlDropsAll(cs[1..]);
    }
  }

  /** The keywords as `to_yaml` writes them: each one turned into its string form, in order. */
  function KeywordStrings(keywords: seq<Value>): (r: seq<Value>)
    ensures |r| == |keywords|
    ensures forall i :: 0 <= i < |r| ==> r[i].Str?
    ensures forall i :: 0 <= i < |r| ==> r[i] == Str(ToS(keywords[i]))
  {
    seq(|keywords|, i requires 0 <= i < |keywords| => Str(ToS(keywords[i])))
  }

  /**
   * The mapping `to_yaml` hands to the YAML emitter: a copy of the field map,
   * then `authors`, `contact` and `keywords`, each only when its collection
   * is non-empty.
   */
  function YamlMapping(fields: Hash, authors: seq<Citant>, contact: seq<Citant>, keywords: seq<Value>): (r: Hash)
    requires fields.Valid() && NoCollectionKeys(fields)
    ensures forall k :: k !in COLLECTION_KEYS ==> r.Lookup(k) == fields.Lookup(k)
    ensures r.Lookup("authors") == if authors == [] then None else Some(List(ArrayFieldToYaml(authors)))
    ensures r.Lookup("contact") == if contact == [] then None else Some(List(ArrayFieldToYaml(contact)))
    ensures r.Lookup("keywords") == if keywords == [] then None else Some(List(KeywordStrings(keywords)))
    ensures r.keys == fields.keys + (if authors == [] then [] else ["authors"])
                                  + (if contact == [] then [] else ["contact"])
                                  + (if keywords == [] then [] else ["keywords"])
  {
    CollectionKeysDistinct();
    var out := fields;
    var out := if authors == [] then out else out.Put("authors", List(ArrayFieldToYaml(authors)));
    var out := if contact == [] then out else out.Put("contact", List(ArrayFieldToYaml(contact)));
    if keywords == [] then out else out.Put("keywords", List(KeywordStrings(keywords)))
  }

  /** The serialised mapping is itself a well-formed hash: no key twice, nothing unlisted. */
  lemma YamlMappingValid(fields: Hash, authors: seq<Citant>, contact: seq<Citant>, keywords: seq<Value>)
    requires fields.Valid() && NoCollectionKeys(fields)
    ensures YamlMapping(fields, authors, contact, keywords).Valid()
  {
    CollectionKeysDistinct();
    var a := if authors == [] then fields else fields.Put("authors", List(ArrayFieldToYaml(authors)));
    var c := if contact == [] then a else a.Put("contact", List(ArrayFieldToYaml(contact)));
    assert a.Valid() && c.Valid();
  }

  class Model {
    /** `@fields`: the scalar fields, in insertion order. */
    var fields: Hash
    /** The value `@fields[name]` gives for an absent name: `''` for `Hash.new('')`, nil for a parsed hash. */
    var fieldDefault: Value
    var authors: seq<Citant>
    var contact: seq<Citant>
    var keywords: seq<Value>

    /** The field map is a well-formed hash that never holds a collection key. */
    ghost predicate Valid()
      reads this
    {
      fields.Valid() && NoCollectionKeys(fields)
    }

    /** Every stored field is allow-listed (true of a model built from a title, not of every rehydrated one). */
    ghost predicate AllowListed()
      reads this
    {
      forall k :: k in fields.entries ==> k in ALLOWED_FIELDS
    }

    /**
     * `Model.new(title)`: empty collections, `cff-version`, `message` and
     * `title` seeded in that order, and `''` for every other field.
     */
    constructor FromTitle(title: Value)
      requires !title.Dict?
      ensures Valid() && AllowListed()
      ensures authors == [] && contact == [] && keywords == []
      ensures fields.keys == ["cff-version", "message", "title"]
      ensures fields.Lookup("cff-version") == Some(Str(DEFAULT_SPEC_VERSION))
      ensures fields.Lookup("message") == Some(Str(DEFAULT_MESSAGE))
      ensures fields.Lookup("title") == Some(title)
      ensures Get("title") == Ok(title) && Get("message") == Ok(Str(DEFAULT_MESSAGE))
      ensures Get("cff_version") == Ok(Str(DEFAULT_SPEC_VERSION))
      ensures forall f :: f in ALLOWED_FIELDS && f !in fields.keys ==> Get(f) == Ok(Str(""))
    {
      AllowedFieldNames();
      assert "cff-version"[0] != "message"[0] && "message"[0] != "title"[0] && "cff-version"[0] != "title"[0];
      assert MethodToField("cff_version") == "cff-version";
      authors := [];
      contact := [];
      keywords := [];
      fieldDefault := Str("");
      var f := EmptyHash();
      f := f.Put("cff-version", Str(DEFAULT_SPEC_VERSION));
      f := f.Put("message", Str(DEFAULT_MESSAGE));
      f := f.Put("title", title);
      assert f.keys == ["cff-version", "message", "title"];
      fields := f;
    }

    /**
     * `Model.new(hash)` through `build_model`: each author and contact record
     * classified in order, the keywords copied as they are, and the rest of
     * the hash, unfiltered and without a default, as the field map.
     */
    constructor FromHash(raw: Hash, newPerson: Hash -> Hash, newEntity: Hash -> Hash)
      requires raw.Valid() && Rehydratable(raw)
      ensures Valid()
      ensures authors == Classified(raw.entries["authors"].items, newPerson, newEntity)
      ensures contact == Classified(raw.entries["contact"].items, newPerson, newEntity)
      ensures keywords == raw.entries["keywords"].items
      ensures fields == DeleteFromHash(raw, COLLECTION_KEYS)
      ensures forall k :: k !in COLLECTION_KEYS ==> fields.Lookup(k) == raw.Lookup(k)
      ensures fieldDefault == Nil
      ensures forall f :: f in ALLOWED_FIELDS && f !in raw.entries ==> Get(f) == Ok(Nil)
    {
      AllowedFieldNames();
      CollectionKeysDistinct();
      var a := BuildEntityCollection([], raw.entries["authors"].items, newPerson, newEntity);
      var c := BuildEntityCollection([], raw.entries["contact"].items, newPerson, newEntity);
      var k := BuildStringCollection([], raw.entries["keywords"].items);
      authors := a;
      contact := c;
      keywords := k;
      fields := DeleteFromHash(raw, COLLECTION_KEYS);
      fieldDefault := Nil;
    }

    /** `build_entity_collection`: appends each source record, classified, to `field`. */
    static method BuildEntityCollection(field: seq<Citant>, source: seq<Value>,
                                        newPerson: Hash -> Hash, newEntity: Hash -> Hash)
      returns (r: seq<Citant>)
      requires forall i :: 0 <= i < |source| ==> source[i].Dict?
      ensures r == field + Classified(source, newPerson, newEntity)
    {
      r := field;
      var i := 0;
      while i < |source|
        invariant 0 <= i <= |source|
        invariant |r| == |field| + i
        invariant r[..|field|] == field
        invariant forall j :: 0 <= j < i ==> r[|field| + j] == Classify(source[j].hash, newPerson, newEntity)
      {
        r := r + [Classify(source[i].hash, newPerson, newEntity)];
        i := i + 1;
      }
    }

    /** `build_string_collection`: appends each source element, unchanged, to `field`. */
    static method BuildStringCollection(field: seq<Value>, source: seq<Value>) returns (r: seq<Value>)
      ensures r == field + source
    {
      r := field;
      var i := 0;
      while i < |source|
        invariant 0 <= i <= |source|
        invariant r == field + source[..i]
      {
        r := r + [source[i]];
        i := i + 1;
      }
    }

    /**
     * The getter branch of `method_missing`: the normalised name must be
     * allow-listed, and the stored value (or the map's default) comes back.
     * A getter call's name never ends with `=`.
     */
    function Get(name: string): (r: Result<Value>)
      reads this
      requires !IsSetterName(name)
      ensures r.Ok? <==> MethodToField(name) in ALLOWED_FIELDS
      ensures r.Err? ==> r.error == NoMethodError(name)
      ensures r.Ok? && MethodToField(name) !in fields.entries ==> r.value == fieldDefault
      ensures r.Ok? && MethodToField(name) in fields.entries ==> r.value == fields.entries[MethodToField(name)]
    {
      var n := MethodToField(name);
      if n !in ALLOWED_FIELDS then Err(NoMethodError(name))
      else Ok(fields.Lookup(n).GetOr(fieldDefault))
    }

    /**
     * The setter branch of `method_missing`, for a call `name = v`: the
     * normalised name, with its `=` chomped, must be allow-listed; the field
     * then holds `v`, or `''` when `v` is nil or false, and nothing else
     * changes. Outside the allow-list the call fails and the map is untouched.
     */
    method Set(name: string, v: Value) returns (r: Result<Value>)
      requires Valid()
      modifies this
      ensures Valid()
      ensures r.Ok? <==> MethodToField(name) in ALLOWED_FIELDS
      ensures r.Err? ==> r.error == NoMethodError(name + "=") && fields == old(fields)
      ensures r.Ok? ==> r.value == (if Truthy(v) then v else Str(""))
      ensures r.Ok? ==> fields == old(fields).Put(MethodToField(name), r.value)
      ensures r.Ok? ==> !IsSetterName(name) && Get(name) == Ok(r.value)
      ensures forall k :: k != MethodToField(name) ==> fields.Lookup(k) == old(fields).Lookup(k)
      ensures old(AllowListed()) ==> AllowListed()
      ensures fieldDefault == old(fieldDefault)
      ensures authors == old(authors) && contact == old(contact) && keywords == old(keywords)
    {
      var n := MethodToField(name + "=");
      ChompSetterField(name);
      if Chomp(n) !in ALLOWED_FIELDS {
        return Err(NoMethodError(name + "="));
      }
      AllowedFieldNames();
      MethodToFieldSetter(name);
      var stored := if Truthy(v) then v else Str("");
      fields := fields.Put(Chomp(n), stored);
      r := Ok(stored);
    }

    /**
     * `date_released=`: a `Date` is stored as given; anything else goes
     * through `Date.parse` (`parse` here), whose failure leaves the model
     * untouched. Only `date-released` is written, and always with a `Date`.
     */
    method SetDateReleased(date: Value, parse: string -> Option<CalendarDate>) returns (r: Result<CalendarDate>)
      requires Valid()
      modifies this
      ensures Valid()
      ensures date.Date? ==> r == Ok(date.date)
      ensures date.Str? && parse(date.s).Some? ==> r == Ok(parse(date.s).value)
      ensures date.Str? && parse(date.s).None? ==> r == Err(ArgumentError(date.s))
      ensures !date.Date? && !date.Str? ==> r == Err(TypeError)
      ensures r.Ok? ==> fields == old(fields).Put("date-released", Date(r.value))
      ensures r.Ok? ==> Get("date_released") == Ok(Date(r.value))
      ensures r.Err? ==> fields == old(fields)
      ensures forall k :: k != "date-released" ==> fields.Lookup(k) == old(fields).Lookup(k)
      ensures old(AllowListed()) ==> AllowListed()
      ensures fieldDefault == old(fieldDefault)
      ensures authors == old(authors) && contact == old(contact) && keywords == old(keywords)
    {
      var d: CalendarDate;
      if date.Date? {
        d := date.date;
      } else if date.Str? {
        var parsed := parse(date.s);
        if parsed.None? {
          return Err(ArgumentError(date.s));
        }
        d := parsed.value;
      } else {
        return Err(TypeError);
      }
      assert MethodToField("date_released") == "date-released";
      fields := fields.Put("date-released", Date(d));
      r := Ok(d);
    }

    /** `version=`: stores the argument's `to_s` under `version` and changes nothing else. */
    method SetVersion(version: Value)
      requires Valid()
      modifies this
      ensures Valid()
      ensures fields == old(fields).Put("version", Str(ToS(version)))
      ensures Get("version") == Ok(Str(ToS(version)))
      ensures forall k :: k != "version" ==> fields.Lookup(k) == old(fields).Lookup(k)
      ensures old(AllowListed()) ==> AllowListed()
      ensures fieldDefault == old(fieldDefault)
      ensures authors == old(authors) && contact == old(contact) && keywords == old(keywords)
    {
      assert MethodToField("version") == "version";
      fields := fields.Put("version", Str(ToS(version)));
    }

    /** Appending a person or entity to the live `authors` collection: it grows by one at the end. */
    method AddAuthor(c: Citant)
      modifies this
      ensures authors == old(authors) + [c]
      ensures fields == old(fields) && fieldDefault == old(fieldDefault)
      ensures contact == old(contact) && keywords == old(keywords)
    {
      authors := authors + [c];
    }

    /** Appending a person or entity to the live `contact` collection. */
    method AddContact(c: Citant)
      modifies this
      ensures contact == old(contact) + [c]
      ensures fields == old(fields) && fieldDefault == old(fieldDefault)
      ensures authors == old(authors) && keywords == old(keywords)
    {
      contact := contact + [c];
    }

    /** Appending a keyword to the live `keywords` collection. */
    method AddKeyword(k: Value)
      modifies this
      ensures keywords == old(keywords) + [k]
      ensures fields == old(fields) && fieldDefault == old(fieldDefault)
      ensures authors == old(authors) && contact == old(contact)
    {
      keywords := keywords + [k];
    }

    /**
     * `to_yaml`, up to the mapping handed to `YAML.dump`. It is a function
     * of the model's state: serialising changes nothing.
     */
    function ToYaml(): (r: Hash)
      reads this
      requires Valid()
      ensures r == YamlMapping(fields, authors, contact, keywords)
      ensures r.Valid()
    {
      YamlMappingValid(fields, authors, contact, keywords);
      YamlMapping(fields, authors, contact, keywords)
    }
  }
}
