# CFF::Model in Dafny

This project models `CFF::Model` from the Ruby `cff` library and proves
properties of the model. `CFF::Model` is the in-memory form of a
`CITATION.cff` file. It holds:

- an insertion-ordered field map (`@fields`);
- the live `authors` and `contact` collections of people and entities;
- the live `keywords` collection.

A model comes into being in one of two ways:

- from a title: it gets the spec version, the default message and the title;
- from a parsed YAML mapping ("rehydration"): each author and contact record
  becomes a `Person` when it has `given-names` and an `Entity` otherwise.

Callers read and write the allow-listed scalar fields by name, through
`method_missing`. There are two dedicated setters, `date_released=` and
`version=`. `to_yaml` projects the model onto the mapping that is handed to
the YAML emitter.

Files:

- `ruby.dfy` (module `Ruby`): the Ruby values the model stores. Hashes are
  insertion-ordered (`Hash`, with `Put` for `h[k] = v`). It also holds
  `to_s`/`inspect`, `chomp('=')` and truthiness.
- `util.dfy` (module `Util`): `method_to_field` and `delete_from_hash`.
- `model.dfy` (module `Cff`): the model.
  - `class Model` has the fields the Ruby object updates in place.
  - The two constructors and the two collection-building loops are
    imperative.
  - `method_missing` is split in two: `Get` (a function) and `Set` (a
    method).
  - Serialisation is the function `YamlMapping` together with
    `ArrayFieldToYaml`.
- `properties.dfy` (module `CffProperties`): lemmas that relate several
  operations. The main one is what a rehydrated model serialises back to.
  It includes the full round trip back to the parsed mapping.

Collaborators the model cannot see are parameters:

- `Date.parse` is `parse: string -> Option<CalendarDate>`.
- `Person.new` and `Entity.new` are `newPerson`/`newEntity: Hash -> Hash`.
  Each gives the `fields` mapping of the built object.
- `DEFAULT_SPEC_VERSION` is a constant whose value is left open.

`Hash.new('')` is captured by the field `fieldDefault`:

- `Str("")` for a model built from a title.
- `Nil` for a rehydrated model, whose field map is the parsed hash itself
  and so has no default.

Ruby sends `date_released=` and `version=` to their own setters before
`method_missing` is consulted. `Set` models `method_missing` only, so for
those two names the caller uses `SetDateReleased` and `SetVersion`.

Three behaviours of the code worth knowing:

- Unknown keys survive rehydration. Only `authors`, `contact` and
  `keywords` are removed from a parsed mapping, so a rehydrated field map
  may hold keys outside the allow-list. Serialisation writes those keys
  back out. `AllowListed` is therefore proved for models built from a
  title, and kept by every setter, but it is not a class invariant.
- Unset fields of a rehydrated model read as `nil`, not `''`.
- `authors`, `contact` and `keywords` must all be present in a parsed
  mapping. Each is walked with `each` and has no nil guard, so
  `FromHash` requires them (`Rehydratable`).

## Model

| member | source | states |
|---|---|---|
| Cff.AllowedFieldNames | lib/cff/model.rb:24-33 | every allow-listed name is already a field name: no `_` to normalise and no trailing `=` |
| Cff.Model.FromTitle | lib/cff/model.rb:42-54 | a model built from a title has empty `authors`/`contact`/`keywords` and exactly the keys `cff-version`, `message`, `title`, in that order, holding the spec version, the default message and the title. Reading `title`, `message` or `cff_version` gives those values. Every other allow-listed field reads as `''`. The model is allow-listed |
| Cff.Model.FromHash | lib/cff/model.rb:145-151 | rehydration: `authors`/`contact` are the records classified in order and `keywords` are the raw items copied verbatim. The field map is the parsed hash minus the three collection keys, with no filtering: every other key keeps its value and its order. An unset allow-listed field reads as `nil` |
| Cff.Model.BuildEntityCollection | lib/cff/model.rb:153-157 | the loop leaves `field` followed by each source record classified, in source order |
| Cff.Model.BuildStringCollection | lib/cff/model.rb:159-163 | the loop leaves `field` followed by the source elements, unchanged and in order |
| Cff.Classify | lib/cff/model.rb:155 | a record becomes a `Person` exactly when it has `given-names`, and an `Entity` otherwise. It is never something without `fields` |
| Cff.Classified | lib/cff/model.rb:153-157 | classifying a record list keeps its length, and the i-th result is the classification of the i-th record |
| Util.MethodToField | lib/cff/model.rb:133 | normalising an accessor name keeps its length, turns every `_` into `-` and keeps every other character, including a trailing `=` |
| Util.ChompSetterField | lib/cff/model.rb:133-137 | normalising `name=` gives a setter name whose chomped form is the normalised `name` |
| Cff.Model.Get | lib/cff/model.rb:132-141 | a getter call succeeds exactly when its normalised name is allow-listed, and fails with `NoMethodError` naming the method otherwise. On success it gives the stored value, or the map's default when the field is unset |
| Cff.Model.Set | lib/cff/model.rb:132-141 | a setter call succeeds exactly when its normalised, chomped name is allow-listed. On success the field holds the argument, or `''` when the argument is nil or false, and a later `Get` returns it. No other key, collection or default changes. On failure (`NoMethodError` for `name=`) the map is unchanged. Allow-listedness is kept |
| Cff.Model.SetDateReleased | lib/cff/model.rb:92-98 | a `Date` is stored as given. A string goes through `parse`, and a parse failure is an `ArgumentError` that leaves the model unchanged. Any other argument is a `TypeError`, also with no change. On success only `date-released` changes, always to a `Date`, and `Get("date_released")` returns it |
| Cff.Model.SetVersion | lib/cff/model.rb:119-121 | `version` holds the argument's `to_s`, `Get("version")` returns it, and nothing else changes |
| Cff.Model.AddAuthor | lib/cff/model.rb:68-70 | appending to the live `authors` collection grows it by one at the end and leaves the rest of the model alone |
| Cff.Model.AddContact | lib/cff/model.rb:83-85 | the same for `contact` |
| Cff.Model.AddKeyword | lib/cff/model.rb:111-113 | the same for `keywords` |
| Cff.ArrayFieldToYaml | lib/cff/model.rb:165-169 | serialising a collection yields at most as many entries as members, each one a mapping |
| Cff.ArrayFieldToYamlKeepsAll | lib/cff/model.rb:165-169 | when every member has `fields`, the output has one entry per member: the i-th is the i-th member's `fields` |
| Cff.ArrayFieldToYamlDropsAll | lib/cff/model.rb:165-169 | when no member has `fields`, the output is empty |
| Cff.KeywordStrings | lib/cff/model.rb:127 | the keywords are converted one for one, in order: the i-th result is the string `to_s` gives for the i-th keyword |
| Cff.YamlMapping | lib/cff/model.rb:123-127 | the serialised mapping keeps every scalar field's value. `authors`/`contact`/`keywords` appear exactly when their collection is non-empty, holding the serialised collection. The key order is the field map's order followed by whichever of `authors`, `contact`, `keywords` appear |
| Cff.YamlMappingValid | lib/cff/model.rb:123-127 | the serialised mapping is a well-formed hash: no key twice |
| Cff.Model.ToYaml | lib/cff/model.rb:123-129 | `to_yaml` is the serialised mapping of the current state. It is a function that reads the model and cannot change it, and its result is well-formed |
| CffProperties.ArrayFieldToYamlAppend | lib/cff/model.rb:165-169 | collection serialisation distributes over concatenation, so relative order is kept |
| CffProperties.ArrayFieldToYamlDropsOther | lib/cff/model.rb:166-167 | a member without `fields` is dropped without disturbing its neighbours |
| CffProperties.ArrayFieldToYamlKeeps | lib/cff/model.rb:165-169 | a person or entity is kept in its place as its `fields` |
| CffProperties.KeywordStringsOfStrings | lib/cff/model.rb:127 | keywords that are strings already serialise to themselves |
| CffProperties.ClassifiedToYaml | lib/cff/model.rb:153-169 | serialising classified records gives, for record i, the `fields` of the `Person` built from it when it has `given-names`, and of the `Entity` otherwise |
| CffProperties.ClassifiedToYamlIdentity | lib/cff/model.rb:153-169 | when people and entities give back their records, serialising the classified records gives the records back |
| CffProperties.SerialiseRehydrated | lib/cff/model.rb:123-151 | a model built by `FromHash` from a parsed mapping serialises, through `ToYaml`, to the mapping that `RehydratedSerialisation` and `RoundTrip` describe |
| CffProperties.RehydratedSerialisation | lib/cff/model.rb:123-151 | serialising a rehydrated model: every scalar key of the parsed mapping, allow-listed or not, comes back with its value. `authors`/`contact` come back when non-empty, record by record in order, as the classified object's `fields`. `keywords` come back when non-empty, converted to strings |
| CffProperties.RoundTrip | lib/cff/model.rb:123-151 | when people and entities give back their records, and the keywords are strings: if the three collections are non-empty and stand last in that order, rehydrating and serialising gives back the parsed mapping exactly, order included |
| CffProperties.YamlMappingRestores | lib/cff/model.rb:123-127 | serialising the scalar part of a mapping restores the whole mapping when the collections serialise to the mapping's own collection entries |
| CffProperties.YamlMappingKeysAll | lib/cff/model.rb:124-127 | with all three collections non-empty, the serialised keys are the field keys followed by `authors`, `contact`, `keywords` |
| CffProperties.ScalarKeysFirst | lib/cff/model.rb:150 | with the collection keys last, removing them leaves exactly the scalar keys, in order |
| Util.DeleteFromHash | lib/cff/model.rb:150 | removing keys keeps the hash well-formed. A removed key is absent, and every other key keeps its value and its relative order |

## Left out

- The YAML emitter (`YAML.dump` with its line-width and indentation options):
  the model stops at the mapping handed to it.
- The grammar of `Date.parse`: it is the parameter `parse`, a partial function
  from strings to dates. `DateTime` arguments (a subclass of `Date`) are not
  represented.
- The internals of `Person`, `Entity` and `Util`: `Person.new`/`Entity.new`
  are the parameters `newPerson`/`newEntity`. Each gives the mapping the
  built object's `fields` returns.
- The value of `DEFAULT_SPEC_VERSION`: it is a constant left open.
- Ruby's reflection: `respond_to?(:fields)` is the `Other` case of `Citant`.
  `method_missing` dispatch on a symbol is `Get`/`Set` on the method's name.
- Cff.Model.FromHash: requires `authors` and `contact` to be lists of
  mappings and `keywords` a list. A Ruby caller could pass a hash there,
  which `each` walks pair by pair. The model covers only the parsed-file
  shape.
- Cff.Model.Get: requires a name without a trailing `=`. Ruby sends any
  such call down the setter branch, and that branch is `Set`.
- The collections are values. Ruby's accessors hand out the live arrays, and
  the model captures appending through them (`AddAuthor`, `AddContact`,
  `AddKeyword`). It does not capture other in-place mutations by callers
  (delete, insert, sort), or aliasing between a model and another holder of
  the same array.
- `to_s` of composite values is `inspect` for the common cases:
  - strings escape only quotes, backslashes, newlines, tabs and carriage
    returns;
  - `Date#inspect` takes its day number from the Gregorian calendar even
    before 1582;
  - floats, symbols and other classes are not represented.
