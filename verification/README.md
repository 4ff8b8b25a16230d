# Termed documents of the Wikidata Toolkit JSON data model

This project models `JacksonTermedDocument`, the Jackson-bound base class of
item and property documents in the Wikidata Toolkit. A termed document holds
an entity id string, an optional site IRI and three term collections:
labels and descriptions (one term per language) and aliases (an ordered list
of terms per language). It is one of two closed variants, item or property,
told apart in JSON by the `type` member whose value is `"item"` or
`"property"`.

The model is functional. A document is an immutable `Doc` value. Each setter
returns an updated document and the getters are pure functions. The JSON
binding is reduced to its top-level members. `Wire` records which of
`type`, `id`, `labels`, `descriptions` and `aliases` are present and what they
hold. The site IRI is ignored by JSON, so `Wire` has no slot for it.

Files:

- `wrappers.dfy` (`Wrappers`): `Option` and `Result`.
- `terms.dfy` (`Terms`): the term record, the term-map and alias-map types,
  and the key/language consistency predicate that the label and
  description setters do not enforce.
- `termed_document.dfy` (`TermedDocuments`): the variant, the type-tag mapping,
  the document, its defaults, getters and setters.
- `json_binding.dfy` (`JsonBinding`): what the JSON binding writes and reads,
  and the round trips between the two.

## Model

| member | source | states |
|---|---|---|
| TermedDocuments.JsonType | wdtk-datamodel/src/main/java/org/wikidata/wdtk/datamodel/json/jackson/JacksonTermedDocument.java:202-210 | the type tag is always one of the two registered names, and it is `"item"` exactly for item documents |
| TermedDocuments.DecodeTag | wdtk-datamodel/src/main/java/org/wikidata/wdtk/datamodel/json/jackson/JacksonTermedDocument.java:49-62 | a tag resolves to a variant if and only if it is `"item"` or `"property"`, and a resolved variant's own tag is the input tag |
| TermedDocuments.DecodeTagOfJsonType | wdtk-datamodel/src/main/java/org/wikidata/wdtk/datamodel/json/jackson/JacksonTermedDocument.java:49-62 | resolving the tag of a variant gives back that variant |
| TermedDocuments.JsonTypeInjective | wdtk-datamodel/src/main/java/org/wikidata/wdtk/datamodel/json/jackson/JacksonTermedDocument.java:55-62 | the two tags are distinct: two variants share a tag only if they are the same variant |
| TermedDocuments.Empty | wdtk-datamodel/src/main/java/org/wikidata/wdtk/datamodel/json/jackson/JacksonTermedDocument.java:64-95 | a freshly constructed document reports its variant's tag, id `""`, no site IRI, and empty label, description and alias maps |
| TermedDocuments.GetAliases | wdtk-datamodel/src/main/java/org/wikidata/wdtk/datamodel/json/jackson/JacksonTermedDocument.java:109-122 | the rebuilt alias map equals the stored one: exactly the stored languages, and under each the stored terms, same number and same order |
| TermedDocuments.SetAliases | wdtk-datamodel/src/main/java/org/wikidata/wdtk/datamodel/json/jackson/JacksonTermedDocument.java:97-107 | afterwards the aliases are exactly the given map; variant, id, site IRI, labels and descriptions are unchanged |
| TermedDocuments.SetDescriptions | wdtk-datamodel/src/main/java/org/wikidata/wdtk/datamodel/json/jackson/JacksonTermedDocument.java:124-140 | afterwards the description getter returns exactly the given map; every other field and the variant are unchanged |
| TermedDocuments.SetLabels | wdtk-datamodel/src/main/java/org/wikidata/wdtk/datamodel/json/jackson/JacksonTermedDocument.java:142-157 | afterwards the label getter returns exactly the given map; every other field and the variant are unchanged |
| TermedDocuments.LanguageMismatchAccepted | wdtk-datamodel/src/main/java/org/wikidata/wdtk/datamodel/json/jackson/JacksonTermedDocument.java:131-151 | for every map holding a term whose language differs from its key, the label and description setters store the map unchanged, so the mismatch survives |
| TermedDocuments.SettersOverwrite | wdtk-datamodel/src/main/java/org/wikidata/wdtk/datamodel/json/jackson/JacksonTermedDocument.java:104-151 | setting a term map twice leaves only the second value, so nothing is merged |
| TermedDocuments.SetJsonId | wdtk-datamodel/src/main/java/org/wikidata/wdtk/datamodel/json/jackson/JacksonTermedDocument.java:159-180 | afterwards the id getter returns the given id; site IRI, term maps and variant are unchanged |
| TermedDocuments.SetSiteIri | wdtk-datamodel/src/main/java/org/wikidata/wdtk/datamodel/json/jackson/JacksonTermedDocument.java:182-200 | afterwards the site IRI getter returns the given value, possibly absent; id, term maps and variant are unchanged |
| JsonBinding.Encode | wdtk-datamodel/src/main/java/org/wikidata/wdtk/datamodel/json/jackson/JacksonTermedDocument.java:69-88 | every visible member is written, and the written type tag resolves back to the document's variant |
| JsonBinding.Populate | wdtk-datamodel/src/main/java/org/wikidata/wdtk/datamodel/json/jackson/JacksonTermedDocument.java:90-169 | starting from an empty document and calling the setter of each present member yields the present values, the defaults for absent members, and no site IRI |
| JsonBinding.Decode | wdtk-datamodel/src/main/java/org/wikidata/wdtk/datamodel/json/jackson/JacksonTermedDocument.java:49-79 | decoding succeeds exactly when the type tag is present and registered; a missing or unknown tag is an error naming it; a decoded document reports the input's tag and has no site IRI |
| JsonBinding.EncodeDecodeRoundTrip | wdtk-datamodel/src/main/java/org/wikidata/wdtk/datamodel/json/jackson/JacksonTermedDocument.java:69-88 | decoding an encoded document restores variant, id and all three maps, but the site IRI comes back absent; re-injecting the old site IRI restores the original |
| JsonBinding.DecodeEncodeRoundTrip | wdtk-datamodel/src/main/java/org/wikidata/wdtk/datamodel/json/jackson/JacksonTermedDocument.java:69-79 | encoding a decoded object reproduces its type tag and every present member, with defaults for the absent ones |
| JsonBinding.SiteIriNotEncoded | wdtk-datamodel/src/main/java/org/wikidata/wdtk/datamodel/json/jackson/JacksonTermedDocument.java:182-200 | injecting a site IRI is visible through the getter but changes nothing in the encoded JSON |
| JsonBinding.AbsentMembersDecodeAsEmpty | wdtk-datamodel/src/main/java/org/wikidata/wdtk/datamodel/json/jackson/JacksonTermedDocument.java:64-67 | an absent `labels`, `descriptions` or `aliases` member decodes exactly like an empty one |
| JsonBinding.AliasOrderPreserved | wdtk-datamodel/src/main/java/org/wikidata/wdtk/datamodel/json/jackson/JacksonTermedDocument.java:104-107 | for every object that decodes, each language of the `aliases` member keeps exactly its list as written: same terms, same order, duplicates kept |
| JsonBinding.AliasDuplicatesKept | wdtk-datamodel/src/main/java/org/wikidata/wdtk/datamodel/json/jackson/JacksonTermedDocument.java:104-107 | worked example: the list `[b, a, b]` under "en" decodes to `[b, a, b]`, neither reordered nor deduplicated |
| JsonBinding.EarthExample | wdtk-datamodel/src/main/java/org/wikidata/wdtk/datamodel/json/jackson/JacksonTermedDocument.java:49-79 | the object `{"type":"item","id":"Q1","labels":{"en":…Earth}}` decodes to item `Q1` with that one label, no descriptions, no aliases and no site IRI |

The getters are plain field reads and appear in the setter and constructor
contracts above: `GetJsonType` models `JacksonTermedDocument.java:209-210`,
`GetJsonId` lines 177-180, `GetSiteIri` lines 197-200, `GetLabels` lines
153-157 and `GetDescriptions` lines 136-140. Because a document is a value, reading it
cannot change it.

## Left out

- Jackson's JSON text parsing and writing, and its annotation-driven subtype dispatch. `Wire` models only the top-level members that the annotations expose.
- Decode: a missing `type` member is modelled as an error. That is Jackson's default for a type-id property and is not visible in this class.
- `AliasesDeserializer` and the JSON shape of a single term (the `language`/`value` object) are not part of this model. Terms are opaque records.
- Decode: assumes the alias deserializer hands its terms through unchanged, so a decoded `aliases` member is the alias map as written. The deserializer's source is not part of this model, so whether it rejects, corrects or keeps an alias whose language differs from its key is not stated; `AliasOrderPreserved` and the alias halves of the round trips rest on this assumption.
- `null` values from JSON (`"labels": null`) and `null` passed to `setJsonId` or the map setters are not modelled. Only the site IRI is nullable here, as `Option`.
- Duplicate member names in one JSON object are not modelled. `Wire` holds at most one value per member.
- The distinction between the stored element type and the exposed term type is not modelled. The source converts between them by an upcast, which keeps the term's content, so one `Term` type serves both.
- The unmodifiable wrappers, `HashMap` iteration order and reference identity are left out. Maps are immutable values here, so a caller cannot change stored state through a returned map.
- GetAliases: the source keeps a language whose alias list is empty. The model keeps it too, so an empty list and an absent language remain different in the getter. Only the absence of the whole `aliases` member is equivalent to an empty map.
- Building an entity id value from id and site IRI, including the Wikidata default for an absent site IRI, lives in classes that are not part of this model.
- The concrete item and property document subclasses appear only as the `Variant` datatype.
- The JSON fixture loader of the dump-file tests does resource I/O only and is not modelled.
