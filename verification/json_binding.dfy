/**
 * How the JSON binding sees a termed document. The JSON object is modelled
 * by its top-level members only: `type` (field `tag`), `id`, `labels`, `descriptions` and
 * `aliases`, each possibly absent. The site IRI has no member at all. Text
 * parsing and writing are not modelled.
 */
module JsonBinding {
  import opened Wrappers
  import opened Terms
  import opened TermedDocuments

  /** The JSON-visible members of a document object; `None` is an absent member. */
  datatype Wire = Wire(
    tag: Option<string>,
    id: Option<string>,
    labels: Option<TermMap>,
    descriptions: Option<TermMap>,
    aliases: Option<AliasMap>)

  /** Why a JSON object could not be bound to a document. */
  datatype DecodeError =
    | MissingTypeId
    | UnknownTypeId(tag: string)

  /**
   * Serialisation: the type tag is computed from the variant, `id` comes from
   * the entity id, the three maps are written as stored, and the site IRI is
   * ignored. Every visible member is written.
   */
  function Encode(d: Doc): (w: Wire)
    ensures w.tag.Some? && DecodeTag(w.tag.value) == Some(d.variant)
    ensures w.id.Some? && w.labels.Some? && w.descriptions.Some? && w.aliases.Some?
  {
    Wire(Some(GetJsonType(d)), Some(GetJsonId(d)), Some(GetLabels(d)),
         Some(GetDescriptions(d)), Some(d.aliases))
  }

  /**
   * Field population after the variant is known: start from the empty
   * document and call the setter of every member that is present. Absent
   * members keep their defaults; the site IRI is never touched.
   */
  function Populate(v: Variant, w: Wire): (d: Doc)
    ensures GetJsonType(d) == JsonType(v)
    ensures GetJsonId(d) == w.id.GetOr("")
    ensures GetSiteIri(d) == None
    ensures GetLabels(d) == w.labels.GetOr(map[])
    ensures GetDescriptions(d) == w.descriptions.GetOr(map[])
    ensures d.aliases == w.aliases.GetOr(map[])
  {
    var d0 := Empty(v);
    var d1 := if w.id.Some? then SetJsonId(d0, w.id.value) else d0;
    var d2 := if w.labels.Some? then SetLabels(d1, w.labels.value) else d1;
    var d3 := if w.descriptions.Some? then SetDescriptions(d2, w.descriptions.value) else d2;
    if w.aliases.Some? then SetAliases(d3, w.aliases.value) else d3
  }

  /**
   * Deserialisation: the `type` member selects the variant (and is otherwise
   * ignored), then the remaining members are populated. A missing or
   * unregistered type tag fails; it never falls back to a default variant.
   */
  function Decode(w: Wire): (r: Result<Doc, DecodeError>)
    ensures w.tag.None? ==> r == Failure(MissingTypeId)
    ensures w.tag.Some? && DecodeTag(w.tag.value).None? ==>
      r == Failure(UnknownTypeId(w.tag.value))
    ensures r.Success? <==> w.tag.Some? && (w.tag.value == JsonTypeItem || w.tag.value == JsonTypeProperty)
    ensures r.Success? ==> GetJsonType(r.value) == w.tag.value && GetSiteIri(r.value) == None
  {
    match w.tag
    case None => Failure(MissingTypeId)
    case Some(tag) =>
      match DecodeTag(tag)
      case None => Failure(UnknownTypeId(tag))
      case Some(v) => Success(Populate(v, w))
  }

  /**
   * Encoding then decoding gives back the document with everything but the
   * site IRI, which comes back absent; re-injecting it restores the original.
   */
  lemma EncodeDecodeRoundTrip(d: Doc)
    ensures Decode(Encode(d)) == Success(SetSiteIri(d, None))
    ensures SetSiteIri(Decode(Encode(d)).value, GetSiteIri(d)) == d
  {
  }

  /**
   * Decoding then encoding reproduces the type tag and every member that was
   * present; absent members come back with their defaults.
   */
  lemma DecodeEncodeRoundTrip(w: Wire)
    requires Decode(w).Success?
    ensures Encode(Decode(w).value) ==
      Wire(w.tag, Some(w.id.GetOr("")), Some(w.labels.GetOr(map[])),
           Some(w.descriptions.GetOr(map[])), Some(w.aliases.GetOr(map[])))
  {
  }

  /** The site IRI is invisible to JSON: injecting one changes no member. */
  lemma SiteIriNotEncoded(d: Doc, site: Option<string>)
    ensures GetSiteIri(SetSiteIri(d, site)) == site
    ensures Encode(SetSiteIri(d, site)) == Encode(d)
  {
  }

  /** An absent term-map member decodes exactly like an empty one. */
  lemma AbsentMembersDecodeAsEmpty(w: Wire)
    ensures Decode(w.(labels := None)) == Decode(w.(labels := Some(map[])))
    ensures Decode(w.(descriptions := None)) == Decode(w.(descriptions := Some(map[])))
    ensures Decode(w.(aliases := None)) == Decode(w.(aliases := Some(map[])))
  {
  }

  /**
   * Every decoded alias list is the list as written: same terms, same order,
   * duplicates kept.
   */
  lemma AliasOrderPreserved(w: Wire, lang: Language)
    requires Decode(w).Success? && w.aliases.Some? && lang in w.aliases.value
    ensures lang in Decode(w).value.aliases
    ensures Decode(w).value.aliases[lang] == w.aliases.value[lang]
  {
  }

  /** A list with a repeated term decodes unreordered and undeduplicated. */
  lemma AliasDuplicatesKept(a: Term, b: Term)
    ensures Decode(Wire(Some(JsonTypeItem), None, None, None, Some(map["en" := [b, a, b]]))).value.aliases
      == map["en" := [b, a, b]]
  {
  }

  /** The worked example: an item with one English label. */
  lemma EarthExample()
    ensures var earth := Term("en", "Earth");
      Decode(Wire(Some(JsonTypeItem), Some("Q1"), Some(map["en" := earth]), None, None))
        == Success(Doc(Item, "Q1", None, map["en" := earth], map[], map[]))
  {
  }
}
