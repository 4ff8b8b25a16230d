/**
 * The termed document: an entity id, an optional site IRI and the three term
 * collections, in one of two closed variants (item or property). Setters
 * return an updated document instead of mutating one in place.
 */
module TermedDocuments {
  import opened Wrappers
  import opened Terms

  /** The closed set of concrete document kinds. */
  datatype Variant = Item | Property

  /** JSON type name registered for item documents. */
  const JsonTypeItem: string := "item"

  /** JSON type name registered for property documents. */
  const JsonTypeProperty: string := "property"

  /**
   * A termed document. `siteIri` is `None` when no site was injected, in which
   * case consumers assume the Wikidata site.
   */
  datatype Doc = Doc(
    variant: Variant,
    entityId: string,
    siteIri: Option<string>,
    labels: TermMap,
    descriptions: TermMap,
    aliases: AliasMap)

  /** The settable fields of a document; the variant is not among them. */
  datatype Field = EntityId | SiteIri | Labels | Descriptions | Aliases

  /** `d` and `e` hold the same value in field `f`. */
  predicate Agree(d: Doc, e: Doc, f: Field) {
    match f
    case EntityId => d.entityId == e.entityId
    case SiteIri => d.siteIri == e.siteIri
    case Labels => d.labels == e.labels
    case Descriptions => d.descriptions == e.descriptions
    case Aliases => d.aliases == e.aliases
  }

  /** `e` differs from `d` at most in field `f`, and has the same variant. */
  predicate OnlyChanged(d: Doc, e: Doc, f: Field) {
    && e.variant == d.variant
    && forall g: Field :: g != f ==> Agree(d, e, g)
  }

  /** The type tag of a variant; always one of the two registered names. */
  function JsonType(v: Variant): (tag: string)
    ensures tag == JsonTypeItem || tag == JsonTypeProperty
    ensures tag == JsonTypeItem <==> v == Item
  {
    match v
    case Item => JsonTypeItem
    case Property => JsonTypeProperty
  }

  /**
   * Resolves a type tag to its variant. Only the two registered names are
   * accepted; every other string is rejected.
   */
  function DecodeTag(tag: string): (r: Option<Variant>)
    ensures r.Some? <==> tag == JsonTypeItem || tag == JsonTypeProperty
    ensures r.Some? ==> JsonType(r.value) == tag
  {
    if tag == JsonTypeItem then Some(Item)
    else if tag == JsonTypeProperty then Some(Property)
    else None
  }

  /** Decoding the tag of a variant gives back that variant. */
  lemma DecodeTagOfJsonType(v: Variant)
    ensures DecodeTag(JsonType(v)) == Some(v)
  {
  }

  /** The two registered tags are distinct, so the tag determines the variant. */
  lemma JsonTypeInjective(v: Variant, w: Variant)
    ensures JsonType(v) == JsonType(w) <==> v == w
  {
  }

  /** A freshly constructed document: empty id, no site IRI, empty maps. */
  function Empty(v: Variant): (d: Doc)
    ensures GetJsonType(d) == JsonType(v)
    ensures GetJsonId(d) == "" && GetSiteIri(d) == None
    ensures GetLabels(d) == map[] && GetDescriptions(d) == map[] && d.aliases == map[]
  {
    Doc(v, "", None, map[], map[], map[])
  }

  // Getters. Reading is a pure function of the document value.

  function GetJsonType(d: Doc): string {
    JsonType(d.variant)
  }

  function GetJsonId(d: Doc): string {
    d.entityId
  }

  function GetSiteIri(d: Doc): Option<string> {
    d.siteIri
  }

  function GetLabels(d: Doc): TermMap {
    d.labels
  }

  function GetDescriptions(d: Doc): TermMap {
    d.descriptions
  }

  /**
   * Rebuilds the alias map entry by entry, as the source does because the
   * exposed element type differs from the stored one. The result has exactly
   * the stored languages, and under each the stored terms in stored order.
   */
  method GetAliases(d: Doc) returns (r: AliasMap)
    // Same languages, and under each the same terms in the same order.
    ensures r == d.aliases
  {
    r := map[];
    var pending := d.aliases.Keys;
    while pending != {}
      invariant pending <= d.aliases.Keys
      invariant r.Keys == d.aliases.Keys - pending
      invariant forall lang | lang in r :: r[lang] == d.aliases[lang]
      decreases |pending|
    {
      var lang :| lang in pending;
      r := r[lang := d.aliases[lang]];
      pending := pending - {lang};
    }
  }

  // Setters. Each replaces one field wholesale and leaves the rest alone.

  function SetJsonId(d: Doc, id: string): (r: Doc)
    ensures GetJsonId(r) == id
    ensures OnlyChanged(d, r, EntityId)
  {
    d.(entityId := id)
  }

  function SetSiteIri(d: Doc, site: Option<string>): (r: Doc)
    ensures GetSiteIri(r) == site
    ensures OnlyChanged(d, r, SiteIri)
  {
    d.(siteIri := site)
  }

  function SetLabels(d: Doc, m: TermMap): (r: Doc)
    ensures GetLabels(r) == m
    ensures OnlyChanged(d, r, Labels)
  {
    d.(labels := m)
  }

  function SetDescriptions(d: Doc, m: TermMap): (r: Doc)
    ensures GetDescriptions(r) == m
    ensures OnlyChanged(d, r, Descriptions)
  {
    d.(descriptions := m)
  }

  function SetAliases(d: Doc, m: AliasMap): (r: Doc)
    ensures r.aliases == m
    ensures OnlyChanged(d, r, Aliases)
  {
    d.(aliases := m)
  }

  /**
   * The label and description setters store a map as given, even when a term
   * carries a language other than its key.
   */
  lemma LanguageMismatchAccepted(d: Doc, m: TermMap, lang: Language)
    requires lang in m && m[lang].language != lang
    ensures GetLabels(SetLabels(d, m)) == m
    ensures !TermsMatchKeys(GetLabels(SetLabels(d, m)))
    ensures GetDescriptions(SetDescriptions(d, m)) == m
    ensures !TermsMatchKeys(GetDescriptions(SetDescriptions(d, m)))
  {
  }

  /** Setting a map twice keeps only the second value: no merging. */
  lemma SettersOverwrite(d: Doc, m1: TermMap, m2: TermMap, a1: AliasMap, a2: AliasMap)
    ensures SetLabels(SetLabels(d, m1), m2) == SetLabels(d, m2)
    ensures SetDescriptions(SetDescriptions(d, m1), m2) == SetDescriptions(d, m2)
    ensures SetAliases(SetAliases(d, a1), a2) == SetAliases(d, a2)
  {
  }
}
