/**
 * Language-tagged text values and the three term collections a termed
 * document carries. The text value itself is opaque to the document: it is
 * only stored, copied and handed back, never inspected.
 */
module Terms {

  /** A language code such as "en". */
  type Language = string

  /** A monolingual text value: a language code paired with a text. */
  datatype Term = Term(language: Language, text: string)

  /** Labels and descriptions: one term per language. */
  type TermMap = map<Language, Term>

  /** Aliases: an ordered list of terms per language. */
  type AliasMap = map<Language, seq<Term>>

  /**
   * Every term stored under a language key carries that language. The
   * document's setters never check this.
   */
  predicate TermsMatchKeys(m: TermMap) {
    forall lang | lang in m :: m[lang].language == lang
  }
}
