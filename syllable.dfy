/** The syllable record the collection and the dialect work on. Its parser
    and renderer are not part of this model: the loader takes the parser as
    a parameter. */
module RngSyllable {
  import opened RngJoiner

  datatype Classification = Prefix | Center | Suffix

  /** One phonetic fragment, its position in a name, and the two Joiners
      that say what may precede it and what may follow it. */
  datatype Syllable = Syllable(
    value: string,
    classification: Classification,
    jprevious: Joiner,
    jnext: Joiner)
}
