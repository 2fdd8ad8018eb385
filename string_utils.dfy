/** `StringUtils.pluralise`: the plural suffix for a count or for a collection's size. */
module StringUtils {

  /** `pluralise(int)`: no suffix for exactly one, `s` for every other count, zero and negatives included. */
  function Pluralise(count: int): (r: string)
    ensures r == "" <==> count == 1
    ensures r != "" ==> r == "s"
  {
    if count == 1 then "" else "s"
  }

  /** `pluralise(Collection)`: the suffix for the collection's size. */
  function PluraliseCollection<E>(collection: seq<E>): (r: string)
    ensures r == "" <==> |collection| == 1
    ensures r != "" ==> r == "s"
  {
    Pluralise(|collection|)
  }

  /** The tested cases: an empty or a two-element collection takes `s`, a singleton takes nothing. */
  lemma PluraliseCollectionExamples<E>(x: E, y: E)
    ensures PluraliseCollection<E>([]) == "s"
    ensures PluraliseCollection([x]) == ""
    ensures PluraliseCollection([x, y]) == "s"
  {
  }
}
