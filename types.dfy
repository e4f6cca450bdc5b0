/**
 * The records shared by the legal-retrieval side: a statute (`Law`) with its
 * sections (`Paragraf`), the payload stored with every vector
 * (`RelevantDocument`) and the validated search request (`QueryRequest`).
 */
module Types {
  import opened Wrappers
  import opened PyStr

  /** One section of a statute: its number and its text. */
  datatype Paragraf = Paragraf(cislo: string, zneni: string)

  /** A statute as listed in the law list and enriched from the open-data API. */
  datatype Law = Law(
    nazev: string,
    id: string,
    year: string,
    category: Option<string>,
    date: Option<string>,
    staleURL: Option<string>,
    paragrafy: seq<Paragraf>)

  /**
   * A retrieved section together with the metadata of its statute. Only the
   * category, the date and the URL may be missing.
   */
  datatype RelevantDocument = RelevantDocument(
    lawNazev: string,
    lawId: string,
    lawYear: string,
    lawCategory: Option<string>,
    lawDate: Option<string>,
    lawStaleURL: Option<string>,
    paragraphCislo: string,
    paragraphZneni: string)

  datatype QueryRequest = QueryRequest(query: string)

  const EmptyQueryMessage := "Query must be a non-empty string"

  /** `Law(nazev=..., id=..., year=...)` with every other field left at its default. */
  function NewLaw(nazev: string, id: string, year: string): (law: Law)
    ensures law.nazev == nazev && law.id == id && law.year == year
    ensures law.category.None? && law.date.None? && law.staleURL.None?
    ensures law.paragrafy == []
  {
    Law(nazev, id, year, None, None, None, [])
  }

  /**
   * The `query` validator of `QueryRequest`: a blank query is refused with a
   * `ValueError`, any other is kept exactly as given (it is not trimmed).
   */
  function ValidateQuery(v: string): (r: Result<QueryRequest, string>)
    ensures r.Failure? <==> AllSpace(v)
    ensures r.Failure? ==> r.error == EmptyQueryMessage
    ensures r.Success? ==> r.value.query == v
  {
    StripEmptyIff(v);
    if Strip(v) == [] then Failure(EmptyQueryMessage) else Success(QueryRequest(v))
  }
}
