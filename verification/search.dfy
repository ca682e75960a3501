/** `WosSearchAPI.search`: build the query, then page through the results. */
module WosSearch {
  import opened Wrappers
  import opened QueryBuilder
  import opened Response
  import opened Paging

  /** A search: a configuration error before any request, or the aggregated documents of
      the pages requested for the built query. `log` records every `query_once` call. */
  method Search(endpoint: Endpoint, query: string, queryType: string, year: string,
                documentType: string, numResults: int, sortField: string, currentYear: nat)
    returns (r: Result<seq<Document>, QueryError>, log: seq<Fetch>)
    ensures r.Failure? <==>
      queryType !in QueryTypes
      || documentType !in UnfilteredDocumentTypes + FilteredDocumentTypes
    ensures queryType !in QueryTypes ==> r == Failure(InvalidQueryType(queryType))
    ensures queryType in QueryTypes
      && documentType !in UnfilteredDocumentTypes + FilteredDocumentTypes
      ==> r == Failure(InvalidDocumentType(documentType))
    ensures r.Failure? ==> log == []
    ensures var built := BuildQuery(query, queryType, year, documentType, currentYear);
      built.Success? ==>
        && r.Success?
        && log == Pages(endpoint, built.value, numResults, sortField)
        && r.value == SuccessfulDocs(log)
    ensures r.Success? && numResults <= 0 ==> r.value == []
  {
    var built := BuildQuery(query, queryType, year, documentType, currentYear);
    if built.Failure? {
      return Failure(built.error), [];
    }
    var docs;
    docs, log := Paginate(endpoint, built.value, numResults, sortField);
    r := Success(docs);
  }
}
