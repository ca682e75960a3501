/** Normalising one page of the Web of Science Starter API response into flat documents. */
module Response {
  import opened Wrappers

  /** The `types` value of a hit, which the upstream sends either as text or as a list. */
  datatype TypesValue = TypeText(text: string) | TypeList(names: seq<string>)

  /** The `source` block; only `publishYear` is read, `publishMonth` is carried but unused. */
  datatype Source = Source(publishYear: Option<int>, publishMonth: Option<string>)

  datatype Links = Links(record: Option<string>)

  datatype Keywords = Keywords(authorKeywords: Option<seq<string>>)

  datatype Author = Author(displayName: string)

  datatype Names = Names(authors: seq<Author>)

  /** One raw hit. Optional keys are `Option`s (or a possibly empty map for `identifiers`);
      `title`, `source`, `links`, `keywords` and `names.authors` are indexed without a
      default, so they are required here. */
  datatype RawDocument = RawDocument(
    uid: Option<string>,
    identifiers: Option<map<string, string>>,
    title: string,
    source: Source,
    types: Option<TypesValue>,
    links: Links,
    keywords: Keywords,
    names: Names)

  /** A decoded response body: `metadata.total` and the optional `hits` list. */
  datatype RawResponse = RawResponse(total: int, hits: Option<seq<RawDocument>>)

  /** The flat record handed back to the caller. */
  datatype Document = Document(
    wosUid: Option<string>,
    title: string,
    doi: string,
    pmid: string,
    year: Option<int>,
    types: TypesValue,
    link: Option<string>,
    keywords: Option<seq<string>>,
    authors: seq<string>)

  /** A hit is kept only when its `identifiers` block is present and non-empty: a missing
      block and an empty one are both falsy and skip the hit. */
  function Kept(hit: RawDocument): (kept: bool)
    ensures kept ==> hit.identifiers.Some?
    ensures !kept <==> hit.identifiers.None? || hit.identifiers.value == map[]
  {
    hit.identifiers.Some? && |hit.identifiers.value| > 0
  }

  function Lookup(m: map<string, string>, key: string): string {
    if key in m then m[key] else ""
  }

  /** Each author's display name, in order. */
  function AuthorNames(authors: seq<Author>): (names: seq<string>)
    ensures |names| == |authors|
    ensures forall i :: 0 <= i < |authors| ==> names[i] == authors[i].displayName
  {
    seq(|authors|, i requires 0 <= i < |authors| => authors[i].displayName)
  }

  /** The flat record of one hit that has an `identifiers` block. */
  function Normalize(hit: RawDocument): (d: Document)
    requires hit.identifiers.Some?
    ensures "doi" in hit.identifiers.value ==> d.doi == hit.identifiers.value["doi"]
    ensures "doi" !in hit.identifiers.value ==> d.doi == ""
    ensures "pmid" in hit.identifiers.value ==> d.pmid == hit.identifiers.value["pmid"]
    ensures "pmid" !in hit.identifiers.value ==> d.pmid == ""
    ensures hit.types.None? ==> d.types == TypeList([])
    ensures hit.types.Some? ==> d.types == hit.types.value
    ensures d.title == hit.title && d.wosUid == hit.uid && d.year == hit.source.publishYear
    ensures d.link == hit.links.record && d.keywords == hit.keywords.authorKeywords
    ensures |d.authors| == |hit.names.authors|
    ensures forall i :: 0 <= i < |d.authors| ==> d.authors[i] == hit.names.authors[i].displayName
  {
    var ids := hit.identifiers.value;
    Document(
      wosUid := hit.uid,
      title := hit.title,
      doi := Lookup(ids, "doi"),
      pmid := Lookup(ids, "pmid"),
      year := hit.source.publishYear,
      types := hit.types.GetOr(TypeList([])),
      link := hit.links.record,
      keywords := hit.keywords.authorKeywords,
      authors := AuthorNames(hit.names.authors))
  }

  /** What one hit contributes: its record when it is kept, nothing otherwise. */
  function KeptRecord(hit: RawDocument): seq<Document> {
    if Kept(hit) then [Normalize(hit)] else []
  }

  /** The normalised kept hits, in input order; never more records than hits. */
  function ProcessHits(hits: seq<RawDocument>): (r: seq<Document>)
    ensures |r| <= |hits|
  {
    if |hits| == 0 then [] else KeptRecord(hits[0]) + ProcessHits(hits[1..])
  }

  /** `d` is the normalisation of some kept hit of `hits`. */
  ghost predicate IsNormalizedHit(d: Document, hits: seq<RawDocument>) {
    exists i :: 0 <= i < |hits| && Kept(hits[i]) && d == Normalize(hits[i])
  }

  /** Every output record is the normalisation of a kept hit, and every kept hit
      contributes its normalisation: nothing is invented and nothing kept is lost. */
  lemma {:induction false} ProcessHitsSources(hits: seq<RawDocument>)
    ensures forall k :: 0 <= k < |ProcessHits(hits)| ==> IsNormalizedHit(ProcessHits(hits)[k], hits)
    ensures forall i :: 0 <= i < |hits| && Kept(hits[i]) ==> Normalize(hits[i]) in ProcessHits(hits)
    decreases |hits|
  {
    if |hits| > 0 {
      var rest := ProcessHits(hits[1..]);
      var head := KeptRecord(hits[0]);
      var r := ProcessHits(hits);
      assert r == head + rest;
      ProcessHitsSources(hits[1..]);
      forall k | 0 <= k < |r|
        ensures IsNormalizedHit(r[k], hits)
      {
        if k < |head| {
          assert r[k] == Normalize(hits[0]);
        } else {
          assert r[k] == rest[k - |head|];
          assert IsNormalizedHit(rest[k - |head|], hits[1..]);
          var j :| 0 <= j < |hits[1..]| && Kept(hits[1..][j])
                   && rest[k - |head|] == Normalize(hits[1..][j]);
          assert hits[j + 1] == hits[1..][j];
        }
      }
      forall i | 0 <= i < |hits| && Kept(hits[i])
        ensures Normalize(hits[i]) in r
      {
        if i > 0 {
          assert hits[i] == hits[1..][i - 1];
        }
      }
    }
  }

  /** `_process_response`: no `hits` key means no documents. */
  function ProcessResponse(response: RawResponse): (r: seq<Document>)
    ensures response.hits.None? ==> r == []
    ensures response.hits.Some? ==> r == ProcessHits(response.hits.value)
    ensures response.hits.Some? ==> |r| <= |response.hits.value|
  {
    match response.hits
    case None => []
    case Some(hits) => ProcessHits(hits)
  }

  /** Normalising a concatenation is concatenating the normalisations: the filter-map
      keeps relative order. */
  lemma {:induction false} ProcessHitsAppend(a: seq<RawDocument>, b: seq<RawDocument>)
    ensures ProcessHits(a + b) == ProcessHits(a) + ProcessHits(b)
    decreases |a|
  {
    if |a| == 0 {
      assert a + b == b;
    } else {
      var ab := a + b;
      assert ab[0] == a[0];
      assert ab[1..] == a[1..] + b;
      assert ProcessHits(ab) == KeptRecord(a[0]) + ProcessHits(a[1..] + b);
      ProcessHitsAppend(a[1..], b);
    }
  }

  /** A single hit yields its normalisation when kept and nothing otherwise. */
  lemma ProcessHitsSingle(hit: RawDocument)
    ensures Kept(hit) ==> ProcessHits([hit]) == [Normalize(hit)]
    ensures !Kept(hit) ==> ProcessHits([hit]) == []
  {
    assert [hit][1..] == [];
  }

  /** Hits of a page are dropped only for a missing or empty `identifiers` block: the output
      is empty exactly when no hit has one. */
  lemma {:induction false} ProcessHitsEmptyIff(hits: seq<RawDocument>)
    ensures ProcessHits(hits) == [] <==> forall i :: 0 <= i < |hits| ==> !Kept(hits[i])
    decreases |hits|
  {
    if |hits| > 0 {
      ProcessHitsEmptyIff(hits[1..]);
      assert forall i :: 1 <= i < |hits| ==> hits[i] == hits[1..][i - 1];
    }
  }

  /** When every hit has identifiers, the output is the hit-by-hit normalisation. */
  lemma {:induction false} ProcessHitsAllKept(hits: seq<RawDocument>)
    requires forall i :: 0 <= i < |hits| ==> Kept(hits[i])
    ensures |ProcessHits(hits)| == |hits|
    ensures forall i :: 0 <= i < |hits| && Kept(hits[i]) ==> ProcessHits(hits)[i] == Normalize(hits[i])
    decreases |hits|
  {
    if |hits| > 0 {
      ProcessHitsAllKept(hits[1..]);
    }
  }

  /** The record does not depend on the publication month: no date is reconstructed. */
  lemma NormalizeIgnoresMonth(hit: RawDocument, month: Option<string>)
    requires hit.identifiers.Some?
    ensures Normalize(hit.(source := hit.source.(publishMonth := month))) == Normalize(hit)
  {
  }

  /** Of the `identifiers` block only `doi` and `pmid` reach the record. */
  lemma NormalizeReadsOnlyDoiAndPmid(hit: RawDocument, ids: map<string, string>)
    requires hit.identifiers.Some?
    requires forall k :: k in {"doi", "pmid"} ==>
      (k in ids <==> k in hit.identifiers.value)
    requires "doi" in ids ==> ids["doi"] == hit.identifiers.value["doi"]
    requires "pmid" in ids ==> ids["pmid"] == hit.identifiers.value["pmid"]
    ensures Normalize(hit.(identifiers := Some(ids))) == Normalize(hit)
  {
  }
}
