/** Building the Web of Science query string: the field-scoped base clause, the optional
    publication-year clause and the optional document-type clause, in that order. */
module QueryBuilder {
  import opened Wrappers
  import Decimal

  /** The two configuration errors: an assertion on the query type and a `ValueError`
      on the publication type. */
  datatype QueryError =
    | InvalidQueryType(queryType: string)
    | InvalidDocumentType(documentType: string)

  /** Field codes the search accepts: topic, title, author, DOI, ISSN, PubMed id. */
  const QueryTypes: set<string> := {"TS", "TI", "AU", "DO", "IS", "PMID"}

  /** Document types that are forwarded as a `DT` filter. */
  const FilteredDocumentTypes: set<string> := {"Article", "Review"}

  /** Document-type values meaning "no filter". */
  const UnfilteredDocumentTypes: set<string> := {"", "All"}

  /** The start year substituted for an open-start year range. */
  const OpenStartYear: string := "1900"

  predicate StartsWithHyphen(s: string) {
    |s| > 0 && s[0] == '-'
  }

  predicate EndsWithHyphen(s: string) {
    |s| > 0 && s[|s| - 1] == '-'
  }

  /** The publication-type filter: empty for no filter, the type itself for a supported one,
      and an error for anything else (never a silently dropped filter). */
  function CheckType(documentType: string): (r: Result<string, QueryError>)
    ensures r.Success? <==> documentType in UnfilteredDocumentTypes + FilteredDocumentTypes
    ensures (r.Success? && r.value == "") <==> documentType in UnfilteredDocumentTypes
    ensures documentType in FilteredDocumentTypes ==> r == Success(documentType)
    ensures r.Failure? ==> r.error == InvalidDocumentType(documentType)
  {
    if documentType == "" || documentType == "All" then Success("")
    else if documentType in FilteredDocumentTypes then Success(documentType)
    else Failure(InvalidDocumentType(documentType))
  }

  /** The query text wrapped in one pair of parentheses. */
  function CheckQuery(query: string): (r: string)
    ensures |r| == |query| + 2
    ensures r[0] == '(' && r[|r| - 1] == ')'
    ensures r[1..|r| - 1] == query
  {
    "(" + query + ")"
  }

  /** The position of the first `c` in `s`, if any. */
  function FirstIndexOf(s: string, c: char): (r: Option<nat>)
    ensures r.None? ==> c !in s
    ensures r.Some? ==> r.value < |s| && s[r.value] == c && c !in s[..r.value]
  {
    if |s| == 0 then None
    else if s[0] == c then Some(0)
    else
      match FirstIndexOf(s[1..], c)
      case None => None
      case Some(i) =>
        assert s[..i + 1] == [s[0]] + s[1..][..i];
        Some(i + 1)
  }

  /** Splits a base clause `<code>=(<text>)` back into its field code and query text. */
  function SplitBase(clause: string): Option<(string, string)> {
    match FirstIndexOf(clause, '=')
    case None => None
    case Some(i) =>
      if i + 2 <= |clause| - 1 && clause[i + 1] == '(' && clause[|clause| - 1] == ')'
      then Some((clause[..i], clause[i + 2..|clause| - 1]))
      else None
  }

  /** The base clause: fails for an unknown field code, otherwise scopes the query text to
      the field, and the clause can be split back into exactly that code and text. */
  function GetQuery(query: string, queryType: string): (r: Result<string, QueryError>)
    ensures r.Success? <==> queryType in QueryTypes
    ensures r.Failure? ==> r.error == InvalidQueryType(queryType)
    ensures r.Success? ==> r.value == queryType + "=(" + query + ")"
    ensures r.Success? ==> SplitBase(r.value) == Some((queryType, query))
  {
    if queryType in QueryTypes then
      var clause := queryType + "=" + CheckQuery(query);
      BaseClauseSplits(query, queryType);
      Success(clause)
    else
      Failure(InvalidQueryType(queryType))
  }

  /** The first `c` of `p + [c] + rest` is the one after `p` when `p` has none. */
  lemma {:induction false} FirstIndexAfter(p: string, c: char, rest: string)
    requires c !in p
    ensures FirstIndexOf(p + [c] + rest, c) == Some(|p|)
    decreases |p|
  {
    var s := p + [c] + rest;
    if |p| > 0 {
      assert s[1..] == p[1..] + [c] + rest;
      FirstIndexAfter(p[1..], c, rest);
    }
  }

  /** A base clause built from a valid field code decodes to that code and query text. */
  lemma BaseClauseSplits(query: string, queryType: string)
    requires queryType in QueryTypes
    ensures SplitBase(queryType + "=" + CheckQuery(query)) == Some((queryType, query))
  {
    var clause := queryType + "=" + CheckQuery(query);
    assert '=' !in queryType;
    assert clause == queryType + ['='] + CheckQuery(query);
    FirstIndexAfter(queryType, '=', CheckQuery(query));
    assert clause[..|queryType|] == queryType;
    assert clause[|queryType| + 2..|clause| - 1] == query;
  }

  /** The year filter exactly as the search resolves it: a trailing hyphen has `-` and the
      current year appended, then a leading hyphen has `1900-` prepended. */
  function ResolveYear(year: string, currentYear: nat): (r: string)
    ensures !EndsWithHyphen(year) && !StartsWithHyphen(year) ==> r == year
    ensures EndsWithHyphen(year) && !StartsWithHyphen(year)
      ==> r == year + "-" + Decimal.FromNat(currentYear)
    ensures StartsWithHyphen(year) && !EndsWithHyphen(year) ==> r == OpenStartYear + "-" + year
    ensures StartsWithHyphen(year) && EndsWithHyphen(year)
      ==> r == OpenStartYear + "-" + year + "-" + Decimal.FromNat(currentYear)
  {
    var y := if EndsWithHyphen(year) then year + "-" + Decimal.FromNat(currentYear) else year;
    if StartsWithHyphen(y) then OpenStartYear + "-" + y else y
  }

  /** The publication-year clause: absent for an empty filter. */
  function YearClause(year: string, currentYear: nat): (r: string)
    ensures r == "" <==> year == ""
  {
    if year == "" then "" else " AND PY=(" + ResolveYear(year, currentYear) + ")"
  }

  /** The document-type clause for a checked type: absent when no filter applies. */
  function TypeClause(checkedType: string): (r: string)
    ensures r == "" <==> checkedType == ""
  {
    if checkedType == "" then "" else " AND DT=(" + checkedType + ")"
  }

  /** The complete query string, or the first configuration error: the field code is
      checked before the document type, and neither check depends on the year. */
  function BuildQuery(query: string, queryType: string, year: string, documentType: string,
                      currentYear: nat): (r: Result<string, QueryError>)
    ensures r.Success? <==> queryType in QueryTypes && CheckType(documentType).Success?
    ensures queryType !in QueryTypes ==> r == Failure(InvalidQueryType(queryType))
    ensures queryType in QueryTypes && CheckType(documentType).Failure?
      ==> r == Failure(InvalidDocumentType(documentType))
    ensures r.Success? ==>
      r.value == GetQuery(query, queryType).value + YearClause(year, currentYear)
                 + TypeClause(CheckType(documentType).value)
  {
    var base :- GetQuery(query, queryType);
    var withYear := base + YearClause(year, currentYear);
    var checkedType :- CheckType(documentType);
    Success(withYear + TypeClause(checkedType))
  }

  predicate IsPrefix(p: string, s: string) {
    |p| <= |s| && s[..|p|] == p
  }

  predicate IsSuffix(p: string, s: string) {
    |p| <= |s| && s[|s| - |p|..] == p
  }

  /** A finished query starts with the base clause, and with neither filter it is the base
      clause alone. */
  lemma BaseClauseFirst(query: string, queryType: string, year: string, documentType: string,
                        currentYear: nat, r: string)
    requires BuildQuery(query, queryType, year, documentType, currentYear) == Success(r)
    ensures IsPrefix(queryType + "=(" + query + ")", r)
    ensures year == "" && documentType in UnfilteredDocumentTypes
      ==> r == queryType + "=(" + query + ")"
  {
    var base := queryType + "=(" + query + ")";
    assert GetQuery(query, queryType).value == base;
    var yc := YearClause(year, currentYear);
    var tc := TypeClause(CheckType(documentType).value);
    PrefixSuffixOfConcat(base, yc, tc);
    if year == "" && documentType in UnfilteredDocumentTypes {
      assert yc == "" && CheckType(documentType).value == "";
      assert r == base + "" + "";
    }
  }

  /** A year filter puts the PY clause, naming the resolved year, directly after the base
      clause. */
  lemma YearClauseSecond(query: string, queryType: string, year: string, documentType: string,
                         currentYear: nat, r: string)
    requires BuildQuery(query, queryType, year, documentType, currentYear) == Success(r)
    requires year != ""
    ensures YearClause(year, currentYear) == " AND PY=(" + ResolveYear(year, currentYear) + ")"
    ensures IsPrefix(GetQuery(query, queryType).value + YearClause(year, currentYear), r)
  {
    var base := GetQuery(query, queryType).value;
    var yc := YearClause(year, currentYear);
    var tc := TypeClause(CheckType(documentType).value);
    assert r == base + yc + tc;
    PrefixOfParts(base, yc, tc, r);
  }

  lemma PrefixOfParts(a: string, b: string, c: string, r: string)
    requires r == a + b + c
    ensures IsPrefix(a + b, r)
  {
    assert r[..|a + b|] == a + b;
  }

  /** A filtering document type puts the DT clause at the very end. */
  lemma TypeClauseLast(query: string, queryType: string, year: string, documentType: string,
                       currentYear: nat, r: string)
    requires BuildQuery(query, queryType, year, documentType, currentYear) == Success(r)
    requires documentType in FilteredDocumentTypes
    ensures IsSuffix(" AND DT=(" + documentType + ")", r)
  {
    var base := queryType + "=(" + query + ")";
    var yc := YearClause(year, currentYear);
    var tc := TypeClause(CheckType(documentType).value);
    assert CheckType(documentType).value == documentType;
    PrefixSuffixOfConcat(GetQuery(query, queryType).value, yc, tc);
  }

  lemma PrefixSuffixOfConcat(a: string, b: string, c: string)
    ensures IsPrefix(a, a + b + c)
    ensures IsSuffix(c, a + b + c)
  {
    assert (a + b + c)[..|a|] == a;
    assert (a + b + c)[|a + b|..] == c;
  }

  /** The spelling the year filter was evidently meant to have: a closed range
      `<digits>-<digits>` with exactly one hyphen. */
  predicate IsClosedRange(s: string) {
    && |s| >= 3
    && !StartsWithHyphen(s) && !EndsWithHyphen(s)
    && multiset(s)['-'] == 1
    && forall i :: 0 <= i < |s| && s[i] != '-' ==> Decimal.IsDigit(s[i])
  }

  /** Two digit strings joined by one hyphen form a closed range. */
  lemma JoinedIsClosedRange(lo: string, hi: string)
    requires |lo| >= 1 && Decimal.AllDigits(lo)
    requires |hi| >= 1 && Decimal.AllDigits(hi)
    ensures IsClosedRange(lo + "-" + hi)
  {
    var s := lo + "-" + hi;
    assert '-' !in lo && '-' !in hi;
    assert multiset(s) == multiset(lo) + multiset("-") + multiset(hi);
    assert s[0] == lo[0] && s[|s| - 1] == hi[|hi| - 1];
    forall i | 0 <= i < |s| && s[i] != '-'
      ensures Decimal.IsDigit(s[i])
    {
      if i < |lo| {
        assert s[i] == lo[i];
      } else {
        assert s[i] == hi[i - |lo| - 1];
      }
    }
  }

  /** Two digit strings joined by a doubled hyphen are not a closed range. */
  lemma DoubledIsNotClosedRange(lo: string, hi: string)
    requires Decimal.AllDigits(lo) && Decimal.AllDigits(hi)
    ensures !IsClosedRange(lo + "--" + hi)
  {
    var s := lo + "--" + hi;
    assert '-' !in lo && '-' !in hi;
    assert multiset(s) == multiset(lo) + multiset("--") + multiset(hi);
    assert multiset(s)['-'] == 2;
  }

  /** The code as written doubles the hyphen of an open-ended range: `"2020-"` becomes
      `"2020--<year>"`, which is not a closed range. */
  lemma ResolveYearDoublesEndHyphen(digits: string, currentYear: nat)
    requires |digits| >= 1 && Decimal.AllDigits(digits)
    ensures ResolveYear(digits + "-", currentYear) == digits + "--" + Decimal.FromNat(currentYear)
    ensures !IsClosedRange(ResolveYear(digits + "-", currentYear))
  {
    var cy := Decimal.FromNat(currentYear);
    var open := digits + "-";
    assert !StartsWithHyphen(open) by { assert open[0] == digits[0]; }
    assert open + "-" + cy == digits + "--" + cy;
    DoubledIsNotClosedRange(digits, cy);
  }

  /** The code as written doubles the hyphen of an open-start range: `"-2020"` becomes
      `"1900--2020"`, which is not a closed range. */
  lemma ResolveYearDoublesStartHyphen(digits: string, currentYear: nat)
    requires |digits| >= 1 && Decimal.AllDigits(digits)
    ensures ResolveYear("-" + digits, currentYear) == OpenStartYear + "--" + digits
    ensures !IsClosedRange(ResolveYear("-" + digits, currentYear))
  {
    var start := "-" + digits;
    assert !EndsWithHyphen(start) by { assert start[|start| - 1] == digits[|digits| - 1]; }
    assert OpenStartYear + "-" + start == OpenStartYear + "--" + digits;
    DoubledIsNotClosedRange(OpenStartYear, digits);
  }

  lemma FromNat2026()
    ensures Decimal.FromNat(2026) == "2026"
  {
    assert Decimal.FromNat(2) == "2";
    assert Decimal.FromNat(20) == "20";
    assert Decimal.FromNat(202) == "202";
  }

  /** Concrete instance of the doubled hyphen. */
  lemma ResolveYearExamples()
    ensures ResolveYear("2020-", 2026) == "2020--2026"
    ensures ResolveYear("-2020", 2026) == "1900--2020"
    ensures ResolveYear("2018-2020", 2026) == "2018-2020"
  {
    FromNat2026();
    assert !EndsWithHyphen("2018-2020") && !StartsWithHyphen("2018-2020");
  }

  /** The corrected year resolution: the current year completes an open-ended range and
      `1900` completes an open-start range, each joined by the range's own hyphen. */
  function ResolveYearIntended(year: string, currentYear: nat): (r: string)
    ensures !EndsWithHyphen(year) && !StartsWithHyphen(year) ==> r == year
    ensures EndsWithHyphen(year) && !StartsWithHyphen(year)
      ==> r == year + Decimal.FromNat(currentYear)
    ensures StartsWithHyphen(year) && !EndsWithHyphen(year) ==> r == OpenStartYear + year
  {
    var y := if EndsWithHyphen(year) then year + Decimal.FromNat(currentYear) else year;
    if StartsWithHyphen(y) then OpenStartYear + y else y
  }

  /** The corrected resolution completes an open-ended range with the current year. */
  lemma ResolveYearIntendedClosesEnd(digits: string, currentYear: nat)
    requires |digits| >= 1 && Decimal.AllDigits(digits)
    ensures ResolveYearIntended(digits + "-", currentYear)
      == digits + "-" + Decimal.FromNat(currentYear)
    ensures IsClosedRange(ResolveYearIntended(digits + "-", currentYear))
  {
    var open := digits + "-";
    assert !StartsWithHyphen(open) by { assert open[0] == digits[0]; }
    var y := open + Decimal.FromNat(currentYear);
    assert !StartsWithHyphen(y) by { assert y[0] == digits[0]; }
    JoinedIsClosedRange(digits, Decimal.FromNat(currentYear));
  }

  /** The corrected resolution completes an open-start range with 1900. */
  lemma ResolveYearIntendedClosesStart(digits: string, currentYear: nat)
    requires |digits| >= 1 && Decimal.AllDigits(digits)
    ensures ResolveYearIntended("-" + digits, currentYear) == OpenStartYear + "-" + digits
    ensures IsClosedRange(ResolveYearIntended("-" + digits, currentYear))
  {
    var start := "-" + digits;
    assert !EndsWithHyphen(start) by { assert start[|start| - 1] == digits[|digits| - 1]; }
    assert StartsWithHyphen(start);
    assert ResolveYearIntended(start, currentYear) == OpenStartYear + start;
    assert OpenStartYear + start == OpenStartYear + "-" + digits;
    assert Decimal.AllDigits(OpenStartYear);
    JoinedIsClosedRange(OpenStartYear, digits);
  }

  /** Single years and closed ranges pass through both resolutions unchanged. */
  lemma UnopenedYearUnchanged(year: string, currentYear: nat)
    requires (|year| >= 1 && Decimal.AllDigits(year)) || IsClosedRange(year)
    ensures ResolveYear(year, currentYear) == year
    ensures ResolveYearIntended(year, currentYear) == year
  {
    assert !StartsWithHyphen(year) && !EndsWithHyphen(year);
  }

  /** With no filters the query is the base clause alone. */
  lemma BuildQueryPlainExample()
    ensures BuildQuery("cancer", "TS", "", "All", 2026) == Success("TS=(cancer)")
  {
    assert "TS" in QueryTypes;
    assert "TS" + "=(" + "cancer" + ")" == "TS=(cancer)";
    assert CheckType("All") == Success("");
    assert YearClause("", 2026) == "" && TypeClause("") == "";
    assert "TS=(cancer)" + "" + "" == "TS=(cancer)";
  }

  /** Both filters, appended in the fixed order. */
  lemma BuildQueryFilteredExample()
    ensures BuildQuery("cancer", "TI", "2018-2020", "Article", 2026)
      == Success("TI=(cancer) AND PY=(2018-2020) AND DT=(Article)")
  {
    TitleBaseClauseExample();
    assert CheckType("Article") == Success("Article");
    ClosedYearClauseExample();
    ArticleClauseExample();
  }

  lemma TitleBaseClauseExample()
    ensures GetQuery("cancer", "TI") == Success("TI=(cancer)")
  {
    assert "TI" in QueryTypes;
    assert "TI" + "=(" + "cancer" + ")" == "TI=(cancer)";
  }

  lemma ArticleClauseExample()
    ensures "TI=(cancer)" + " AND PY=(2018-2020)" + TypeClause("Article")
      == "TI=(cancer) AND PY=(2018-2020) AND DT=(Article)"
  {
    assert TypeClause("Article") == " AND DT=(Article)";
  }

  lemma ClosedYearClauseExample()
    ensures YearClause("2018-2020", 2026) == " AND PY=(2018-2020)"
  {
    assert ResolveYear("2018-2020", 2026) == "2018-2020" by {
      assert !EndsWithHyphen("2018-2020") && !StartsWithHyphen("2018-2020");
    }
    assert " AND PY=(" + "2018-2020" + ")" == " AND PY=(2018-2020)";
  }

  /** An unknown field code is an error, not a dropped clause. */
  lemma QueryTypeErrorExample()
    ensures BuildQuery("cancer", "XX", "", "All", 2026) == Failure(InvalidQueryType("XX"))
  {
  }

  /** An unknown document type is an error, not a dropped filter. */
  lemma DocumentTypeErrorExample()
    ensures BuildQuery("cancer", "TS", "", "Foo", 2026) == Failure(InvalidDocumentType("Foo"))
  {
  }
}
