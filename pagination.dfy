/** The page arithmetic of the `/users` handler and the store's `skip`/`limit`. */
module Pagination {
  import opened JsNumbers

  /** The number of matching records before page `page` (pages count from 1):
      page `page` starts where page `page - 1` ends, and never before the
      first record. */
  function PageSkip(page: int, pageLength: int): (skip: int)
    ensures skip + pageLength == page * pageLength
    ensures 1 <= page && 0 <= pageLength ==> skip >= 0
  {
    assert 1 <= page && 0 <= pageLength ==> (page - 1) * pageLength >= 0 * pageLength;
    (page - 1) * pageLength
  }

  /** The limit the handler asks for: a whole page, clamped on the last page to
      the records that remain (zero or negative past the last page). The page
      never reaches past its own end nor past the results, and it reaches one
      of the two exactly. */
  function PageLimit(total: int, page: int, pageLength: int): (limit: int)
    ensures limit <= pageLength
    ensures PageSkip(page, pageLength) + limit <= total
    ensures limit == pageLength || PageSkip(page, pageLength) + limit == total
  {
    if total < page * pageLength then total - PageSkip(page, pageLength) else pageLength
  }

  /** The store's `skip(skip).limit(limit)` over results `s`: a limit of 0 means
      no limit, and a negative limit returns as many records as its magnitude. */
  function Window<T>(s: seq<T>, skip: nat, limit: int): (w: seq<T>)
    ensures skip >= |s| ==> w == []
    ensures skip < |s| ==> skip + |w| <= |s| && w == s[skip..skip + |w|]
    ensures limit == 0 ==> |w| == if skip < |s| then |s| - skip else 0
    ensures limit != 0 ==> |w| == Min(if limit < 0 then -limit else limit, if skip < |s| then |s| - skip else 0)
  {
    var rest := if skip <= |s| then s[skip..] else [];
    var n := if limit < 0 then -limit else limit;
    if n == 0 || n >= |rest| then rest else rest[..n]
  }

  function Min(a: int, b: int): int { if a <= b then a else b }

  /** A page inside the results is never empty, never longer than the page
      length, and ends within the results: it is the next `min(pageLength,
      total - skip)` records. */
  lemma PageInRange(total: int, page: int, pageLength: int)
    requires 1 <= page && 1 <= pageLength
    requires PageSkip(page, pageLength) < total
    ensures var limit := PageLimit(total, page, pageLength);
      && 0 < limit <= pageLength
      && PageSkip(page, pageLength) + limit <= total
      && limit == Min(pageLength, total - PageSkip(page, pageLength))
  {
    assert page * pageLength == PageSkip(page, pageLength) + pageLength;
  }

  /** Past the last page the limit is zero or negative. */
  lemma PageOutOfRange(total: int, page: int, pageLength: int)
    requires 1 <= page && 0 <= pageLength
    requires PageSkip(page, pageLength) >= total
    ensures PageLimit(total, page, pageLength) <= 0
  {
    assert page * pageLength == PageSkip(page, pageLength) + pageLength;
  }

  /** With 15 matches and pages of 10, page 2 holds 5 records. */
  lemma SecondPageOfFifteen()
    ensures PageSkip(2, 10) == 10 && PageLimit(15, 2, 10) == 5
  {
  }

  /** The records page `page` returns, for pages counted from 1 with a positive
      page length: the slice of the results from the skip to the end of the
      page, or nothing past the last page. */
  lemma {:induction false} PageContents<T>(s: seq<T>, page: int, pageLength: int)
    requires 1 <= page && 1 <= pageLength
    ensures var skip := PageSkip(page, pageLength);
      && skip >= 0
      && Window(s, skip, PageLimit(|s|, page, pageLength))
         == if skip < |s| then s[skip..Min(skip + pageLength, |s|)] else []
  {
    var skip := PageSkip(page, pageLength);
    var w := Window(s, skip, PageLimit(|s|, page, pageLength));
    if skip < |s| {
      PageInRange(|s|, page, pageLength);
      assert |w| == PageLimit(|s|, page, pageLength);
      assert skip + |w| == Min(skip + pageLength, |s|);
    }
  }

  /** What one page of the results is: a non-empty page is a slice of the
      results starting at the skip, and for pages counted from 1 with a
      positive page length it is empty exactly past the last page. */
  lemma PageWindow<T>(s: seq<T>, page: int, pageLength: int)
    requires PageSkip(page, pageLength) >= 0
    ensures var skip := PageSkip(page, pageLength);
      var w := Window(s, skip, PageLimit(|s|, page, pageLength));
      && (w != [] ==> skip + |w| <= |s| && w == s[skip..skip + |w|])
      && (1 <= page && 1 <= pageLength ==>
            && (w != [] <==> skip < |s|)
            && (w != [] ==> w == s[skip..Min(skip + pageLength, |s|)]))
  {
    if 1 <= page && 1 <= pageLength {
      PageContents(s, page, pageLength);
      var skip := PageSkip(page, pageLength);
      if skip < |s| {
        PageInRange(|s|, page, pageLength);
      }
    }
  }

  /** A page length of 0 puts no limit at all: every page is all the results. */
  lemma ZeroPageLengthReturnsAll<T>(s: seq<T>, page: int)
    ensures PageSkip(page, 0) == 0
    ensures Window(s, PageSkip(page, 0), PageLimit(|s|, page, 0)) == s
  {
  }

  /** Pages 1 to `n` of the results, one after the other. */
  function Pages<T>(s: seq<T>, pageLength: int, n: nat): seq<T>
    requires pageLength >= 1
  {
    if n == 0 then []
    else
      PageContents(s, n, pageLength);
      Pages(s, pageLength, n - 1) + Window(s, PageSkip(n, pageLength), PageLimit(|s|, n, pageLength))
  }

  /** The first `n` pages are exactly the first `n * pageLength` results: no
      record is skipped and none is returned twice. */
  lemma {:induction false} PagesArePrefix<T>(s: seq<T>, pageLength: int, n: nat)
    requires pageLength >= 1
    ensures Pages(s, pageLength, n) == s[..Min(n * pageLength, |s|)]
  {
    if n > 0 {
      PagesArePrefix(s, pageLength, n - 1);
      PageContents(s, n, pageLength);
      var skip := PageSkip(n, pageLength);
      assert skip == (n - 1) * pageLength;
      assert n * pageLength == skip + pageLength;
      if skip < |s| {
        assert s[..skip] + s[skip..Min(skip + pageLength, |s|)] == s[..Min(skip + pageLength, |s|)];
      } else {
        assert Min(n * pageLength, |s|) == |s|;
      }
    }
  }

  /** Pages 1 to `ceil(total / pageLength)` together are all the results, in order. */
  lemma AllPagesCoverResults<T>(s: seq<T>, pageLength: int)
    requires pageLength >= 1
    ensures CeilDiv(|s|, pageLength) >= 0
    ensures Pages(s, pageLength, CeilDiv(|s|, pageLength)) == s
  {
    var n := CeilDiv(|s|, pageLength);
    PagesArePrefix(s, pageLength, n);
    assert s[..|s|] == s;
  }
}
