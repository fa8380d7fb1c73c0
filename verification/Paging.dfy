/** How the console pages a list: what a hand-typed page and page length come to,
    and that the pages are the list. */
module Paging {
  import opened Basics
  import opened Wrappers

  const DEFAULT_PER_PAGE := 50
  const MAX_ROWS := 300

  datatype Page = Page(page: nat, perPage: nat, pages: nat, offset: nat, firstRow: nat, lastRow: nat)

  /** The most rows a list may show, and how many it shows unasked. */
  function Ceiling(maxPer: nat): nat
  {
    Min(MAX_ROWS, if maxPer > 0 then maxPer else MAX_ROWS)
  }

  function Default(defaultPer: nat, maxPer: nat): nat
  {
    Min(if defaultPer > 0 then defaultPer else DEFAULT_PER_PAGE, Ceiling(maxPer))
  }

  /** At most three hundred rows, fewer where the list says so; unasked fifty, or what
      the list says, but never more than the most. */
  lemma LengthsAre(defaultPer: nat, maxPer: nat)
    ensures Ceiling(maxPer) == if 0 < maxPer < 300 then maxPer else 300
    ensures var wanted := if defaultPer == 0 then 50 else defaultPer;
            Default(defaultPer, maxPer) == if wanted <= Ceiling(maxPer) then wanted else Ceiling(maxPer)
  {
  }

  /** `pagingOf`: the numbers asked for are whatever the query parsed to, if it
      did; a list's own ceiling and default are 0 where it has none. */
  method PagingOf(askedPer: Option<int>, askedPage: Option<int>, total: nat, defaultPer: nat, maxPer: nat)
    returns (p: Page)
    ensures 1 <= p.perPage <= Ceiling(maxPer)
    ensures askedPer.None? || askedPer.value < 1 ==> p.perPage == Default(defaultPer, maxPer)
    ensures askedPer.Some? && 1 <= askedPer.value <= Ceiling(maxPer) ==> p.perPage == askedPer.value
    ensures askedPer.Some? && askedPer.value > Ceiling(maxPer) ==> p.perPage == Ceiling(maxPer)
    ensures askedPage.None? || askedPage.value < 1 ==> p.page == 1
    ensures askedPage.Some? && 1 <= askedPage.value <= p.pages ==> p.page == askedPage.value
    ensures askedPage.Some? && askedPage.value > p.pages ==> p.page == p.pages
    ensures (p.pages - 1) * p.perPage < Max(total, 1) <= p.pages * p.perPage
    ensures p.offset == (p.page - 1) * p.perPage
    ensures total == 0 ==> p.firstRow == 0 && p.lastRow == 0
    ensures total > 0 ==> p.offset + 1 == p.firstRow <= p.lastRow <= total
    ensures p.lastRow == total || p.lastRow == p.offset + p.perPage
  {
    var perPage := if askedPer.Some? && askedPer.value > 0 then Min(askedPer.value, Ceiling(maxPer))
                   else Default(defaultPer, maxPer);
    var pages := Max(1, (total + perPage - 1) / perPage);
    var page := Min(Max(if askedPage.Some? then askedPage.value else 1, 1), pages);
    CeilingCovers(total, perPage);
    Before(page, pages, perPage);
    var offset := (page - 1) * perPage;
    p := Page(page, perPage, pages, offset, if total > 0 then offset + 1 else 0, Min(offset + perPage, total));
  }

  lemma CeilingCovers(total: nat, per: nat)
    requires per > 0
    ensures var pages := Max(1, (total + per - 1) / per);
            (pages - 1) * per < Max(total, 1) <= pages * per
  {
    var n := (total + per - 1) / per;
    assert n * per <= total + per - 1 < n * per + per;
    assert (n - 1) * per == n * per - per;
  }

  lemma Before(page: nat, pages: nat, per: nat)
    requires 1 <= page <= pages
    ensures 0 <= (page - 1) * per <= (pages - 1) * per
  {
  }

  function PageAt<T>(s: seq<T>, page: nat, per: nat): seq<T>
    requires page > 0
  {
    Slice(s, (page - 1) * per, (page - 1) * per + per)
  }

  function FirstPages<T>(s: seq<T>, pages: nat, per: nat): seq<T>
  {
    if pages == 0 then [] else FirstPages(s, pages - 1, per) + PageAt(s, pages, per)
  }

  lemma Steps(pages: nat, per: nat)
    requires pages > 0
    ensures 0 <= (pages - 1) * per && pages * per == (pages - 1) * per + per
  {
  }

  lemma Joins<T>(s: seq<T>, from: nat, per: nat)
    ensures Slice(s, 0, from) + Slice(s, from, from + per) == Slice(s, 0, from + per)
  {
  }

  lemma {:induction false} FirstPagesAre<T>(s: seq<T>, pages: nat, per: nat)
    ensures FirstPages(s, pages, per) == Slice(s, 0, pages * per)
  {
    if pages > 0 {
      Steps(pages, per);
      FirstPagesAre(s, pages - 1, per);
      Joins(s, (pages - 1) * per, per);
    }
  }

  /** The pages from the first to the last, one after another, are the list. */
  lemma PagesAreTheList<T>(s: seq<T>, pages: nat, per: nat)
    requires |s| <= pages * per
    ensures FirstPages(s, pages, per) == s
  {
    FirstPagesAre(s, pages, per);
  }
}
