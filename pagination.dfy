/** The paging of the exam screen: how many pages the exam takes, which page
    is shown after the current index is brought back into range, and which
    records that page holds. */
module Pagination {

  // questoes_por_pagina
  const QUESTIONS_PER_PAGE: nat := 10

  function Min(a: int, b: int): int {
    if a <= b then a else b
  }

  /** The number of pages for n records: the ceiling of n / 10, and one page
      for an empty exam. */
  function PageCount(n: nat): (pages: int)
    ensures pages >= 1
    ensures n == 0 ==> pages == 1
    ensures n > 0 ==> (pages - 1) * QUESTIONS_PER_PAGE < n <= pages * QUESTIONS_PER_PAGE
  {
    if n == 0 then 1
    else
      var pages := (n + QUESTIONS_PER_PAGE - 1) / QUESTIONS_PER_PAGE;
      // The source's second guard for a zero page count never fires here.
      if pages == 0 then assert false; 1 else pages
  }

  /** The current page index after the two corrections: first down to the
      last page, then up to the first. */
  function ClampPage(current: int, pages: int): (p: int)
    ensures 0 <= p
    ensures pages >= 1 ==> p < pages
    ensures 0 <= current < pages ==> p == current
    ensures current >= pages && pages >= 1 ==> p == pages - 1
    ensures current < 0 ==> p == 0
  {
    var p := if current >= pages then pages - 1 else current;
    if p < 0 then 0 else p
  }

  /** The records on page `page`: the Python slice from page * 10 to
      page * 10 + 10, which is empty past the end and short on the last page.
      Its j-th record is the exam's record at position page * 10 + j, which
      the screen numbers one-based, as page * 10 + j + 1. */
  function PageSlice<T>(qs: seq<T>, page: nat): (s: seq<T>)
    ensures |s| == if page * QUESTIONS_PER_PAGE >= |qs| then 0
                   else Min(QUESTIONS_PER_PAGE, |qs| - page * QUESTIONS_PER_PAGE)
    ensures forall j :: 0 <= j < |s| ==> s[j] == qs[page * QUESTIONS_PER_PAGE + j]
  {
    var start := page * QUESTIONS_PER_PAGE;
    var end := start + QUESTIONS_PER_PAGE;
    if start >= |qs| then []
    else if end > |qs| then qs[start..]
    else qs[start..end]
  }

  /** Pages 0 to k - 1, one after another. */
  function Pages<T>(qs: seq<T>, k: nat): seq<T> {
    if k == 0 then [] else Pages(qs, k - 1) + PageSlice(qs, k - 1)
  }

  /** The first k pages are the exam's first k * 10 records. */
  lemma {:induction false} PagesArePrefix<T>(qs: seq<T>, k: nat)
    ensures Pages(qs, k) == qs[..Min(k * QUESTIONS_PER_PAGE, |qs|)]
  {
    if k > 0 {
      PagesArePrefix(qs, k - 1);
      var lo := Min((k - 1) * QUESTIONS_PER_PAGE, |qs|);
      var hi := Min(k * QUESTIONS_PER_PAGE, |qs|);
      assert PageSlice(qs, k - 1) == qs[lo..hi];
      assert qs[..lo] + qs[lo..hi] == qs[..hi];
    }
  }

  /** Reading every page in order shows the whole exam, each record once and
      in its place. */
  lemma PagesCoverExam<T>(qs: seq<T>)
    ensures Pages(qs, PageCount(|qs|)) == qs
  {
    PagesArePrefix(qs, PageCount(|qs|));
    assert qs[..|qs|] == qs;
  }

  /** Record i is on page i / 10, at offset i % 10, and that page exists. */
  lemma RecordPage<T>(qs: seq<T>, i: nat)
    requires i < |qs|
    ensures i / QUESTIONS_PER_PAGE < PageCount(|qs|)
    ensures var s := PageSlice(qs, i / QUESTIONS_PER_PAGE);
      i % QUESTIONS_PER_PAGE < |s| && s[i % QUESTIONS_PER_PAGE] == qs[i]
  {
  }

  /** Whatever the stored index, the page shown for a non-empty exam is never
      empty, so the "no questions on this page" warning cannot appear. */
  lemma ShownPageNonEmpty<T>(qs: seq<T>, current: int)
    requires qs != []
    ensures PageSlice(qs, ClampPage(current, PageCount(|qs|))) != []
  {
  }
}
