/** Page windows and their arithmetic, in 64-bit integers: every value the code
    computes is shown to stay within MAX_INT. */
module Pagination {
  import opened Common

  const MAX_INT := 0x7fff_ffff_ffff_ffff

  function GetPage(page: int): (p: int)
    ensures p >= 1 && (page >= 1 ==> p == page) && (page < 1 ==> p == 1)
  {
    if page < 1 then 1 else page
  }

  function GetPerPage(perPage: int): (pp: int)
    ensures 1 <= pp <= 100 && (1 <= perPage <= 100 ==> pp == perPage)
    ensures (perPage < 1 ==> pp == 10) && (perPage > 100 ==> pp == 100)
  {
    if perPage < 1 then 10 else if perPage > 100 then 100 else perPage
  }

  /** The page number used once products with perPage are known not to overflow. */
  function ClampPage(page: int, perPage: int): int
    requires perPage >= 1
  {
    if page > MAX_INT / perPage then MAX_INT / perPage else page
  }

  function GetOffset(page: int, perPage: int): int {
    (ClampPage(GetPage(page), GetPerPage(perPage)) - 1) * GetPerPage(perPage)
  }

  lemma DivMul(n: int, k: int)
    requires n >= 0 && k >= 1
    ensures 0 <= n / k * k <= n < (n / k + 1) * k
  {
  }

  /** The offset never overflows, nor does the end of the window behind it; it is
      the true offset of the page if and only if the whole window fits. */
  lemma OffsetFits(page: int, perPage: int)
    ensures 0 <= GetOffset(page, perPage)
    ensures GetOffset(page, perPage) + GetPerPage(perPage) <= 0x7fff_ffff_ffff_ffff
    ensures GetOffset(page, perPage) == (GetPage(page) - 1) * GetPerPage(perPage)
            <==> GetPage(page) * GetPerPage(perPage) <= 0x7fff_ffff_ffff_ffff
  {
    var p, k := GetPage(page), GetPerPage(perPage);
    var c := ClampPage(p, k);
    DivMul(MAX_INT, k);
    assert MAX_INT / k >= 1;
    MulLe(c, MAX_INT / k, k);
    MulLe(1, c, k);
    assert (c - 1) * k == c * k - k;
    if p > MAX_INT / k {
      MulLe(MAX_INT / k + 1, p, k);
    }
  }

  /** CalculateMeta */
  function TotalPages(perPage: int, total: int): int
    requires -MAX_INT - 1 <= total <= MAX_INT
  {
    var k := if perPage < 1 then 1 else perPage;
    // division truncates towards zero, and a negative remainder adds no page
    if total >= 0 then total / k + (if total % k > 0 then 1 else 0) else -((-total) / k)
  }

  /** A page size below 1 counts as 1, and a negative total makes no page. */
  lemma TotalPagesOfOddInput(perPage: int, total: int)
    requires -MAX_INT - 1 <= total <= MAX_INT
    ensures perPage < 1 ==> TotalPages(perPage, total) == total
    ensures total < 0 && perPage >= 1 ==>
              var n := -TotalPages(perPage, total); n * perPage <= -total < (n + 1) * perPage
  {
    if total < 0 && perPage >= 1 {
      DivRange(-total, perPage);
    }
  }

  const WORDS := 0x1_0000_0000_0000_0000

  /** A 64-bit sum wraps around. */
  function Wrap64(x: int): int {
    (x + MAX_INT + 1) % WORDS - MAX_INT - 1
  }

  /** The form used for the task list, in 64-bit arithmetic with a division that
      truncates towards zero. */
  function TaskPages(perPage: int, total: int): int
    requires perPage >= 1
  {
    var n := Wrap64(Wrap64(total + perPage) - 1);
    if n >= 0 then n / perPage else -((-n) / perPage)
  }

  lemma WrapOnce(x: int)
    requires 0 <= x <= 2 * MAX_INT
    ensures Wrap64(Wrap64(x) - 1) == if x - 1 <= MAX_INT then x - 1 else x - 1 - WORDS
  {
  }

  lemma TaskPagesIs(perPage: int, total: int)
    requires 0 <= total <= MAX_INT && 1 <= perPage <= MAX_INT
    ensures TaskPages(perPage, total)
            == if total + perPage - 1 <= MAX_INT then (total + perPage - 1) / perPage
               else -((WORDS - total - perPage + 1) / perPage)
  {
    WrapOnce(total + perPage);
  }

  lemma QuotientNonNegative(n: int, k: int)
    requires n >= 0 && k >= 1
    ensures n / k >= 0
  {
  }

  /** Both formulas used for the number of pages agree if and only if the sum in
      the second one does not overflow. */
  lemma PageCountsAgreeIff(perPage: int, total: int)
    requires 0 <= total <= MAX_INT && 1 <= perPage <= MAX_INT
    ensures TaskPages(perPage, total) == TotalPages(perPage, total) <==> total <= MAX_INT - (perPage - 1)
  {
    TaskPagesIs(perPage, total);
    var n := TotalPages(perPage, total);
    TotalPagesIsCeiling(perPage, total);
    if total > MAX_INT - (perPage - 1) {
      QuotientNonNegative(WORDS - total - perPage + 1, perPage);
      assert n >= 1 by {
        assert total > 0 && total <= n * perPage;
        if n <= 0 {
          MulLe(n, 0, perPage);
        }
      }
    }
  }

  /** CalculateMeta's number of pages is the ceiling of total / perPage. */
  lemma TotalPagesIsCeiling(perPage: int, total: int)
    requires 0 <= total <= MAX_INT && perPage >= 1
    ensures var n := TotalPages(perPage, total);
            && n == (total + perPage - 1) / perPage
            && total <= n * perPage && (if total == 0 then n == 0 else (n - 1) * perPage < total)
  {
    var n := TotalPages(perPage, total);
    var q, r := total / perPage, total % perPage;
    assert total == q * perPage + r;
    if r > 0 {
      assert total + perPage - 1 == (q + 1) * perPage + (r - 1);
      QuotientIs(total + perPage - 1, perPage, q + 1, r - 1);
      assert (n - 1) * perPage == q * perPage;
      assert n * perPage == q * perPage + perPage;
    } else {
      QuotientIs(total + perPage - 1, perPage, q, perPage - 1);
      assert (n - 1) * perPage == q * perPage - perPage;
    }
  }

  lemma QuotientIs(n: int, k: int, q: int, r: int)
    requires k >= 1 && 0 <= r < k && n == q * k + r
    ensures n / k == q
  {
    var d := n / k;
    DivRange(n, k);
    if d < q {
      MulLe(d + 1, q, k);
    } else if d > q {
      MulLe(q + 1, d, k);
    }
  }

  lemma DivRange(n: int, k: int)
    requires k >= 1
    ensures n / k * k <= n < (n / k + 1) * k
  {
  }

  /** One page of a list. */
  function Window<T>(list: seq<T>, page: int, perPage: int): seq<T>
    requires page >= 1 && perPage >= 1
  {
    MulLe(1, page, perPage);
    var start := (page - 1) * perPage;
    if start >= |list| then [] else if start + perPage > |list| then list[start..] else list[start..start + perPage]
  }

  /** Pages 1 to n, one after the other. */
  function Pages<T>(list: seq<T>, n: nat, perPage: int): seq<T>
    requires perPage >= 1
  {
    if n == 0 then [] else Pages(list, n - 1, perPage) + Window(list, n, perPage)
  }

  function Prefix<T>(list: seq<T>, length: nat): seq<T> {
    if length <= |list| then list[..length] else list
  }

  lemma PrefixAndWindow<T>(list: seq<T>, start: nat, page: int, perPage: int)
    requires page >= 1 && perPage >= 1 && start == (page - 1) * perPage
    ensures Prefix(list, start) + Window(list, page, perPage) == Prefix(list, start + perPage)
  {
  }

  lemma {:induction false} PagesArePrefix<T>(list: seq<T>, n: nat, perPage: int)
    requires perPage >= 1
    ensures n * perPage >= 0 && Pages(list, n, perPage) == Prefix(list, n * perPage)
  {
    MulLe(0, n, perPage);
    if n > 0 {
      PagesArePrefix(list, n - 1, perPage);
      PrefixAndWindow(list, (n - 1) * perPage, n, perPage);
      assert n * perPage == (n - 1) * perPage + perPage;
    }
  }

  lemma WindowLength<T>(list: seq<T>, page: int, perPage: int)
    requires page >= 1 && perPage >= 1
    ensures var rest := |list| - (page - 1) * perPage;
            |Window(list, page, perPage)| == if rest <= 0 then 0 else if rest < perPage then rest else perPage
  {
    MulLe(1, page, perPage);
  }

  /** Where page `page` of `n` begins and ends. */
  lemma PagePlace(total: int, n: int, page: int, perPage: int)
    requires perPage >= 1 && page >= 1 && total <= n * perPage
    requires if total == 0 then n == 0 else (n - 1) * perPage < total
    ensures page < n ==> total - (page - 1) * perPage > perPage
    ensures page == n ==> total - (page - 1) * perPage >= 1
    ensures page > n ==> total - (page - 1) * perPage <= 0
  {
    if page < n {
      MulLe(page, n - 1, perPage);
      assert page * perPage == (page - 1) * perPage + perPage;
    } else if page > n {
      MulLe(n, page - 1, perPage);
    }
  }

  /** The pages tile the list: pages 1..TotalPages put together are the whole
      list, each before the last is full, and every later one is empty. */
  lemma PagesTile<T>(list: seq<T>, perPage: int, page: int)
    requires perPage >= 1 && |list| <= MAX_INT && page >= 1
    ensures TotalPages(perPage, |list|) >= 0
    ensures Pages(list, TotalPages(perPage, |list|), perPage) == list
    ensures page < TotalPages(perPage, |list|) ==> |Window(list, page, perPage)| == perPage
    ensures page == TotalPages(perPage, |list|) ==> 1 <= |Window(list, page, perPage)| <= perPage
    ensures page > TotalPages(perPage, |list|) ==> Window(list, page, perPage) == []
  {
    var n := TotalPages(perPage, |list|);
    TotalPagesIsCeiling(perPage, |list|);
    NotNegative(n, perPage, |list|);
    PagesArePrefix(list, n, perPage);
    PagePlace(|list|, n, page, perPage);
    WindowLength(list, page, perPage);
  }

  lemma NotNegative(n: int, perPage: int, total: int)
    requires perPage >= 1 && 0 <= total <= n * perPage
    ensures n >= 0
  {
    if n < 0 {
      MulLe(n, -1, perPage);
    }
  }

  /** listDashboards: clamps the page, then cuts the list step by step.  Every
      number computed on the way fits into 64 bits. */
  method ListDashboards<T>(given: seq<T>, askedPage: int, askedPerPage: int)
      returns (dashboards: seq<T>, page: int, perPage: int)
    requires |given| <= MAX_INT
    ensures perPage == if 1 <= askedPerPage <= 100 then askedPerPage else 50
    ensures page >= 1 && page * perPage <= MAX_INT
    ensures dashboards == Window(given, page, perPage)
    ensures |given| <= MAX_INT - 200 ==> dashboards == Window(given, if askedPage > 0 then askedPage else 1, perPage)
  {
    page, perPage, dashboards := 1, 50, given;
    if askedPage > 0 {
      page := askedPage;
    }
    if askedPerPage > 0 && askedPerPage <= 100 {
      perPage := askedPerPage;
    }
    ghost var wanted := page;
    var total := |given|;
    if page > MAX_INT / perPage {
      page := MAX_INT / perPage;
    }
    ClampFits(wanted, perPage);
    if |given| <= MAX_INT - 200 {
      ClampIsHarmless(given, wanted, perPage);
    }
    var start := (page - 1) * perPage;
    if start < 0 {
      start := 0;
    }
    var end := start + perPage;
    assert 0 <= start <= end <= MAX_INT;
    if start >= total {
      dashboards := [];
    } else if end > total {
      dashboards := dashboards[start..];
    } else {
      dashboards := dashboards[start..end];
    }
  }

  lemma ClampFits(page: int, perPage: int)
    requires page >= 1 && 1 <= perPage <= 100
    ensures var c := ClampPage(page, perPage);
            && 1 <= c <= page && 0 <= (c - 1) * perPage
            && (c - 1) * perPage + perPage == c * perPage <= MAX_INT
            && (c < page ==> c * perPage > MAX_INT - perPage)
  {
    var c := ClampPage(page, perPage);
    DivMul(MAX_INT, perPage);
    MulLe(c, MAX_INT / perPage, perPage);
    MulLe(1, c, perPage);
    assert (c - 1) * perPage == c * perPage - perPage;
    assert (c + 1) * perPage == c * perPage + perPage;
  }

  /** The clamp only moves pages that are empty anyway. */
  lemma ClampIsHarmless<T>(list: seq<T>, page: int, perPage: int)
    requires page >= 1 && 1 <= perPage <= 100 && |list| <= MAX_INT - 200
    ensures ClampPage(page, perPage) >= 1
    ensures Window(list, ClampPage(page, perPage), perPage) == Window(list, page, perPage)
  {
    var c := ClampPage(page, perPage);
    ClampFits(page, perPage);
    if c < page {
      assert (c + 1) * perPage == c * perPage + perPage;
      MulLe(c, page - 1, perPage);
    }
  }
}
