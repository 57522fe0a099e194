/** Lists in pages: the numbers a pager shows, the rows a page holds. */
module Pager {
  import opened Wrappers

  // ---- The numbers shown -------------------------------------------------------

  ghost predicate Increasing(s: seq<int>) {
    forall i, j | 0 <= i < j < |s| :: s[i] < s[j]
  }

  /** A set in ascending order, one element more. */
  function Insert(x: int, s: seq<int>): (r: seq<int>)
    requires Increasing(s)
    ensures Increasing(r) && |r| <= |s| + 1
    ensures forall n :: n in r <==> n == x || n in s
  {
    if s == [] || x < s[0] then [x] + s
    else if x == s[0] then s
    else
      var rest := Insert(x, s[1..]);
      assert forall n :: n in s <==> n == s[0] || n in s[1..];
      assert forall i | 0 <= i < |rest| :: rest[i] in rest;
      [s[0]] + rest
  }

  /** `[...new Set(numbers.filter(within))].sort((a, b) => a - b)` */
  function SortedWithin(numbers: seq<int>, pages: int): (r: seq<int>)
    ensures Increasing(r) && |r| <= |numbers|
    ensures forall n :: n in r <==> n in numbers && 1 <= n <= pages
  {
    if numbers == [] then []
    else
      var rest := SortedWithin(numbers[1..], pages);
      if 1 <= numbers[0] <= pages then Insert(numbers[0], rest) else rest
  }

  /** The first page, the last, and the ones around the current. */
  ghost predicate Wanted(page: int, pages: int, n: int) {
    1 <= n <= pages && (n == 1 || n == pages || page - 1 <= n <= page + 1)
  }

  /** Nothing is shown only between two numbers that do not follow on, and two numbers side by side do. */
  ghost predicate SpacedAt(shown: seq<Option<int>>, i: nat)
    requires i < |shown|
  {
    if shown[i].None? then
      0 < i < |shown| - 1 && shown[i - 1].Some? && shown[i + 1].Some? && shown[i + 1].value - shown[i - 1].value > 1
    else
      i < |shown| - 1 && shown[i + 1].Some? ==> shown[i + 1].value == shown[i].value + 1
  }

  ghost predicate Spaced(shown: seq<Option<int>>) {
    forall i | 0 <= i < |shown| :: SpacedAt(shown, i)
  }

  /** How many numbers of `s` do not follow on the one before. */
  function Gaps(s: seq<int>): nat {
    if |s| <= 1 then 0
    else Gaps(s[..|s| - 1]) + if s[|s| - 1] - s[|s| - 2] > 1 then 1 else 0
  }

  lemma {:induction false} GapsFew(s: seq<int>)
    ensures Gaps(s) <= if s == [] then 0 else |s| - 1
  {
    if |s| > 1 {
      GapsFew(s[..|s| - 1]);
    }
  }

  /** Five numbers are the first, three in a row and the last: two gaps at most. */
  lemma SevenAtMost(s: seq<int>, page: int, pages: int)
    requires Increasing(s) && |s| <= 5 && forall i | 0 <= i < |s| :: Wanted(page, pages, s[i])
    ensures |s| + Gaps(s) <= 7
  {
    GapsFew(s);
    if |s| == 5 {
      assert Wanted(page, pages, s[0]) && Wanted(page, pages, s[4]);
      assert Wanted(page, pages, s[1]) && Wanted(page, pages, s[2]) && Wanted(page, pages, s[3]);
      FiveGaps(s);
    }
  }

  lemma FiveGaps(s: seq<int>)
    requires |s| == 5 && s[2] == s[1] + 1 && s[3] == s[2] + 1
    ensures Gaps(s) <= 2
  {
    var three := s[..4][..3];
    GapsFew(three[..2]);
    assert Gaps(three) == Gaps(three[..2]);
    assert Gaps(s[..4]) == Gaps(three);
  }

  ghost predicate Ascends(shown: seq<Option<int>>) {
    forall i, j | 0 <= i < j < |shown| && shown[i].Some? && shown[j].Some? :: shown[i].value < shown[j].value
  }

  ghost predicate Shows(shown: seq<Option<int>>, s: seq<int>) {
    forall n :: Some(n) in shown <==> n in s
  }

  /** `shown` is empty, or ends in a number below `next`. */
  predicate EndsBelow(shown: seq<Option<int>>, next: int) {
    shown != [] ==> shown[|shown| - 1].Some? && shown[|shown| - 1].value < next
  }

  /** One number more, after a gap if it does not follow on. */
  function Extended(shown: seq<Option<int>>, next: int): seq<Option<int>>
    requires EndsBelow(shown, next)
  {
    shown + (if shown != [] && next - shown[|shown| - 1].value > 1 then [None] else []) + [Some(next)]
  }

  lemma ExtendedAscends(shown: seq<Option<int>>, next: int)
    requires EndsBelow(shown, next) && Ascends(shown)
    ensures Ascends(Extended(shown, next))
  {
    forall i | 0 <= i < |shown| && shown[i].Some? ensures shown[i].value < next {
      if i < |shown| - 1 {
        assert shown[i].value < shown[|shown| - 1].value;
      }
    }
  }

  lemma ExtendedShows(shown: seq<Option<int>>, s: seq<int>, next: int)
    requires EndsBelow(shown, next) && Shows(shown, s)
    ensures Shows(Extended(shown, next), s + [next])
  {
    var gap := if shown != [] && next - shown[|shown| - 1].value > 1 then [None] else [];
    forall n ensures Some(n) in shown + gap + [Some(next)] <==> n in s + [next] {
    }
  }

  lemma ExtendedSpaced(shown: seq<Option<int>>, next: int)
    requires EndsBelow(shown, next) && Spaced(shown)
    ensures Spaced(Extended(shown, next))
  {
    var after := Extended(shown, next);
    forall i | 0 <= i < |after| ensures SpacedAt(after, i) {
      if i < |shown| {
        assert SpacedAt(shown, i);
      }
    }
  }

  /** `shown` is the window of the numbers `s`. */
  ghost predicate Window(shown: seq<Option<int>>, s: seq<int>) {
    && Shows(shown, s) && Ascends(shown) && Spaced(shown)
    && |shown| == |s| + Gaps(s)
    && if s == [] then shown == [] else shown != [] && shown[|shown| - 1] == Some(s[|s| - 1])
  }

  lemma WindowNext(shown: seq<Option<int>>, s: seq<int>, next: int)
    requires Window(shown, s) && EndsBelow(shown, next)
    ensures Window(Extended(shown, next), s + [next])
  {
    ExtendedAscends(shown, next);
    ExtendedShows(shown, s, next);
    ExtendedSpaced(shown, next);
    assert (s + [next])[..|s|] == s;
  }

  lemma WindowStep(shown: seq<Option<int>>, sorted: seq<int>, i: nat)
    requires Increasing(sorted) && i < |sorted| && Window(shown, sorted[..i])
    ensures if i > 0 && sorted[i] - sorted[i - 1] > 1 then Window(shown + [None] + [Some(sorted[i])], sorted[..i + 1])
            else Window(shown + [Some(sorted[i])], sorted[..i + 1])
  {
    assert sorted[..i + 1] == sorted[..i] + [sorted[i]];
    WindowNext(shown, sorted[..i], sorted[i]);
    var after := Extended(shown, sorted[i]);
    if i > 0 && sorted[i] - sorted[i - 1] > 1 {
      assert after == shown + [None] + [Some(sorted[i])];
    } else {
      assert after == shown + [Some(sorted[i])];
    }
  }

  lemma SortedIsWanted(page: int, pages: int, sorted: seq<int>)
    requires sorted == SortedWithin([1, pages, page - 1, page, page + 1], pages)
    ensures forall n :: n in sorted <==> Wanted(page, pages, n)
    ensures Increasing(sorted) && |sorted| + Gaps(sorted) <= 7
  {
    forall n ensures n in sorted <==> Wanted(page, pages, n) {
    }
    SevenAtMost(sorted, page, pages);
  }

  /** The page numbers a pager shows, with nothing where numbers are left out. */
  method PageWindow(page: int, pages: int) returns (shown: seq<Option<int>>)
    ensures forall n :: Some(n) in shown <==> Wanted(page, pages, n)
    ensures Ascends(shown) && Spaced(shown)
    ensures |shown| <= 7
  {
    var sorted := SortedWithin([1, pages, page - 1, page, page + 1], pages);
    SortedIsWanted(page, pages, sorted);
    shown := [];
    for i := 0 to |sorted|
      invariant Window(shown, sorted[..i])
    {
      WindowStep(shown, sorted, i);
      if i > 0 && sorted[i] - sorted[i - 1] > 1 {
        shown := shown + [None];
      }
      shown := shown + [Some(sorted[i])];
    }
    assert sorted[..|sorted|] == sorted;
  }

  // ---- The rows of a page ------------------------------------------------------

  datatype Range = Range(first: int, last: int)

  /** The first and last row of a page, counted from 1. */
  function PageRange(page: nat, size: nat, total: nat): Range {
    if total == 0 then Range(0, 0)
    else Range((page - 1) * size + 1, if total < page * size then total else page * size)
  }

  /** `Math.max(1, Math.ceil(total / size))` */
  function Pages(total: nat, size: nat): nat
    requires size > 0
  {
    var n := (total + size - 1) / size;
    if n < 1 then 1 else n
  }

  lemma PageOfRow(row: nat, size: nat, page: nat)
    requires size > 0 && page >= 1
    ensures (page - 1) * size <= row < page * size <==> page == row / size + 1
  {
    var q := row / size;
    assert q * size <= row < (q + 1) * size;
    if page - 1 < q {
      MulMonotone(page, q, size);
    } else if page - 1 > q {
      MulMonotone(q + 1, page - 1, size);
    }
  }

  lemma MulMonotone(a: nat, b: nat, c: nat)
    requires a <= b
    ensures a * c <= b * c
  {
    assert b * c == a * c + (b - a) * c;
  }

  /** A page of the list has at least one row, and its last is the end of the list or of the page. */
  lemma PageInside(page: nat, size: nat, total: nat)
    requires size > 0 && total > 0 && 1 <= page <= Pages(total, size)
    ensures 0 <= (page - 1) * size < total && page * size == (page - 1) * size + size
    ensures total <= page * size <==> page == Pages(total, size)
  {
    LastPage(total, size);
    MulMonotone(page - 1, Pages(total, size) - 1, size);
    PageAfter(page, size);
    if page < Pages(total, size) {
      MulMonotone(page, Pages(total, size) - 1, size);
    }
  }

  lemma PageAfter(page: nat, size: nat)
    requires page >= 1
    ensures page * size == (page - 1) * size + size
  {
  }

  /** Every row is on exactly one page of the list, and no page shows a row there is not. */
  lemma RangesTile(row: int, page: nat, size: nat, total: nat)
    requires size > 0 && total > 0 && 1 <= page <= Pages(total, size)
    ensures var range := PageRange(page, size, total);
      && 1 <= range.first <= range.last <= total
      && (range.first <= row <= range.last <==> 1 <= row <= total && page == (row - 1) / size + 1)
      && (page == 1 ==> range.first == 1)
      && (page == Pages(total, size) ==> range.last == total)
      && (page < Pages(total, size) ==> PageRange(page + 1, size, total).first == range.last + 1)
  {
    PageInside(page, size, total);
    if row >= 1 {
      PageOfRow(row - 1, size, page);
    }
  }

  lemma LastPage(total: nat, size: nat)
    requires size > 0 && total > 0
    ensures (Pages(total, size) - 1) * size < total <= Pages(total, size) * size
  {
    var n := (total + size - 1) / size;
    assert n * size <= total + size - 1 < n * size + size;
    assert (n - 1) * size == n * size - size;
    assert n >= 1;
  }

  function Min(a: nat, b: nat): nat {
    if a < b then a else b
  }

  /** `list.slice((page - 1) * size, page * size)` */
  function PageOf<T>(list: seq<T>, page: nat, size: nat): seq<T>
    requires page >= 1
  {
    MulMonotone(page - 1, page, size);
    list[Min((page - 1) * size, |list|)..Min(page * size, |list|)]
  }

  /** Each element is on its page. */
  lemma OnItsPage<T>(list: seq<T>, i: nat, size: nat)
    requires i < |list| && size > 0
    ensures list[i] in PageOf(list, i / size + 1, size)
  {
    var page := i / size + 1;
    PageOfRow(i, size, page);
    var first := Min((page - 1) * size, |list|);
    assert PageOf(list, page, size)[i - first] == list[i];
  }

  function FirstPages<T>(list: seq<T>, n: nat, size: nat): seq<T> {
    if n == 0 then [] else FirstPages(list, n - 1, size) + PageOf(list, n, size)
  }

  lemma {:induction false} FirstPagesAre<T>(list: seq<T>, n: nat, size: nat)
    ensures FirstPages(list, n, size) == list[..Min(n * size, |list|)]
  {
    if n > 0 {
      FirstPagesAre(list, n - 1, size);
      MulMonotone(n - 1, n, size);
    }
  }

  /** The pages one after the other are the list, and beyond the last there is nothing. */
  lemma PagesRebuild<T>(list: seq<T>, size: nat, n: nat)
    requires size > 0 && n >= Pages(|list|, size)
    ensures FirstPages(list, n, size) == list
    ensures PageOf(list, n + 1, size) == []
  {
    FirstPagesAre(list, n, size);
    MulMonotone(Pages(|list|, size), n, size);
    MulMonotone(n, n + 1, size);
    if |list| > 0 {
      LastPage(|list|, size);
    }
  }
}
