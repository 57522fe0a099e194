/** The changelog: releases by page, and links that land on the page of a release. */
module Changelog {
  import opened Wrappers
  import opened Decimal
  import opened Pager

  const PAGE_SIZE: nat := 5

  datatype Kind = New | Improved | Fixed

  datatype Change = Change(kind: Kind, title: string)

  datatype Release = Release(date: string, title: string, changes: seq<Change>)

  function OfKind(changes: seq<Change>, kind: Option<Kind>): seq<Change> {
    if changes == [] then []
    else (if kind == None || Some(changes[0].kind) == kind then [changes[0]] else []) + OfKind(changes[1..], kind)
  }

  /** The releases with the changes of one kind, those without any left out. */
  function Listed(releases: seq<Release>, kind: Option<Kind>): seq<Release> {
    if releases == [] then []
    else
      var release := releases[0].(changes := OfKind(releases[0].changes, kind));
      (if release.changes == [] then [] else [release]) + Listed(releases[1..], kind)
  }

  /** `?page=N`, where anything that is not a positive whole number is the first page. */
  function RequestedPage(text: Option<string>): (page: nat)
    ensures page >= 1
  {
    if text.Some? && text.value != "" && AllDigits(text.value) && text.value[0] != '0' then
      PrintOfValue(text.value);
      Value(text.value)
    else 1
  }

  function ReleasePage(releases: seq<Release>, kind: Option<Kind>, requested: Option<string>): seq<Release> {
    PageOf(Listed(releases, kind), RequestedPage(requested), PAGE_SIZE)
  }

  /** The index of the first release of that date, or -1. */
  function FindDate(releases: seq<Release>, date: string): (i: int)
    ensures -1 <= i < |releases|
    ensures forall j | 0 <= j < i :: releases[j].date != date
  {
    if releases == [] then -1
    else if releases[0].date == date then 0
    else
      var i := FindDate(releases[1..], date);
      if i < 0 then -1 else i + 1
  }

  /** The `page` that the link to a release asks for. */
  function LinkedPage(releases: seq<Release>, date: string): Option<string> {
    var page := FindDate(releases, date) / PAGE_SIZE + 1;
    if page > 1 then Some(PrintInt(page)) else None
  }

  ghost predicate DistinctDates(releases: seq<Release>) {
    forall i, j | 0 <= i < j < |releases| :: releases[i].date != releases[j].date
  }

  ghost predicate Dated(releases: seq<Release>, date: string) {
    exists i :: 0 <= i < |releases| && releases[i].date == date
  }

  lemma {:induction false} FindsDate(releases: seq<Release>, i: nat)
    requires i < |releases| && DistinctDates(releases)
    ensures FindDate(releases, releases[i].date) == i
  {
    if i > 0 {
      FindsDate(releases[1..], i - 1);
    }
  }

  lemma LinkedPageIs(releases: seq<Release>, date: string)
    requires FindDate(releases, date) >= 0
    ensures RequestedPage(LinkedPage(releases, date)) == FindDate(releases, date) / PAGE_SIZE + 1
  {
    ValueOfPrint(FindDate(releases, date) / PAGE_SIZE + 1);
  }

  lemma LinkedPageReads(releases: seq<Release>, i: nat)
    requires i < |releases| && DistinctDates(releases)
    ensures RequestedPage(LinkedPage(releases, releases[i].date)) == i / PAGE_SIZE + 1
  {
    FindsDate(releases, i);
    LinkedPageIs(releases, releases[i].date);
  }

  lemma {:induction false} ListedSplits(before: seq<Release>, after: seq<Release>, kind: Option<Kind>)
    ensures Listed(before + after, kind) == Listed(before, kind) + Listed(after, kind)
  {
    if before == [] {
      assert before + after == after;
    } else {
      assert (before + after)[1..] == before[1..] + after;
      ListedSplits(before[1..], after, kind);
    }
  }

  /** A filtered list has the dates of the releases it is made of, and no other. */
  lemma {:induction false} ListedDates(releases: seq<Release>, kind: Option<Kind>, k: nat)
    requires k < |Listed(releases, kind)|
    ensures Dated(releases, Listed(releases, kind)[k].date)
  {
    var first := releases[0].(changes := OfKind(releases[0].changes, kind));
    if first.changes != [] && k == 0 {
      assert releases[0].date == Listed(releases, kind)[0].date;
    } else {
      var rest := if first.changes == [] then k else k - 1;
      ListedDates(releases[1..], kind, rest);
      var i :| 0 <= i < |releases| - 1 && releases[1..][i].date == Listed(releases[1..], kind)[rest].date;
      assert releases[i + 1].date == Listed(releases, kind)[k].date;
    }
  }

  lemma ListedOne(release: Release, kind: Option<Kind>)
    ensures Listed([release], kind) ==
            var changes := OfKind(release.changes, kind);
            if changes == [] then [] else [release.(changes := changes)]
  {
    assert [release][1..] == [];
  }

  /** The listed releases: those before `i`, the release itself if it is listed, and those after. */
  lemma ListedAround(releases: seq<Release>, kind: Option<Kind>, i: nat)
    requires i < |releases|
    ensures Listed(releases, kind) ==
            Listed(releases[..i], kind) + Listed([releases[i]], kind) + Listed(releases[i + 1..], kind)
  {
    var before, here, after := releases[..i], [releases[i]], releases[i + 1..];
    assert releases == before + here + after;
    ListedSplits(before + here, after, kind);
    ListedSplits(before, here, kind);
  }

  lemma DatedNowhereElse(releases: seq<Release>, i: nat)
    requires i < |releases| && DistinctDates(releases)
    ensures !Dated(releases[..i], releases[i].date) && !Dated(releases[i + 1..], releases[i].date)
  {
  }

  /** A release is listed once, after the releases before it that are listed, if it has such a change at all. */
  lemma ListedAt(releases: seq<Release>, kind: Option<Kind>, i: nat, k: nat)
    requires i < |releases| && DistinctDates(releases) && k < |Listed(releases, kind)|
    ensures Listed(releases, kind)[k].date == releases[i].date <==>
              k == |Listed(releases[..i], kind)| && OfKind(releases[i].changes, kind) != []
  {
    var before, here := Listed(releases[..i], kind), Listed([releases[i]], kind);
    ListedAround(releases, kind, i);
    ListedOne(releases[i], kind);
    DatedNowhereElse(releases, i);
    if k < |before| {
      ListedDates(releases[..i], kind, k);
    } else if k >= |before| + |here| {
      ListedDates(releases[i + 1..], kind, k - |before| - |here|);
    }
  }

  lemma {:induction false} AllChanges(changes: seq<Change>)
    ensures OfKind(changes, None) == changes
  {
    if changes != [] {
      AllChanges(changes[1..]);
    }
  }

  lemma ShownIsListed(releases: seq<Release>, i: nat, page: nat)
    requires i < |releases| && DistinctDates(releases) && page >= 1
    requires Dated(PageOf(Listed(releases, None), page, PAGE_SIZE), releases[i].date)
    ensures releases[i].changes != [] && page == |Listed(releases[..i], None)| / PAGE_SIZE + 1
  {
    var list := Listed(releases, None);
    var shown, first := PageOf(list, page, PAGE_SIZE), Min((page - 1) * PAGE_SIZE, |list|);
    var k :| 0 <= k < |shown| && shown[k].date == releases[i].date;
    assert shown[k] == list[first + k];
    ListedAt(releases, None, i, first + k);
    AllChanges(releases[i].changes);
    PageOfRow(first + k, PAGE_SIZE, page);
  }

  lemma MemberDated(shown: seq<Release>, release: Release)
    requires release in shown
    ensures Dated(shown, release.date)
  {
  }

  lemma ListedIsShown(releases: seq<Release>, i: nat)
    requires i < |releases| && DistinctDates(releases) && releases[i].changes != []
    ensures Dated(PageOf(Listed(releases, None), |Listed(releases[..i], None)| / PAGE_SIZE + 1, PAGE_SIZE),
                  releases[i].date)
  {
    var e, list := |Listed(releases[..i], None)|, Listed(releases, None);
    AllChanges(releases[i].changes);
    ListedThere(releases, i);
    ListedAt(releases, None, i, e);
    OnItsPage(list, e, PAGE_SIZE);
    MemberDated(PageOf(list, e / PAGE_SIZE + 1, PAGE_SIZE), list[e]);
  }

  ghost predicate Shows(releases: seq<Release>, page: nat, date: string)
    requires page >= 1
  {
    Dated(PageOf(Listed(releases, None), page, PAGE_SIZE), date)
  }

  /** A page shows the release exactly when it is listed, and at a place on that page. */
  lemma PageShows(releases: seq<Release>, i: nat, page: nat)
    requires i < |releases| && DistinctDates(releases) && page >= 1
    ensures Shows(releases, page, releases[i].date) <==>
              releases[i].changes != [] && page == |Listed(releases[..i], None)| / PAGE_SIZE + 1
  {
    if Shows(releases, page, releases[i].date) {
      ShownIsListed(releases, i, page);
    } else if releases[i].changes != [] {
      ListedIsShown(releases, i);
    }
  }

  /**
   * The link to a release lands on a page that shows it exactly when the release has a change and
   * the empty releases before it do not move it to an earlier page.
   */
  lemma LinksLand(releases: seq<Release>, i: nat)
    requires i < |releases| && DistinctDates(releases)
    ensures Dated(ReleasePage(releases, None, LinkedPage(releases, releases[i].date)), releases[i].date) <==>
              releases[i].changes != [] && |Listed(releases[..i], None)| / PAGE_SIZE == i / PAGE_SIZE
  {
    LinkedPageReads(releases, i);
    PageShows(releases, i, i / PAGE_SIZE + 1);
  }

  /** The `k`-th listed release is one with a change, after that many others. */
  lemma {:induction false} ListedFrom(releases: seq<Release>, k: nat) returns (i: nat)
    requires k < |Listed(releases, None)|
    ensures i < |releases| && releases[i].changes != []
    ensures k == |Listed(releases[..i], None)| && Listed(releases, None)[k] == releases[i]
  {
    AllChanges(releases[0].changes);
    if releases[0].changes != [] && k == 0 {
      i := 0;
      assert releases[..0] == [];
    } else {
      i := ListedFrom(releases[1..], if releases[0].changes == [] then k else k - 1);
      i := i + 1;
      assert releases[..i][1..] == releases[1..][..i - 1];
    }
  }

  lemma ListedThere(releases: seq<Release>, i: nat)
    requires i < |releases| && releases[i].changes != []
    ensures |Listed(releases[..i], None)| < |Listed(releases, None)|
    ensures Listed(releases, None)[|Listed(releases[..i], None)|] == releases[i]
  {
    ListedAround(releases, None, i);
    ListedOne(releases[i], None);
    AllChanges(releases[i].changes);
  }

  /** A release of the date has a change, and its place among those that have is on the page. */
  ghost predicate OnPage(releases: seq<Release>, i: nat, page: nat, date: string)
    requires i < |releases|
  {
    releases[i].date == date && releases[i].changes != [] && page == |Listed(releases[..i], None)| / PAGE_SIZE + 1
  }

  ghost predicate SomeOnPage(releases: seq<Release>, page: nat, date: string) {
    exists i :: 0 <= i < |releases| && OnPage(releases, i, page, date)
  }

  lemma ShownIsOnPage(releases: seq<Release>, page: nat, date: string) returns (i: nat)
    requires page >= 1 && Dated(PageOf(Listed(releases, None), page, PAGE_SIZE), date)
    ensures i < |releases| && OnPage(releases, i, page, date)
  {
    var list := Listed(releases, None);
    var shown, first := PageOf(list, page, PAGE_SIZE), Min((page - 1) * PAGE_SIZE, |list|);
    var k :| 0 <= k < |shown| && shown[k].date == date;
    assert shown[k] == list[first + k];
    i := ListedFrom(releases, first + k);
    PageOfRow(first + k, PAGE_SIZE, page);
  }

  lemma OnPageIsShown(releases: seq<Release>, i: nat, page: nat, date: string)
    requires page >= 1 && i < |releases| && OnPage(releases, i, page, date)
    ensures Dated(PageOf(Listed(releases, None), page, PAGE_SIZE), date)
  {
    var list, e := Listed(releases, None), |Listed(releases[..i], None)|;
    ListedThere(releases, i);
    OnItsPage(list, e, PAGE_SIZE);
    MemberDated(PageOf(list, page, PAGE_SIZE), list[e]);
  }

  /** A link asks for the page of the first release of its date, and for the first page if there is none. */
  lemma LinkAsksFor(releases: seq<Release>, date: string)
    ensures RequestedPage(LinkedPage(releases, date)) ==
            if FindDate(releases, date) < 0 then 1 else FindDate(releases, date) / PAGE_SIZE + 1
  {
    if FindDate(releases, date) >= 0 {
      LinkedPageIs(releases, date);
    }
  }

  lemma ShowsExactly(releases: seq<Release>, page: nat, date: string)
    requires page >= 1
    ensures Dated(PageOf(Listed(releases, None), page, PAGE_SIZE), date) <==> SomeOnPage(releases, page, date)
  {
    if Dated(PageOf(Listed(releases, None), page, PAGE_SIZE), date) {
      var i := ShownIsOnPage(releases, page, date);
    }
    if i :| 0 <= i < |releases| && OnPage(releases, i, page, date) {
      OnPageIsShown(releases, i, page, date);
    }
  }

  lemma UndatedIsNowhere(releases: seq<Release>, page: nat, date: string)
    requires FindDate(releases, date) < 0
    ensures !SomeOnPage(releases, page, date)
  {
    if Dated(releases, date) {
      FindsDated(releases, date);
    }
  }

  /**
   * In any list, dates repeated or missing, the link to a date lands on a page that shows the date
   * exactly when some release of the date has a change and is, among those that have, on the page
   * of the first release of the date.
   */
  lemma LinksLandExactly(releases: seq<Release>, date: string)
    ensures Dated(ReleasePage(releases, None, LinkedPage(releases, date)), date) <==>
              SomeOnPage(releases, FindDate(releases, date) / PAGE_SIZE + 1, date)
  {
    LinkAsksFor(releases, date);
    ShowsExactly(releases, RequestedPage(LinkedPage(releases, date)), date);
    if FindDate(releases, date) < 0 {
      UndatedIsNowhere(releases, 0, date);
      UndatedIsNowhere(releases, 1, date);
    }
  }

  lemma {:induction false} NothingEmpty(releases: seq<Release>)
    requires forall i | 0 <= i < |releases| :: releases[i].changes != []
    ensures Listed(releases, None) == releases
  {
    if releases != [] {
      AllChanges(releases[0].changes);
      NothingEmpty(releases[1..]);
    }
  }

  lemma {:induction false} FindsDated(releases: seq<Release>, date: string)
    requires Dated(releases, date)
    ensures FindDate(releases, date) >= 0 && releases[FindDate(releases, date)].date == date
  {
    if releases[0].date != date {
      var i :| 0 <= i < |releases| && releases[i].date == date;
      assert releases[1..][i - 1].date == date;
      FindsDated(releases[1..], date);
    }
  }

  lemma LandsAt(releases: seq<Release>, i: nat, requested: Option<string>)
    requires i < |releases| && Listed(releases, None) == releases && RequestedPage(requested) == i / PAGE_SIZE + 1
    ensures Dated(ReleasePage(releases, None, requested), releases[i].date)
  {
    OnItsPage(releases, i, PAGE_SIZE);
    MemberDated(PageOf(releases, i / PAGE_SIZE + 1, PAGE_SIZE), releases[i]);
  }

  /** So when every release has a change, every link lands on a release of its date. */
  lemma AllLinksLand(releases: seq<Release>, date: string)
    requires Dated(releases, date) && forall j | 0 <= j < |releases| :: releases[j].changes != []
    ensures Dated(ReleasePage(releases, None, LinkedPage(releases, date)), date)
  {
    FindsDated(releases, date);
    LinkedPageIs(releases, date);
    NothingEmpty(releases);
    LandsAt(releases, FindDate(releases, date), LinkedPage(releases, date));
  }

  // ---- What a page holds ---------------------------------------------------------

  lemma FivesOf<T>(list: seq<T>, page: nat)
    requires page >= 1
    ensures 5 * page <= |list| ==> PageOf(list, page, 5) == list[5 * page - 5..5 * page]
    ensures 5 * page - 5 <= |list| < 5 * page ==> PageOf(list, page, 5) == list[5 * page - 5..]
    ensures |list| < 5 * page - 5 ==> PageOf(list, page, 5) == []
  {
  }

  /** A page holds five of the listed releases, those after the pages before it. */
  lemma PageHolds(releases: seq<Release>, kind: Option<Kind>, requested: Option<string>)
    ensures var list, page := Listed(releases, kind), RequestedPage(requested);
      && (5 * page <= |list| ==> ReleasePage(releases, kind, requested) == list[5 * page - 5..5 * page])
      && (5 * page - 5 <= |list| < 5 * page ==> ReleasePage(releases, kind, requested) == list[5 * page - 5..])
      && (|list| < 5 * page - 5 ==> ReleasePage(releases, kind, requested) == [])
  {
    FivesOf(Listed(releases, kind), RequestedPage(requested));
  }

  /** A page other than the first is asked for by its numeral, and every numeral asks for its page. */
  lemma PageAsked(text: string, page: nat)
    ensures RequestedPage(Some(text)) != 1 ==> text == Print(RequestedPage(Some(text)))
    ensures page >= 1 ==> RequestedPage(Some(Print(page))) == page
    ensures RequestedPage(None) == 1
  {
    if text != "" && AllDigits(text) && text[0] != '0' {
      PrintOfValue(text);
    }
    ValueOfPrint(page);
  }

  /** The changes of one kind, in their order, are those that have it. */
  lemma {:induction false} OfKindJoins(before: seq<Change>, after: seq<Change>, kind: Option<Kind>)
    ensures OfKind(before + after, kind) == OfKind(before, kind) + OfKind(after, kind)
  {
    if before == [] {
      assert before + after == after;
    } else {
      assert (before + after)[1..] == before[1..] + after;
      OfKindJoins(before[1..], after, kind);
    }
  }

  lemma OfKindIs(change: Change, kind: Kind)
    ensures OfKind([change], Some(kind)) == if change.kind == kind then [change] else []
    ensures OfKind([change], None) == [change]
  {
    assert [change][1..] == [];
  }
}
