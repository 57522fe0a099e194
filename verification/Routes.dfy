/** The canonical address of a page, and the redirects from the addresses it once had. */
module Routes {
  import opened Wrappers

  /** Single pages under a new address: nothing below them moves along. */
  const LEGACY_PAGES: map<string, string> := map[
    "/t" := "/tables",
    "/t/new" := "/tables/new",
    "/p" := "/partners",
    "/p/new" := "/partners/new",
    "/m" := "/messages",
    "/n" := "/notifications"]

  datatype Move = Move(legacy: string, canonical: string)

  /** Addresses that moved with everything below them. */
  const LEGACY_ROUTES: seq<Move> := [
    Move("/account/tables", "/u/tables"),
    Move("/account/profile", "/u/profile/edit"),
    Move("/account/invitations", "/u/profile/invitations"),
    Move("/account/connect", "/u/profile/connect"),
    Move("/account/export", "/u/profile/export"),
    Move("/cf", "/crowdfunding"),
    Move("/tables", "/t"),
    Move("/partners", "/p"),
    Move("/messages", "/m"),
    Move("/onboarding", "/u/profile/setup"),
    Move("/forgot-password", "/forgot"),
    Move("/reset-password", "/reset")]

  const CANONICAL: set<string> := {"/tables", "/tables/new", "/partners", "/partners/new", "/messages"}

  /** What a URL has for a path. */
  predicate IsAbsolute(path: string) {
    path != "" && path[0] == '/'
  }

  /** `path` is `head`, or below it. */
  predicate Under(path: string, head: string) {
    head <= path && (|path| == |head| || path[|head|] == '/')
  }

  predicate HasLocale(path: string) {
    Under(path, "/en") || Under(path, "/pt-BR")
  }

  /** `pathname.replace(/^\/(?:en|pt-BR)(?=\/|$)/, '') || '/'` */
  function Unprefixed(path: string): string {
    var rest := if Under(path, "/en") then path[3..] else if Under(path, "/pt-BR") then path[6..] else path;
    if rest == "" then "/" else rest
  }

  predicate DoubleSlash(path: string) {
    |path| >= 2 && path[0] == '/' && path[1] == '/'
  }

  /** The path without one locale, unless that would make it another host's address. */
  function Stripped(path: string): string {
    if DoubleSlash(Unprefixed(path)) then path else Unprefixed(path)
  }

  function Scan(path: string, moves: seq<Move>): string {
    if moves == [] then path
    else if Under(path, moves[0].legacy) then moves[0].canonical + path[|moves[0].legacy|..]
    else Scan(path, moves[1..])
  }

  function Rewrite(path: string): string {
    if path in CANONICAL then path
    else if path in LEGACY_PAGES then LEGACY_PAGES[path]
    else Scan(path, LEGACY_ROUTES)
  }

  function CanonicalPath(path: string): string {
    Rewrite(Stripped(path))
  }

  datatype Redirect = Redirect(status: nat, location: string)

  /** Only reads redirect, and only where the path changes; the query and the fragment are kept. */
  function LegacyRedirect(path: string, search: string, hash: string, verb: string): Option<Redirect> {
    if verb != "GET" && verb != "HEAD" then None
    else if CanonicalPath(path) == path then None
    else Some(Redirect(308, CanonicalPath(path) + search + hash))
  }

  // ---- At most one move applies ------------------------------------------------

  lemma UnderAt(path: string, head: string, k: nat)
    requires Under(path, head) && k < |head|
    ensures k < |path| && path[k] == head[k]
  {
  }

  /** What the second character, and the tenth under `/account/`, say of a path that a move applies to. */
  predicate Marked(path: string, i: nat)
    requires i < |LEGACY_ROUTES|
  {
    |path| >= 3 && path[0] == '/' &&
    if i < 5 then |path| >= 10 && path[1] == 'a' && path[9] == "tpice"[i]
    else path[1] == "ctpmofr"[i - 5] && path[2] == "faaenoe"[i - 5]
  }

  lemma UnderIsMarked(path: string, i: nat)
    requires i < |LEGACY_ROUTES| && Under(path, LEGACY_ROUTES[i].legacy)
    ensures Marked(path, i)
  {
    var head := LEGACY_ROUTES[i].legacy;
    UnderAt(path, head, 0);
    UnderAt(path, head, 1);
    UnderAt(path, head, 2);
    if i < 5 {
      UnderAt(path, head, 9);
    }
  }

  lemma MarkedOnce(path: string, i: nat, j: nat)
    requires i < |LEGACY_ROUTES| && j < |LEGACY_ROUTES| && Marked(path, i) && Marked(path, j)
    ensures i == j
  {
  }

  /** No path is under two entries of the table, so their order does not matter. */
  lemma OneMoveAtMost(path: string, i: nat, j: nat)
    requires i < |LEGACY_ROUTES| && j < |LEGACY_ROUTES|
    requires Under(path, LEGACY_ROUTES[i].legacy) && Under(path, LEGACY_ROUTES[j].legacy)
    ensures i == j
  {
    UnderIsMarked(path, i);
    UnderIsMarked(path, j);
    MarkedOnce(path, i, j);
  }

  lemma {:induction false} ScanMisses(path: string, moves: seq<Move>)
    requires forall i | 0 <= i < |moves| :: !Under(path, moves[i].legacy)
    ensures Scan(path, moves) == path
  {
    if moves != [] {
      ScanMisses(path, moves[1..]);
    }
  }

  lemma {:induction false} ScanHits(path: string, moves: seq<Move>, i: nat)
    requires i < |moves| && Under(path, moves[i].legacy)
    requires forall k | 0 <= k < i :: !Under(path, moves[k].legacy)
    ensures Scan(path, moves) == moves[i].canonical + path[|moves[i].legacy|..]
  {
    if i > 0 {
      assert moves[1..][i - 1] == moves[i];
      ScanHits(path, moves[1..], i - 1);
    }
  }

  /** A path under any entry moves there, with what is below it unchanged. */
  lemma ScanMoves(path: string, i: nat)
    requires i < |LEGACY_ROUTES| && Under(path, LEGACY_ROUTES[i].legacy)
    ensures Scan(path, LEGACY_ROUTES) == LEGACY_ROUTES[i].canonical + path[|LEGACY_ROUTES[i].legacy|..]
  {
    forall k | 0 <= k < i ensures !Under(path, LEGACY_ROUTES[k].legacy) {
      if Under(path, LEGACY_ROUTES[k].legacy) {
        OneMoveAtMost(path, k, i);
      }
    }
    ScanHits(path, LEGACY_ROUTES, i);
  }

  // ---- Chains end ----------------------------------------------------------------

  /** Nothing moves it. */
  ghost predicate Unmoved(path: string) {
    && path !in LEGACY_PAGES
    && forall i | 0 <= i < |LEGACY_ROUTES| :: !Under(path, LEGACY_ROUTES[i].legacy)
  }

  lemma UnmovedStays(path: string)
    requires path in CANONICAL || Unmoved(path)
    ensures Rewrite(path) == path
  {
    if path !in CANONICAL {
      ScanMisses(path, LEGACY_ROUTES);
    }
  }

  lemma UnmarkedIsUnmoved(path: string)
    requires path !in LEGACY_PAGES && forall i | 0 <= i < |LEGACY_ROUTES| :: !Marked(path, i)
    ensures Unmoved(path)
  {
    forall i | 0 <= i < |LEGACY_ROUTES| ensures !Under(path, LEGACY_ROUTES[i].legacy) {
      if Under(path, LEGACY_ROUTES[i].legacy) {
        UnderIsMarked(path, i);
      }
    }
  }

  /** It begins with one slash and no locale. */
  predicate Plain(path: string) {
    |path| >= 2 && path[0] == '/' && path[1] != '/' && !HasLocale(path)
  }

  /** The tail of a moved path is empty, or begins with a slash. */
  predicate Tail(tail: string) {
    tail == "" || tail[0] == '/'
  }

  /** The second and third characters of a moved path. */
  lemma MoveHead(i: nat, tail: string)
    requires i < |LEGACY_ROUTES| && Tail(tail) && (6 <= i <= 8 ==> tail != "")
    ensures var out := LEGACY_ROUTES[i].canonical + tail;
      |out| >= 3 && out[0] == '/' && out[1] == "uuuuuctpmufr"[i] && out[2] == "/////r////oe"[i]
  {
    var canonical := LEGACY_ROUTES[i].canonical;
    if 6 <= i <= 8 {
      assert |canonical| == 2 && (canonical + tail)[2] == tail[0];
    }
  }

  /** Neither a locale nor a page starts like a moved path that does not keep its letter. */
  lemma HeadLands(out: string, i: nat)
    requires i < |LEGACY_ROUTES| && |out| >= 3 && out[0] == '/'
    requires out[1] == "uuuuuctpmufr"[i] && out[2] == "/////r////oe"[i]
    ensures Plain(out)
    ensures !(6 <= i <= 8) ==> out !in LEGACY_PAGES
  {
  }

  lemma MoveLands(i: nat, tail: string)
    requires i < |LEGACY_ROUTES| && Tail(tail)
    requires LEGACY_ROUTES[i].legacy + tail !in CANONICAL
    ensures 6 <= i <= 8 ==> tail != ""
    ensures Plain(LEGACY_ROUTES[i].canonical + tail)
    ensures LEGACY_ROUTES[i].canonical + tail !in LEGACY_PAGES
  {
    if 6 <= i <= 8 {
      LetterLands(i, tail);
    }
    MoveHead(i, tail);
    HeadLands(LEGACY_ROUTES[i].canonical + tail, i);
  }

  lemma LetterLands(i: nat, tail: string)
    requires 6 <= i <= 8 && Tail(tail)
    requires LEGACY_ROUTES[i].legacy + tail !in CANONICAL
    ensures tail != "" && LEGACY_ROUTES[i].canonical + tail !in LEGACY_PAGES
  {
    var legacy := LEGACY_ROUTES[i].legacy;
    assert tail == "" ==> legacy + tail == legacy;
    if tail == "/new" {
      assert i == 6 ==> legacy + tail == "/tables/new";
      assert i == 7 ==> legacy + tail == "/partners/new";
      assert i == 8 ==> LEGACY_ROUTES[i].canonical + tail == "/m/new";
    } else {
      assert (LEGACY_ROUTES[i].canonical + tail)[2..] == tail;
    }
  }

  /** Only `/forgot` and `/reset` still look like the entry they come from. */
  lemma MoveMarks(i: nat, tail: string, j: nat)
    requires i < |LEGACY_ROUTES| && j < |LEGACY_ROUTES| && Tail(tail) && (6 <= i <= 8 ==> tail != "")
    requires Marked(LEGACY_ROUTES[i].canonical + tail, j)
    ensures i == j && i >= 10
  {
    MoveHead(i, tail);
  }

  lemma MoveRests(i: nat, tail: string, j: nat)
    requires i < |LEGACY_ROUTES| && j < |LEGACY_ROUTES| && Tail(tail)
    requires LEGACY_ROUTES[i].legacy + tail !in CANONICAL
    ensures !Under(LEGACY_ROUTES[i].canonical + tail, LEGACY_ROUTES[j].legacy)
  {
    var out := LEGACY_ROUTES[i].canonical + tail;
    if Under(out, LEGACY_ROUTES[j].legacy) {
      MoveLands(i, tail);
      UnderIsMarked(out, j);
      MoveMarks(i, tail, j);
      UnderAt(out, LEGACY_ROUTES[j].legacy, if j == 10 then 7 else 6);
    }
  }

  lemma Moved(path: string, i: nat)
    requires path !in CANONICAL && path !in LEGACY_PAGES
    requires i < |LEGACY_ROUTES| && Under(path, LEGACY_ROUTES[i].legacy)
    ensures Plain(Rewrite(path)) && Unmoved(Rewrite(path))
  {
    var legacy := LEGACY_ROUTES[i].legacy;
    var tail := path[|legacy|..];
    assert path == legacy + tail;
    ScanMoves(path, i);
    MoveLands(i, tail);
    forall j | 0 <= j < |LEGACY_ROUTES| ensures !Under(Rewrite(path), LEGACY_ROUTES[j].legacy) {
      MoveRests(i, tail, j);
    }
  }

  /** A page whose address changed whole has a canonical one, or one that nothing moves. */
  lemma PageLands(path: string)
    requires path in LEGACY_PAGES
    ensures Plain(LEGACY_PAGES[path]) && (LEGACY_PAGES[path] in CANONICAL || Unmoved(LEGACY_PAGES[path]))
  {
    if LEGACY_PAGES[path] == "/notifications" {
      UnmarkedIsUnmoved("/notifications");
    }
  }

  lemma OneMoves(path: string) returns (i: nat)
    requires path !in CANONICAL && path !in LEGACY_PAGES && Rewrite(path) != path
    ensures i < |LEGACY_ROUTES| && Under(path, LEGACY_ROUTES[i].legacy)
  {
    if forall k | 0 <= k < |LEGACY_ROUTES| :: !Under(path, LEGACY_ROUTES[k].legacy) {
      ScanMisses(path, LEGACY_ROUTES);
    }
    i :| 0 <= i < |LEGACY_ROUTES| && Under(path, LEGACY_ROUTES[i].legacy);
  }

  /** Where a path is sent, it stays, and it is an address on this host without a locale. */
  lemma RewriteLands(path: string)
    requires Rewrite(path) != path
    ensures Plain(Rewrite(path)) && Rewrite(Rewrite(path)) == Rewrite(path)
  {
    if path in LEGACY_PAGES {
      PageLands(path);
    } else {
      var i := OneMoves(path);
      Moved(path, i);
    }
    UnmovedStays(Rewrite(path));
  }

  /** How many locales come off the front before the path is empty of them, or would leave the host. */
  function Locales(path: string): nat
    decreases |path|
  {
    if HasLocale(path) && !DoubleSlash(Unprefixed(path)) then 1 + Locales(Unprefixed(path)) else 0
  }

  /** The path without them. */
  function Bare(path: string): string
    decreases |path|
  {
    if HasLocale(path) && !DoubleSlash(Unprefixed(path)) then Bare(Unprefixed(path)) else path
  }

  function Iterate(step: string -> string, path: string, n: nat): string {
    if n == 0 then path else step(Iterate(step, path, n - 1))
  }

  /** Where `n` redirects in a row lead. */
  function Followed(path: string, n: nat): string {
    Iterate(CanonicalPath, path, n)
  }

  /** A locale that was not stripped protects the path from every other rule. */
  lemma LocaleRests(path: string)
    requires HasLocale(path)
    ensures Rewrite(path) == path
  {
    assert path[1] == 'e' || (path[1] == 'p' && path[2] == 't');
    assert |path| >= 3;
    assert path !in LEGACY_PAGES;
    UnmarkedIsUnmoved(path);
    UnmovedStays(path);
  }

  /** One step takes one locale off, and applies the tables only once none is left to take. */
  lemma OneStep(path: string)
    requires path != ""
    ensures Locales(path) <= 1 ==> CanonicalPath(path) == Rewrite(Bare(path))
    ensures Locales(path) >= 1 ==> Unprefixed(path) != "" && Bare(path) == Bare(Unprefixed(path))
    ensures Locales(path) >= 1 ==> Locales(Unprefixed(path)) == Locales(path) - 1
    ensures Locales(path) >= 2 ==> CanonicalPath(path) == Unprefixed(path) != path
  {
    if Locales(path) >= 2 {
      LocaleRests(Unprefixed(path));
    } else if Locales(path) == 1 {
      assert Locales(Unprefixed(path)) == 0;
    }
  }

  lemma {:induction false} BareIsBare(path: string)
    requires path != ""
    ensures Locales(Bare(path)) == 0 && Bare(path) != ""
    decreases |path|
  {
    if Locales(path) > 0 {
      BareIsBare(Unprefixed(path));
    }
  }

  lemma RewrittenStays(path: string)
    requires Locales(path) == 0 && path != ""
    ensures Locales(Rewrite(path)) == 0 && CanonicalPath(Rewrite(path)) == Rewrite(path)
  {
    if Rewrite(path) != path {
      RewriteLands(path);
    }
    OneStep(Rewrite(path));
  }

  /**
   * A step takes one of those left off `p` and keeps what will be bare in the end; with the last
   * one, or without any, it gives the end of the bare path, where it stays.
   */
  ghost predicate ChainsAt(step: string -> string, left: string -> nat, bare: string -> string, end: string -> string,
                           p: string)
  {
    && (left(p) >= 2 ==> step(p) != "" && left(step(p)) == left(p) - 1 && bare(step(p)) == bare(p))
    && (left(p) <= 1 ==> step(p) == end(bare(p)))
    && step(end(bare(p))) == end(bare(p))
  }

  ghost predicate Chains(step: string -> string, left: string -> nat, bare: string -> string, end: string -> string) {
    forall p | p != "" :: ChainsAt(step, left, bare, end, p)
  }

  lemma {:induction false} Descent(step: string -> string, left: string -> nat, bare: string -> string,
                                   end: string -> string, path: string, n: nat)
    requires Chains(step, left, bare, end) && path != "" && n < left(path)
    ensures Iterate(step, path, n) != "" && bare(Iterate(step, path, n)) == bare(path)
    ensures left(Iterate(step, path, n)) == left(path) - n
  {
    if n > 0 {
      Descent(step, left, bare, end, path, n - 1);
      assert ChainsAt(step, left, bare, end, Iterate(step, path, n - 1));
    }
  }

  lemma {:induction false} Landing(step: string -> string, left: string -> nat, bare: string -> string,
                                   end: string -> string, path: string, n: nat)
    requires Chains(step, left, bare, end) && path != "" && n >= 1 && n >= left(path)
    ensures Iterate(step, path, n) == end(bare(path))
  {
    assert ChainsAt(step, left, bare, end, path);
    if n > 1 && n > left(path) {
      Landing(step, left, bare, end, path, n - 1);
    } else if n > 1 {
      Descent(step, left, bare, end, path, n - 1);
      assert ChainsAt(step, left, bare, end, Iterate(step, path, n - 1));
    } else {
      assert Iterate(step, path, 0) == path;
    }
  }

  /** One redirect after the other is such a chain. */
  lemma RedirectsChain()
    ensures Chains(CanonicalPath, Locales, Bare, Rewrite)
  {
    forall p | p != "" ensures ChainsAt(CanonicalPath, Locales, Bare, Rewrite, p) {
      OneStep(p);
      StaysBare(p);
    }
  }

  lemma StaysBare(path: string)
    requires path != ""
    ensures CanonicalPath(Rewrite(Bare(path))) == Rewrite(Bare(path))
  {
    BareIsBare(path);
    RewrittenStays(Bare(path));
  }

  /** Taking the last locale off moves the path, whatever the tables then do. */
  lemma BareMoved(path: string)
    requires path != "" && Locales(path) >= 1
    ensures Rewrite(Bare(path)) != path
  {
    BareIsBare(path);
    RewrittenStays(Bare(path));
  }

  lemma StillMoves(path: string)
    requires path != "" && Locales(path) >= 1
    ensures CanonicalPath(path) != path
  {
    OneStep(path);
    if Locales(path) == 1 {
      BareMoved(path);
    }
  }

  /** While there are locales, each redirect takes one. */
  lemma Chain(path: string, n: nat)
    requires IsAbsolute(path) && n < Locales(path)
    ensures Followed(path, n) != "" && Bare(Followed(path, n)) == Bare(path)
    ensures Locales(Followed(path, n)) == Locales(path) - n
  {
    RedirectsChain();
    Descent(CanonicalPath, Locales, Bare, Rewrite, path, n);
  }

  /**
   * A chain of redirects ends at the canonical address of the bare path after as many steps as
   * there are locales, and one at the least; before that it is still moving.
   */
  lemma ChainsEnd(path: string, n: nat)
    requires IsAbsolute(path) && n >= 1
    ensures CanonicalPath(Followed(path, n)) == Followed(path, n) <==> n >= Locales(path)
    ensures n >= Locales(path) ==> Followed(path, n) == Rewrite(Bare(path))
  {
    if n >= Locales(path) {
      RedirectsChain();
      Landing(CanonicalPath, Locales, Bare, Rewrite, path, n);
      StaysBare(path);
    } else {
      Chain(path, n);
      StillMoves(Followed(path, n));
    }
  }

  /** `canonicalPath` is idempotent exactly on the paths with at most one locale to take. */
  lemma IdempotentExactly(path: string)
    requires IsAbsolute(path)
    ensures CanonicalPath(CanonicalPath(path)) == CanonicalPath(path) <==> Locales(path) <= 1
  {
    ChainsEnd(path, 1);
    assert Followed(path, 1) == CanonicalPath(Followed(path, 0));
  }

  // ---- Where each address goes -------------------------------------------------------

  /** One locale comes off, up to the slash behind it or the end, unless two slashes would be left in front. */
  lemma LocaleComesOff(tail: string)
    requires Tail(tail)
    ensures Stripped("/en" + tail) == if tail == "" then "/" else if DoubleSlash(tail) then "/en" + tail else tail
    ensures Stripped("/pt-BR" + tail) == if tail == "" then "/" else if DoubleSlash(tail) then "/pt-BR" + tail else tail
  {
    assert ("/en" + tail)[3..] == tail;
    assert ("/pt-BR" + tail)[6..] == tail;
  }

  /** So a locale in front of an address counts one, and goes where the address without it goes. */
  lemma LocaleCounts(tail: string)
    requires Tail(tail) && tail != "" && !DoubleSlash(tail)
    ensures Locales("/en" + tail) == Locales(tail) + 1 && Bare("/en" + tail) == Bare(tail)
    ensures Locales("/pt-BR" + tail) == Locales(tail) + 1 && Bare("/pt-BR" + tail) == Bare(tail)
  {
    assert ("/en" + tail)[3..] == tail;
    assert ("/pt-BR" + tail)[6..] == tail;
  }

  /** What merely starts like a locale keeps it. */
  lemma NoLocaleStays(more: string)
    requires more != "" && more[0] != '/'
    ensures Stripped("/en" + more) == "/en" + more && Stripped("/pt-BR" + more) == "/pt-BR" + more
  {
    assert ("/en" + more)[1] == 'e' && ("/en" + more)[3] == more[0];
    assert ("/pt-BR" + more)[1] == 'p' && ("/pt-BR" + more)[6] == more[0];
  }

  lemma MarkedIsNoPage(path: string, i: nat)
    requires i < |LEGACY_ROUTES| && Marked(path, i)
    ensures path !in LEGACY_PAGES
  {
  }

  lemma MovesTo(path: string, i: nat, legacy: string, canonical: string, tail: string)
    requires i < |LEGACY_ROUTES| && LEGACY_ROUTES[i] == Move(legacy, canonical)
    requires path == legacy + tail && Tail(tail) && path !in CANONICAL
    ensures Rewrite(path) == canonical + tail
  {
    assert path[|legacy|..] == tail;
    UnderIsMarked(path, i);
    MarkedIsNoPage(path, i);
    ScanMoves(path, i);
  }

  /** Account pages live under the profile now, with all that is below them. */
  lemma AccountMoves(tail: string)
    requires Tail(tail)
    ensures Rewrite("/account/tables" + tail) == "/u/tables" + tail
    ensures Rewrite("/account/profile" + tail) == "/u/profile/edit" + tail
    ensures Rewrite("/account/invitations" + tail) == "/u/profile/invitations" + tail
    ensures Rewrite("/account/connect" + tail) == "/u/profile/connect" + tail
    ensures Rewrite("/account/export" + tail) == "/u/profile/export" + tail
  {
    AccountMovesTo("/account/tables", 0, "/u/tables", tail);
    AccountMovesTo("/account/profile", 1, "/u/profile/edit", tail);
    AccountMovesTo("/account/invitations", 2, "/u/profile/invitations", tail);
    AccountMovesTo("/account/connect", 3, "/u/profile/connect", tail);
    AccountMovesTo("/account/export", 4, "/u/profile/export", tail);
  }

  lemma AccountMovesTo(legacy: string, i: nat, canonical: string, tail: string)
    requires i < 5 && LEGACY_ROUTES[i] == Move(legacy, canonical) && |legacy| > 1 && legacy[1] == 'a' && Tail(tail)
    ensures Rewrite(legacy + tail) == canonical + tail
  {
    assert (legacy + tail)[1] == 'a';
    MovesTo(legacy + tail, i, legacy, canonical, tail);
  }

  /** An item keeps its letter: the words lead there, but for the lists and the forms themselves. */
  lemma ItemsMove(tail: string)
    requires Tail(tail) && tail != ""
    ensures tail != "/new" ==> Rewrite("/tables" + tail) == "/t" + tail
    ensures tail != "/new" ==> Rewrite("/partners" + tail) == "/p" + tail
    ensures Rewrite("/messages" + tail) == "/m" + tail
  {
    if tail != "/new" {
      ItemIsNotCanonical("/tables", tail);
      ItemIsNotCanonical("/partners", tail);
      MovesTo("/tables" + tail, 6, "/tables", "/t", tail);
      MovesTo("/partners" + tail, 7, "/partners", "/p", tail);
    }
    assert ("/messages" + tail)[1] == 'm' && |"/messages" + tail| > 9;
    MovesTo("/messages" + tail, 8, "/messages", "/m", tail);
  }

  lemma ItemIsNotCanonical(word: string, tail: string)
    requires (word == "/tables" || word == "/partners") && tail != "" && tail != "/new"
    ensures word + tail !in CANONICAL
  {
    var path := word + tail;
    assert path[|word|..] == tail;
    assert path[1] == word[1];
    assert "/tables/new"[7..] == "/new" && "/partners/new"[9..] == "/new";
  }

  lemma OthersMove(tail: string)
    requires Tail(tail)
    ensures Rewrite("/cf" + tail) == "/crowdfunding" + tail
    ensures Rewrite("/onboarding" + tail) == "/u/profile/setup" + tail
    ensures Rewrite("/forgot-password" + tail) == "/forgot" + tail
    ensures Rewrite("/reset-password" + tail) == "/reset" + tail
  {
    OtherMovesTo("/cf", 5, "/crowdfunding", tail);
    OtherMovesTo("/onboarding", 9, "/u/profile/setup", tail);
    OtherMovesTo("/forgot-password", 10, "/forgot", tail);
    OtherMovesTo("/reset-password", 11, "/reset", tail);
  }

  lemma OtherMovesTo(legacy: string, i: nat, canonical: string, tail: string)
    requires i < |LEGACY_ROUTES| && LEGACY_ROUTES[i] == Move(legacy, canonical) && Tail(tail)
    requires |legacy| > 1 && legacy[1] != 't' && legacy[1] != 'p' && legacy[1] != 'm'
    ensures Rewrite(legacy + tail) == canonical + tail
  {
    assert (legacy + tail)[1] == legacy[1];
    MovesTo(legacy + tail, i, legacy, canonical, tail);
  }

  /** The letters alone are the old addresses of lists and forms, which stay where they are. */
  lemma PagesMove()
    ensures Rewrite("/t") == Rewrite("/tables") == "/tables"
    ensures Rewrite("/t/new") == Rewrite("/tables/new") == "/tables/new"
    ensures Rewrite("/p") == Rewrite("/partners") == "/partners"
    ensures Rewrite("/p/new") == Rewrite("/partners/new") == "/partners/new"
    ensures Rewrite("/m") == Rewrite("/messages") == "/messages"
    ensures Rewrite("/n") == "/notifications"
  {
  }

  /** A path that only starts like an old address is left alone. */
  lemma OnlyWholeSegments(i: nat, more: string)
    requires i < |LEGACY_ROUTES| && more != "" && more[0] != '/'
    ensures Rewrite(LEGACY_ROUTES[i].legacy + more) == LEGACY_ROUTES[i].legacy + more
  {
    var legacy := LEGACY_ROUTES[i].legacy;
    var path := legacy + more;
    assert Under(legacy, legacy);
    UnderIsMarked(legacy, i);
    assert Marked(path, i) && path[|legacy|] == more[0];
    MarkedIsNoPage(path, i);
    forall j | 0 <= j < |LEGACY_ROUTES| ensures !Under(path, LEGACY_ROUTES[j].legacy) {
      if Under(path, LEGACY_ROUTES[j].legacy) {
        UnderIsMarked(path, j);
        MarkedOnce(path, i, j);
      }
    }
    ScanMisses(path, LEGACY_ROUTES);
  }

  // ---- Where a redirect points -----------------------------------------------------

  /** What a URL holds: an absolute path, a query with its `?`, a fragment with its `#`. */
  predicate UrlParts(path: string, search: string, hash: string) {
    && IsAbsolute(path)
    && (search == "" || search[0] == '?')
    && (hash == "" || hash[0] == '#')
  }

  lemma StaysLocal(path: string, search: string, hash: string)
    requires UrlParts(path, search, hash) && !DoubleSlash(path)
    ensures "/" <= path + search + hash && !DoubleSlash(path + search + hash)
  {
    var location := path + search + hash;
    assert location[0] == path[0];
    if |path| >= 2 {
      assert location[1] == path[1];
    } else {
      assert path == "/";
      assert location[1..] == search + hash;
    }
  }

  lemma CanonicalIsLocal(path: string)
    requires IsAbsolute(path) && CanonicalPath(path) != path
    ensures CanonicalPath(path) != "" && CanonicalPath(path)[0] == '/' && !DoubleSlash(CanonicalPath(path))
  {
    if Rewrite(Stripped(path)) != Stripped(path) {
      RewriteLands(Stripped(path));
    }
  }

  /**
   * Reads redirect exactly when their path is not yet canonical; the location stays on this host,
   * and with at most one locale it is the canonical address at once.
   */
  lemma RedirectIsLocal(path: string, search: string, hash: string, verb: string)
    requires UrlParts(path, search, hash)
    ensures LegacyRedirect(path, search, hash, verb).Some? <==>
              (verb == "GET" || verb == "HEAD") && (Locales(path) > 0 || Rewrite(path) != path)
    ensures LegacyRedirect(path, search, hash, verb).Some? ==>
              var location := LegacyRedirect(path, search, hash, verb).value.location;
              && LegacyRedirect(path, search, hash, verb).value.status == 308
              && location == CanonicalPath(path) + search + hash
              && "/" <= location && !DoubleSlash(location)
              && (Locales(path) <= 1 ==> location == Rewrite(Bare(path)) + search + hash)
  {
    OneStep(path);
    if Locales(path) == 1 {
      BareMoved(path);
    }
    if CanonicalPath(path) != path {
      CanonicalIsLocal(path);
      StaysLocal(CanonicalPath(path), search, hash);
    }
  }
}
