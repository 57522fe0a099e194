/** URL slugs: the cut to length, and the search for a free one. */
module Slug {
  import opened Decimal
  import opened Sets

  const MAX_SLUG_LENGTH := 60

  const RESERVED_TABLE_SLUGS: set<string> := {"new", "edit"}

  function TrimLeft(s: string): string {
    if s != [] && s[0] == '-' then TrimLeft(s[1..]) else s
  }

  function TrimRight(s: string): string {
    if s != [] && s[|s| - 1] == '-' then TrimRight(s[..|s| - 1]) else s
  }

  /** `slug.replace(/^-+|-+$/g, '')` */
  function TrimDashes(slug: string): string {
    TrimRight(TrimLeft(slug))
  }

  /** `s.slice(0, end)`: a negative end counts from the end of the string. */
  function Slice(s: string, end: int): (r: string)
    ensures r <= s && (end >= 0 ==> |r| <= end)
  {
    var stop := if end >= 0 then end else |s| + end;
    s[..if stop < 0 then 0 else if stop < |s| then stop else |s|]
  }

  /** What `slugify` makes of the library's slug. */
  function Slugify(slug: string, fallback: string): string {
    var cut := TrimDashes(Slice(slug, MAX_SLUG_LENGTH));
    if cut == "" then fallback else cut
  }

  function Suffix(n: nat): string {
    "-" + Print(n)
  }

  /** The n-th candidate: the base cut so that its suffix fits. */
  function Candidate(base: string, n: nat): string {
    TrimDashes(Slice(base, MAX_SLUG_LENGTH - |Suffix(n)|)) + Suffix(n)
  }

  // ---- Termination -----------------------------------------------------------

  /** The digits after the last dash determine the number, whatever stands before. */
  lemma SameSuffix(p: string, m: nat, q: string, n: nat)
    requires p + Suffix(m) == q + Suffix(n)
    ensures m == n
  {
    var a, b := Print(m), Print(n);
    var s := p + Suffix(m);
    assert s[|s| - |a| - 1] == '-' && s[|s| - |a|..] == a;
    assert (q + Suffix(n))[|s| - |b| - 1] == '-' && (q + Suffix(n))[|s| - |b|..] == b;
    assert |a| == |b|;
    PrintInjective(m, n);
  }

  /** Different numbers give different candidates, cut and trimmed as they may be. */
  lemma CandidatesDiffer(base: string, m: nat, n: nat)
    requires Candidate(base, m) == Candidate(base, n)
    ensures m == n
  {
    SameSuffix(TrimDashes(Slice(base, MAX_SLUG_LENGTH - |Suffix(m)|)), m,
               TrimDashes(Slice(base, MAX_SLUG_LENGTH - |Suffix(n)|)), n);
  }

  /** The candidates numbered 2 up to, not including, `n`. */
  ghost function Tried(base: string, n: nat): (r: set<string>)
    requires n >= 2
    ensures forall c :: c in r <==> exists m: nat :: 2 <= m < n && c == Candidate(base, m)
  {
    if n == 2 then {} else Tried(base, n - 1) + {Candidate(base, n - 1)}
  }

  lemma {:induction false} TriedSize(base: string, n: nat)
    requires n >= 2
    ensures |Tried(base, n)| == n - 2
  {
    if n > 2 {
      TriedSize(base, n - 1);
      if Candidate(base, n - 1) in Tried(base, n - 1) {
        var m: nat :| 2 <= m < n - 1 && Candidate(base, n - 1) == Candidate(base, m);
        CandidatesDiffer(base, n - 1, m);
      }
    }
  }

  ghost predicate LeastFree(base: string, taken: set<string>, n: nat) {
    2 <= n && Candidate(base, n) !in taken && forall m: nat | 2 <= m < n :: Candidate(base, m) in taken
  }

  /** The base if it is free, and otherwise the candidate with the least free number. */
  ghost predicate Chosen(base: string, taken: set<string>, slug: string) {
    if base !in taken then slug == base
    else exists n: nat :: n <= |taken| + 2 && LeastFree(base, taken, n) && slug == Candidate(base, n)
  }

  /** The first free slug. The search ends for every finite set of taken slugs. */
  method NextFreeSlug(base: string, taken: set<string>) returns (slug: string)
    ensures slug !in taken && Chosen(base, taken, slug)
  {
    if base !in taken {
      return base;
    }
    var n: nat := 2;
    while true
      invariant n >= 2
      invariant forall m: nat | 2 <= m < n :: Candidate(base, m) in taken
      invariant n <= |taken| + 2
      decreases |taken| + 2 - n
    {
      var suffix := "-" + Print(n);
      var candidate := TrimDashes(Slice(base, MAX_SLUG_LENGTH - |suffix|)) + suffix;
      assert candidate == Candidate(base, n);
      if candidate !in taken {
        assert LeastFree(base, taken, n);
        return candidate;
      }
      n := n + 1;
      TriedSize(base, n);
      SubsetSize(Tried(base, n), taken);
    }
  }

  // ---- Which text --------------------------------------------------------------

  predicate Dashes(s: string) {
    forall i | 0 <= i < |s| :: s[i] == '-'
  }

  lemma {:induction false} TrimLeftIs(s: string) returns (k: nat)
    ensures k <= |s| && TrimLeft(s) == s[k..] && Dashes(s[..k])
    ensures k < |s| ==> s[k] != '-'
  {
    k := 0;
    if s != [] && s[0] == '-' {
      k := TrimLeftIs(s[1..]);
      assert s[1..][k..] == s[k + 1..];
      assert s[..k + 1] == ['-'] + s[1..][..k];
      k := k + 1;
    }
  }

  lemma {:induction false} TrimRightIs(s: string) returns (k: nat)
    ensures k <= |s| && TrimRight(s) == s[..k] && Dashes(s[k..])
    ensures k > 0 ==> s[k - 1] != '-'
  {
    k := |s|;
    if s != [] && s[|s| - 1] == '-' {
      k := TrimRightIs(s[..|s| - 1]);
      assert s[..|s| - 1][..k] == s[..k];
      assert s[k..] == s[..|s| - 1][k..] + ['-'];
    }
  }

  /** Trimming takes off dashes at both ends, all of them, and nothing else. */
  lemma TrimDashesIs(s: string) returns (left: string, right: string)
    ensures s == left + TrimDashes(s) + right && Dashes(left) && Dashes(right)
    ensures TrimDashes(s) != "" ==> TrimDashes(s)[0] != '-' && TrimDashes(s)[|TrimDashes(s)| - 1] != '-'
  {
    var i := TrimLeftIs(s);
    var j := TrimRightIs(s[i..]);
    left, right := s[..i], s[i..][j..];
  }

  /**
   * The longest piece of a slug that starts it, has at most `room` characters and does not end in
   * a dash: all of it if it fits, and otherwise one character less if the cut leaves a dash last.
   */
  function Fitting(slug: string, room: nat): string {
    if |slug| <= room then slug
    else if room > 0 && slug[room - 1] == '-' then slug[..room - 1]
    else slug[..room]
  }

  lemma CutIsFitting(slug: string, end: nat)
    requires IsSlug(slug) && end >= 1
    ensures TrimDashes(Slice(slug, end)) == Fitting(slug, end)
  {
    var cut := Slice(slug, end);
    assert cut == if |slug| <= end then slug else slug[..end];
    assert cut[0] == slug[0];
    assert TrimLeft(cut) == cut;
    if cut[|cut| - 1] == '-' {
      assert |cut| >= 2 && cut[|cut| - 2] != '-';
      var shorter := cut[..|cut| - 1];
      assert TrimRight(shorter) == shorter;
    }
  }

  lemma CandidateFits(base: string, n: nat, room: nat)
    requires IsSlug(base) && room >= 1 && |Suffix(n)| + room == 60
    ensures Candidate(base, n) == Fitting(base, room) + Suffix(n)
  {
    CutIsFitting(base, room);
  }

  /** A candidate is the base, as far as it fits, a dash and the number. */
  lemma CandidateIs(base: string, n: nat)
    requires IsSlug(base) && |Print(n)| <= 58
    ensures Candidate(base, n) == Fitting(base, 59 - |Print(n)|) + ("-" + Print(n))
  {
    CandidateFits(base, n, 59 - |Print(n)|);
  }

  /** In particular a base with room for the suffix stands whole before it. */
  lemma ShortCandidate(base: string, n: nat)
    requires IsSlug(base) && |base| + 1 + |Print(n)| <= 60
    ensures Candidate(base, n) == base + ("-" + Print(n))
  {
    CandidateIs(base, n);
  }

  /** `slugify` keeps what fits in 60 characters, and takes the fallback only for nothing. */
  lemma SlugifyIs(slug: string, fallback: string)
    ensures slug == "" ==> Slugify(slug, fallback) == fallback
    ensures IsSlug(slug) ==> Slugify(slug, fallback) == Fitting(slug, 60)
  {
    if IsSlug(slug) {
      CutIsFitting(slug, MAX_SLUG_LENGTH);
    }
  }

  // ---- Shape -------------------------------------------------------------------

  predicate SlugChar(c: char) {
    'a' <= c <= 'z' || '0' <= c <= '9'
  }

  predicate NoDoubleDash(s: string) {
    forall i | 0 <= i < |s| - 1 :: s[i] != '-' || s[i + 1] != '-'
  }

  /** `/^[a-z0-9]+(-[a-z0-9]+)*$/` */
  predicate IsSlug(s: string) {
    && s != "" && (forall i | 0 <= i < |s| :: SlugChar(s[i]) || s[i] == '-')
    && s[0] != '-' && s[|s| - 1] != '-' && NoDoubleDash(s)
  }

  /** Cutting a slug short and trimming it leaves a slug, of at least one character. */
  lemma CutSlug(slug: string, end: nat)
    requires IsSlug(slug) && end >= 1
    ensures IsSlug(TrimDashes(Slice(slug, end))) && |TrimDashes(Slice(slug, end))| <= end
  {
    var cut := Slice(slug, end);
    assert cut[0] == slug[0];
    assert TrimLeft(cut) == cut;
    if cut[|cut| - 1] == '-' {
      assert |cut| >= 2 && cut[|cut| - 2] != '-';
      var shorter := cut[..|cut| - 1];
      assert TrimRight(shorter) == shorter;
    }
  }

  /** `slugify` on a well-formed or empty library slug, with a usable fallback. */
  lemma SlugifyShape(slug: string, fallback: string)
    requires slug == "" || IsSlug(slug)
    requires IsSlug(fallback) && |fallback| <= MAX_SLUG_LENGTH
    ensures IsSlug(Slugify(slug, fallback)) && |Slugify(slug, fallback)| <= MAX_SLUG_LENGTH
    ensures |slug| <= MAX_SLUG_LENGTH && slug != "" ==> Slugify(slug, fallback) == slug
  {
    if slug != "" {
      CutSlug(slug, MAX_SLUG_LENGTH);
      if |slug| <= MAX_SLUG_LENGTH {
        assert Slice(slug, MAX_SLUG_LENGTH) == slug;
      }
    }
  }

  lemma CandidateWithRoom(base: string, n: nat)
    requires IsSlug(base) && |Print(n)| < MAX_SLUG_LENGTH - 1
    ensures IsSlug(Candidate(base, n)) && |Candidate(base, n)| <= MAX_SLUG_LENGTH
  {
    var end := MAX_SLUG_LENGTH - |Suffix(n)|;
    CutSlug(base, end);
    AppendNumber(TrimDashes(Slice(base, end)), n);
  }

  lemma CandidateWithoutRoom(base: string, n: nat)
    requires |Print(n)| >= MAX_SLUG_LENGTH - 1
    ensures !IsSlug(Candidate(base, n)) || |Candidate(base, n)| > MAX_SLUG_LENGTH
  {
    if |Suffix(n)| == MAX_SLUG_LENGTH {
      assert Slice(base, 0) == "";
      assert Candidate(base, n) == Suffix(n);
    }
  }

  /**
   * A candidate of a slug is itself a slug of at most 60 characters exactly up to the number
   * 10^58 - 1: the suffix must leave room for one character.
   */
  lemma CandidateShape(base: string, n: nat)
    requires IsSlug(base)
    ensures IsSlug(Candidate(base, n)) && |Candidate(base, n)| <= MAX_SLUG_LENGTH <==> n < Pow10(58)
  {
    PrintLength(n, 58);
    if |Print(n)| < MAX_SLUG_LENGTH - 1 {
      CandidateWithRoom(base, n);
    } else {
      CandidateWithoutRoom(base, n);
    }
  }

  lemma AppendNumber(slug: string, n: nat)
    requires IsSlug(slug)
    ensures IsSlug(slug + Suffix(n))
  {
    var s := slug + Suffix(n);
    assert s[|s| - 1] == Print(n)[|Print(n)| - 1];
    forall i | 0 <= i < |s| ensures SlugChar(s[i]) || s[i] == '-' {
      if i > |slug| {
        assert IsDigit(Print(n)[i - |slug| - 1]);
      }
    }
    forall i | 0 <= i < |s| - 1 ensures s[i] != '-' || s[i + 1] != '-' {
      if i >= |slug| {
        assert IsDigit(Print(n)[i - |slug|]);
      } else if i == |slug| - 1 {
        assert s[i] == slug[|slug| - 1];
      }
    }
  }

  /** With fewer than 10^58 - 2 slugs taken the result is a slug of at most 60 characters. */
  lemma FreeSlugShape(base: string, taken: set<string>, n: nat)
    requires IsSlug(base) && LeastFree(base, taken, n) && n <= |taken| + 2 < Pow10(58)
    ensures IsSlug(Candidate(base, n)) && |Candidate(base, n)| <= MAX_SLUG_LENGTH
  {
    CandidateShape(base, n);
  }

  lemma UnionSize(a: set<string>, b: set<string>)
    ensures |a + b| <= |a| + |b|
  {
    assert a + b == a + (b - a);
    SubsetSize(b - a, b);
  }

  lemma ChosenShape(base: string, taken: set<string>, slug: string)
    requires IsSlug(base) && |base| <= MAX_SLUG_LENGTH && Chosen(base, taken, slug) && |taken| + 2 < Pow10(58)
    ensures IsSlug(slug) && |slug| <= MAX_SLUG_LENGTH
  {
    if base in taken {
      var n: nat :| n <= |taken| + 2 && LeastFree(base, taken, n) && slug == Candidate(base, n);
      FreeSlugShape(base, taken, n);
    }
  }

  /** The slug of a new table: never a reserved word, never taken. */
  method TableSlug(title: string, taken: set<string>) returns (slug: string)
    requires title == "" || IsSlug(title)
    ensures slug !in taken && slug != "new" && slug != "edit"
    ensures Chosen(if title == "" then "mesa" else Fitting(title, 60), {"new", "edit"} + taken, slug)
    ensures |taken| + 4 < Pow10(58) ==> IsSlug(slug) && |slug| <= MAX_SLUG_LENGTH
  {
    var base := Slugify(title, "mesa");
    var unusable := RESERVED_TABLE_SLUGS + taken;
    SlugifyShape(title, "mesa");
    SlugifyIs(title, "mesa");
    UnionSize(RESERVED_TABLE_SLUGS, taken);
    slug := NextFreeSlug(base, unusable);
    if |unusable| + 2 < Pow10(58) {
      ChosenShape(base, unusable, slug);
    }
  }

  /** A slug is made of lower-case letters and digits, by number, with single dashes between them. */
  lemma SlugsAre(c: char)
    ensures SlugChar(c) <==> 97 <= c as int <= 122 || 48 <= c as int <= 57
  {
  }
}
