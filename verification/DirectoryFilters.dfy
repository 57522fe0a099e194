/** The game-master list: filters read from an address and printed back into one. */
module DirectoryFilters {
  import opened Wrappers
  import opened Decimal
  import opened Text
  import Slug

  const SYSTEM_SEARCH_MAX: nat := 100

  /** The parsed query string: pairs in order, keys possibly repeated. */
  type Params = seq<(string, string)>

  datatype Modality = AnyModality | Online | InPerson

  datatype Sort = Recent | Score | Tables | Name

  datatype Filters = Filters(query: string, system: string, modality: Modality, open: bool, place: string, sort: Sort)

  // ---- Query strings -----------------------------------------------------------

  /** `params.get(key)`: the first value under the key. */
  function Get(params: Params, key: string): Option<string> {
    if params == [] then None
    else if params[0].0 == key then Some(params[0].1)
    else Get(params[1..], key)
  }

  function Without(params: Params, key: string): Params {
    if params == [] then []
    else if params[0].0 == key then Without(params[1..], key)
    else [params[0]] + Without(params[1..], key)
  }

  /** `params.set(key, value)`: in place of the first pair under the key, or at the end. */
  function Set(params: Params, key: string, value: string): Params {
    if params == [] then [(key, value)]
    else if params[0].0 == key then [(key, value)] + Without(params[1..], key)
    else [params[0]] + Set(params[1..], key, value)
  }

  function OrEmpty(value: Option<string>): string {
    match value
    case None => ""
    case Some(s) => s
  }

  // ---- Text --------------------------------------------------------------------

  /** `.trim().replace(/^@/, '')` */
  function Unmarked(text: string): string {
    var trimmed := Trim(text);
    if trimmed != "" && trimmed[0] == '@' then trimmed[1..] else trimmed
  }

  /** ... and `.slice(0, SYSTEM_SEARCH_MAX)` */
  function CleanQuery(text: string): string {
    Slug.Slice(Unmarked(text), SYSTEM_SEARCH_MAX)
  }

  function CleanSlug(text: string): string {
    if Slug.IsSlug(Lower(Trim(text))) then Lower(Trim(text)) else ""
  }

  /** `/^[1-9]\d{0,6}$/` */
  predicate IsPage(text: string) {
    1 <= |text| <= 7 && AllDigits(text) && text[0] != '0'
  }

  /** Anything that is not a positive whole number of at most seven digits is the first page. */
  function PageNumber(text: Option<string>): nat {
    if text.Some? && IsPage(text.value) then Value(text.value) else 1
  }

  // ---- Reading and printing --------------------------------------------------------

  function ReadModality(text: Option<string>): Modality {
    if text == Some("online") then Online else if text == Some("in_person") then InPerson else AnyModality
  }

  function ReadSort(text: Option<string>): Sort {
    if text == Some("score") then Score
    else if text == Some("tables") then Tables
    else if text == Some("name") then Name
    else Recent
  }

  function Read(params: Params): Filters {
    Filters(
      CleanQuery(OrEmpty(Get(params, "q"))),
      CleanSlug(OrEmpty(Get(params, "system"))),
      ReadModality(Get(params, "modality")),
      Get(params, "open") == Some("1"),
      CleanSlug(OrEmpty(Get(params, "place"))),
      ReadSort(Get(params, "sort")))
  }

  function ReadPage(params: Params): nat {
    PageNumber(Get(params, "page"))
  }

  function ModalityText(modality: Modality): string {
    match modality
    case AnyModality => ""
    case Online => "online"
    case InPerson => "in_person"
  }

  function SortText(sort: Sort): string {
    match sort
    case Recent => "recent"
    case Score => "score"
    case Tables => "tables"
    case Name => "name"
  }

  /** What an address has to say, key by key; nothing stands for the default. */
  function Said(filters: Filters, page: int): (said: Params)
    ensures |said| == 7 && Distinct(said)
  {
    [("q", filters.query),
     ("system", filters.system),
     ("modality", ModalityText(filters.modality)),
     ("open", if filters.open then "1" else ""),
     ("place", filters.place),
     ("sort", if filters.sort == Recent then "" else SortText(filters.sort)),
     ("page", if page > 1 then PrintInt(page) else "")]
  }

  /** The pairs that say something. */
  function Kept(said: Params): Params {
    if said == [] then []
    else
      var last := said[|said| - 1];
      Kept(said[..|said| - 1]) + if last.1 == "" then [] else [last]
  }

  function Printed(filters: Filters, page: int): Params {
    Kept(Said(filters, page))
  }

  ghost predicate Distinct(said: Params) {
    forall i, j | 0 <= i < j < |said| :: said[i].0 != said[j].0
  }

  lemma {:induction false} SetAppends(params: Params, key: string, value: string)
    requires forall i | 0 <= i < |params| :: params[i].0 != key
    ensures Set(params, key, value) == params + [(key, value)]
  {
    if params != [] {
      SetAppends(params[1..], key, value);
    }
  }

  lemma {:induction false} KeptKeys(said: Params, key: string)
    requires forall i | 0 <= i < |said| :: said[i].0 != key
    ensures forall i | 0 <= i < |Kept(said)| :: Kept(said)[i].0 != key
  {
    if said != [] {
      KeptKeys(said[..|said| - 1], key);
    }
  }

  /** A value that says something is set. */
  function Put(params: Params, pair: (string, string)): Params {
    if pair.1 == "" then params else Set(params, pair.0, pair.1)
  }

  lemma PutNext(params: Params, said: Params, k: nat)
    requires k < |said| && Distinct(said) && params == Kept(said[..k])
    ensures Put(params, said[k]) == Kept(said[..k + 1])
  {
    assert said[..k + 1][..k] == said[..k];
    KeptKeys(said[..k], said[k].0);
    SetAppends(params, said[k].0, said[k].1);
  }

  lemma PutEach(trace: seq<Params>, said: Params, k: nat)
    requires Distinct(said) && k <= |said| && |trace| == |said| + 1 && trace[0] == []
    requires forall i | 0 <= i < |said| :: trace[i + 1] == Put(trace[i], said[i])
    ensures trace[k] == Kept(said[..k])
  {
    if k > 0 {
      PutEach(trace, said, k - 1);
      PutNext(trace[k - 1], said, k - 1);
      assert trace[k - 1 + 1] == Put(trace[k - 1], said[k - 1]);
    }
  }

  lemma PutAll(said: Params, p1: Params, p2: Params, p3: Params, p4: Params, p5: Params, p6: Params, p7: Params)
    requires |said| == 7 && Distinct(said)
    requires p1 == Put([], said[0]) && p2 == Put(p1, said[1]) && p3 == Put(p2, said[2]) && p4 == Put(p3, said[3])
    requires p5 == Put(p4, said[4]) && p6 == Put(p5, said[5]) && p7 == Put(p6, said[6])
    ensures p7 == Kept(said)
  {
    PutEach([[], p1, p2, p3, p4, p5, p6, p7], said, 7);
    assert said[..7] == said;
  }

  function SetIf(cond: bool, params: Params, key: string, value: string): Params {
    if cond then Set(params, key, value) else params
  }

  lemma PrintedBySets(filters: Filters, page: int,
                      p1: Params, p2: Params, p3: Params, p4: Params, p5: Params, p6: Params)
    requires p1 == SetIf(filters.query != "", [], "q", filters.query)
    requires p2 == SetIf(filters.system != "", p1, "system", filters.system)
    requires p3 == SetIf(filters.modality != AnyModality, p2, "modality", ModalityText(filters.modality))
    requires p4 == SetIf(filters.open, p3, "open", "1")
    requires p5 == SetIf(filters.place != "", p4, "place", filters.place)
    requires p6 == SetIf(filters.sort != Recent, p5, "sort", SortText(filters.sort))
    ensures SetIf(page > 1, p6, "page", PrintInt(page)) == Printed(filters, page)
  {
    PutAll(Said(filters, page), p1, p2, p3, p4, p5, p6, SetIf(page > 1, p6, "page", PrintInt(page)));
  }

  /** The query of a filtered list. */
  method GmDirectoryQuery(filters: Filters, page: int) returns (params: Params)
    ensures params == Printed(filters, page)
  {
    params := [];
    if filters.query != "" { params := Set(params, "q", filters.query); }
    ghost var p1 := params;
    if filters.system != "" { params := Set(params, "system", filters.system); }
    ghost var p2 := params;
    if filters.modality != AnyModality { params := Set(params, "modality", ModalityText(filters.modality)); }
    ghost var p3 := params;
    if filters.open { params := Set(params, "open", "1"); }
    ghost var p4 := params;
    if filters.place != "" { params := Set(params, "place", filters.place); }
    ghost var p5 := params;
    if filters.sort != Recent { params := Set(params, "sort", SortText(filters.sort)); }
    ghost var p6 := params;
    if page > 1 { params := Set(params, "page", PrintInt(page)); }
    PrintedBySets(filters, page, p1, p2, p3, p4, p5, p6);
  }

  lemma {:induction false} GetAppended(params: Params, last: (string, string), key: string)
    requires forall i | 0 <= i < |params| :: params[i].0 != last.0
    ensures Get(params + [last], key) == if key == last.0 then Some(last.1) else Get(params, key)
  {
    if params != [] {
      assert (params + [last])[1..] == params[1..] + [last];
      GetAppended(params[1..], last, key);
    }
  }

  lemma {:induction false} GetMissing(params: Params, key: string)
    requires forall i | 0 <= i < |params| :: params[i].0 != key
    ensures Get(params, key) == None
  {
    if params != [] {
      GetMissing(params[1..], key);
    }
  }

  /** Under each key the address gives back what was put there, and nothing for a default. */
  lemma {:induction false} GetKept(said: Params, j: nat)
    requires j < |said| && Distinct(said)
    ensures Get(Kept(said), said[j].0) == if said[j].1 == "" then None else Some(said[j].1)
  {
    var rest, last := said[..|said| - 1], said[|said| - 1];
    KeptKeys(rest, last.0);
    if last.1 != "" {
      GetAppended(Kept(rest), last, said[j].0);
    } else {
      assert Kept(said) == Kept(rest);
    }
    if j < |rest| {
      GetKept(rest, j);
      assert rest[j] == said[j] && said[j].0 != last.0;
    } else {
      GetMissing(Kept(rest), last.0);
    }
  }

  // ---- Normal forms ------------------------------------------------------------

  /** Trimmed, within the limit, and no leading `@`. */
  predicate NormalQuery(query: string) {
    && |query| <= 100
    && (query != "" ==> !IsSpace(query[0]) && !IsSpace(query[|query| - 1]) && query[0] != '@')
  }

  predicate NormalSlug(slug: string) {
    slug == "" || Slug.IsSlug(slug)
  }

  predicate Normal(filters: Filters) {
    NormalQuery(filters.query) && NormalSlug(filters.system) && NormalSlug(filters.place)
  }

  /** Cleaning leaves exactly the normal queries alone, and shortens every other. */
  lemma CleanQueryFixes(query: string)
    ensures CleanQuery(query) == query <==> NormalQuery(query)
    ensures CleanQuery(query) != query ==> |CleanQuery(query)| < |query|
  {
    TrimStartShortens(query);
    TrimEndShortens(TrimStart(query));
  }

  /** And exactly the well-formed slugs, and nothing else comes out. */
  lemma CleanSlugFixes(slug: string)
    ensures NormalSlug(CleanSlug(slug))
    ensures CleanSlug(slug) == slug <==> NormalSlug(slug)
  {
    if Slug.IsSlug(slug) {
      SlugStays(slug);
    }
  }

  lemma SlugStays(slug: string)
    requires Slug.IsSlug(slug)
    ensures Lower(Trim(slug)) == slug
  {
    TrimFixes(slug);
    LowerFixes(slug);
  }

  /** A page survives printing and reading exactly when it is a positive number of at most seven digits. */
  lemma PageRoundTrip(page: int)
    ensures PageNumber(if page > 1 then Some(PrintInt(page)) else None) == page <==> 1 <= page < 10_000_000
  {
    if page > 1 {
      ValueOfPrint(page);
      PrintLength(page, 7);
      assert Pow10(7) == 10_000_000 by { TenMillion(); }
    }
  }

  lemma TenMillion()
    ensures Pow10(7) == 10_000_000
  {
    assert Pow10(3) == 10 * Pow10(2) == 100 * Pow10(1) == 1000 * Pow10(0);
  }

  /** A page read from anything is in range. */
  lemma PageInRange(text: Option<string>)
    ensures 1 <= PageNumber(text) < 10_000_000
  {
    TenMillion();
    if text.Some? && IsPage(text.value) {
      PrintOfValue(text.value);
      PrintLength(Value(text.value), 7);
    }
  }

  function Given(value: string): Option<string> {
    if value == "" then None else Some(value)
  }

  /** What the reader makes of each value the printer wrote. */
  lemma ValuesRead(filters: Filters, page: int)
    ensures ReadModality(Given(ModalityText(filters.modality))) == filters.modality
    ensures ReadSort(Given(if filters.sort == Recent then "" else SortText(filters.sort))) == filters.sort
    ensures Given(if filters.open then "1" else "") == Some("1") <==> filters.open
    ensures page > 1 ==> PrintInt(page) != ""
  {
  }

  lemma GetSaid(filters: Filters, page: int, key: string, value: string, j: nat)
    requires j < 7 && Said(filters, page)[j] == (key, value)
    ensures Get(Printed(filters, page), key) == Given(value)
  {
    GetKept(Said(filters, page), j);
  }

  lemma ReadsPrinted(filters: Filters, page: int)
    ensures Read(Printed(filters, page)) ==
            Filters(CleanQuery(filters.query), CleanSlug(filters.system), filters.modality,
                    filters.open, CleanSlug(filters.place), filters.sort)
    ensures ReadPage(Printed(filters, page)) == PageNumber(if page > 1 then Some(PrintInt(page)) else None)
  {
    GetSaid(filters, page, "q", filters.query, 0);
    GetSaid(filters, page, "system", filters.system, 1);
    GetSaid(filters, page, "modality", ModalityText(filters.modality), 2);
    GetSaid(filters, page, "open", if filters.open then "1" else "", 3);
    GetSaid(filters, page, "place", filters.place, 4);
    GetSaid(filters, page, "sort", if filters.sort == Recent then "" else SortText(filters.sort), 5);
    GetSaid(filters, page, "page", if page > 1 then PrintInt(page) else "", 6);
    ValuesRead(filters, page);
  }

  /** Reading what was printed gives the same filters and page exactly when they are in normal form. */
  lemma RoundTrip(filters: Filters, page: int)
    ensures Read(Printed(filters, page)) == filters && ReadPage(Printed(filters, page)) == page
            <==> Normal(filters) && 1 <= page < 10_000_000
  {
    ReadsPrinted(filters, page);
    CleanQueryFixes(filters.query);
    CleanSlugFixes(filters.system);
    CleanSlugFixes(filters.place);
    PageRoundTrip(page);
  }

  /** Each list has one address: different lists print differently. */
  lemma OneAddress(f: Filters, p: int, g: Filters, q: int)
    requires Normal(f) && Normal(g) && 1 <= p < 10_000_000 && 1 <= q < 10_000_000
    requires Printed(f, p) == Printed(g, q)
    ensures f == g && p == q
  {
    RoundTrip(f, p);
    RoundTrip(g, q);
  }

  /** Where the cut to length ends a text that is longer. */
  function CutAt(text: string): nat {
    if |text| < 100 then |text| else 100
  }

  /**
   * Trimmed and with one `@` off, the text has no second `@`, no white space behind the first, and
   * none where it is cut.
   */
  predicate ReadsNormal(text: string) {
    var bare := Unmarked(text);
    bare != "" ==> bare[0] != '@' && !IsSpace(bare[0]) && !IsSpace(bare[CutAt(bare) - 1])
  }

  /** Cleaning a text gives a normal query exactly then. */
  lemma CleanIsNormalWhen(text: string)
    ensures NormalQuery(CleanQuery(text)) <==> ReadsNormal(text)
  {
  }

  /** What the reader makes of a link is in normal form exactly when the text of its query reads so. */
  lemma ReaderIsNormalWhen(params: Params)
    ensures Normal(Read(params)) <==> ReadsNormal(OrEmpty(Get(params, "q")))
  {
    CleanIsNormalWhen(OrEmpty(Get(params, "q")));
    CleanSlugFixes(OrEmpty(Get(params, "system")));
    CleanSlugFixes(OrEmpty(Get(params, "place")));
  }

  /** One `@` comes off, and the text behind it is left as it is: with a second `@` or a space it is not normal. */
  lemma SecondMark(text: string, c: char)
    requires c == '@' || IsSpace(c)
    requires text != "" && !IsSpace(text[|text| - 1])
    ensures !Normal(Read([("q", ['@', c] + text)]))
  {
    var whole := ['@', c] + text;
    TrimFixes(whole);
    assert Unmarked(whole) == whole[1..];
    assert Get([("q", whole)], "q") == Some(whole);
    ReaderIsNormalWhen([("q", whole)]);
  }

  /** The cut leaves a space that ends up last, whatever is behind it. */
  lemma CutLeavesSpace(text: string, rest: string)
    requires |text| == 99 && !IsSpace(text[0]) && text[0] != '@'
    requires rest != "" && !IsSpace(rest[|rest| - 1])
    ensures !Normal(Read([("q", text + " " + rest)]))
  {
    var whole := text + " " + rest;
    TrimFixes(whole);
    assert Unmarked(whole) == whole;
    assert Get([("q", whole)], "q") == Some(whole);
    ReaderIsNormalWhen([("q", whole)]);
  }

  /** What reading `params` and printing the result `n` times over comes to. */
  function Reread(params: Params, n: nat): Params {
    if n == 0 then params
    else Printed(Read(Reread(params, n - 1)), ReadPage(Reread(params, n - 1)))
  }

  lemma ReadIsShaped(params: Params)
    ensures |Read(params).query| <= SYSTEM_SEARCH_MAX
    ensures NormalSlug(Read(params).system) && NormalSlug(Read(params).place)
    ensures 1 <= ReadPage(params) < 10_000_000
  {
    CleanSlugFixes(OrEmpty(Get(params, "system")));
    CleanSlugFixes(OrEmpty(Get(params, "place")));
    PageInRange(Get(params, "page"));
  }

  /** The query is within `room`, or everything is normal. */
  predicate Settling(params: Params, room: int) {
    |Read(params).query| <= room || Normal(Read(params))
  }

  lemma RereadOnce(filters: Filters, page: int, room: int)
    requires |filters.query| <= room || Normal(filters)
    ensures Settling(Printed(filters, page), room - 1)
  {
    ReadsPrinted(filters, page);
    ReadIsShaped(Printed(filters, page));
    CleanQueryFixes(filters.query);
  }

  predicate SettlingAfter(params: Params, n: nat) {
    Settling(Reread(params, n), SYSTEM_SEARCH_MAX - n)
  }

  lemma RereadFirst(params: Params)
    ensures SettlingAfter(params, 0)
  {
    ReadIsShaped(params);
  }

  lemma RereadNext(params: Params, n: nat)
    requires n > 0 && SettlingAfter(params, n - 1)
    ensures SettlingAfter(params, n)
  {
    var before := Reread(params, n - 1);
    RereadOnce(Read(before), ReadPage(before), SYSTEM_SEARCH_MAX - n + 1);
  }

  /** Whatever the link said, each rereading gives the normal filters or a shorter query. */
  lemma {:induction false} RereadShortens(params: Params, n: nat)
    requires n > 0
    ensures SettlingAfter(params, n)
  {
    if n == 1 {
      RereadFirst(params);
    } else {
      RereadShortens(params, n - 1);
    }
    RereadNext(params, n);
  }

  /** So the address of any link comes to rest, at a normal form that reads back as itself. */
  lemma Settles(params: Params, n: nat)
    requires n >= 100
    ensures Normal(Read(Reread(params, n)))
    ensures Read(Reread(params, n + 1)) == Read(Reread(params, n))
    ensures ReadPage(Reread(params, n + 1)) == ReadPage(Reread(params, n))
  {
    RereadShortens(params, n);
    ReadIsShaped(Reread(params, n));
    RoundTrip(Read(Reread(params, n)), ReadPage(Reread(params, n)));
  }

  // ---- What a link says --------------------------------------------------------

  /** A key reads the first value under it, and nothing where it is not. */
  lemma {:induction false} GetIs(before: Params, key: string, value: string, after: Params)
    requires forall i | 0 <= i < |before| :: before[i].0 != key
    ensures Get(before + [(key, value)] + after, key) == Some(value)
    ensures Get(before, key) == None
  {
    var params := before + [(key, value)] + after;
    if before == [] {
      assert params == [(key, value)] + after;
    } else {
      assert params[1..] == before[1..] + [(key, value)] + after;
      GetIs(before[1..], key, value, after);
    }
  }

  lemma {:induction false} GetElsewhere(params: Params, gone: string, key: string)
    requires key != gone
    ensures Get(Without(params, gone), key) == Get(params, key)
  {
    if params != [] {
      GetElsewhere(params[1..], gone, key);
    }
  }

  /** Setting a key changes what that key reads, and no other. */
  lemma {:induction false} SetReads(params: Params, key: string, value: string, other: string)
    ensures Get(Set(params, key, value), other) == if other == key then Some(value) else Get(params, other)
  {
    if params != [] {
      if params[0].0 == key {
        if other != key {
          GetElsewhere(params[1..], key, other);
        }
      } else {
        SetReads(params[1..], key, value, other);
      }
    }
  }

  /** A slug is read from its text in any capitals, with white space around it. */
  lemma SlugReads(before: string, text: string, slug: string, after: string)
    requires IsBlank(before) && IsBlank(after) && Slug.IsSlug(slug) && Capitalized(text, slug)
    ensures CleanSlug(before + (text + after)) == slug
  {
    TrimIs(before, text, after);
    LowerUndoes(text, slug);
  }

  /** A normal query is read from its text with white space around it, and with one `@` in front. */
  lemma QueryReads(before: string, query: string, after: string)
    requires IsBlank(before) && IsBlank(after) && NormalQuery(query)
    ensures CleanQuery(before + (query + after)) == query
    ensures query != "" ==> CleanQuery(before + ((['@'] + query) + after)) == query
  {
    TrimIs(before, query, after);
    if query != "" {
      TrimIs(before, ['@'] + query, after);
      assert (['@'] + query)[1..] == query;
    }
  }

  /** A longer text is cut to its first hundred characters. */
  lemma QueryIsCut(text: string)
    requires Trim(text) == text && |text| > 100 && text[0] != '@'
    ensures CleanQuery(text) == text[..100]
  {
  }

  /** A page other than the first is asked for by its numeral alone. */
  lemma PageIs(text: string)
    ensures PageNumber(Some(text)) != 1 ==> text == Print(PageNumber(Some(text)))
    ensures PageNumber(None) == 1
  {
    if IsPage(text) {
      PrintOfValue(text);
    }
  }

  /** What each key says, and that anything else is dropped. */
  lemma OthersRead(params: Params)
    ensures Read(params).open <==> Get(params, "open") == Some("1")
    ensures Read(params).modality == Online <==> Get(params, "modality") == Some("online")
    ensures Read(params).modality == InPerson <==> Get(params, "modality") == Some("in_person")
    ensures Read(params).sort == Score <==> Get(params, "sort") == Some("score")
    ensures Read(params).sort == Tables <==> Get(params, "sort") == Some("tables")
    ensures Read(params).sort == Name <==> Get(params, "sort") == Some("name")
  {
  }
}
