/** Campaign links: one canonical form for each campaign, and the platform a link belongs to. */
module CampaignUrl {
  import opened Wrappers
  import opened Text

  const MAX_LENGTH := 2048

  type Params = seq<(string, string)>

  /** What the URL parser makes of a text; the query as its decoded pairs. */
  datatype Address = Address(
    protocol: string, username: string, password: string, hostname: string, port: string,
    pathname: string, params: Params, hash: string)

  /** The parts of `https://host:port/path?query`, as the unique index compares them. */
  datatype Canonical = Canonical(hostname: string, port: string, path: string, params: Params)

  /** A URL object. */
  class Url {
    var hostname: string
    var port: string
    var params: Params
    var hash: string
    const pathname: string

    constructor (address: Address)
      ensures hostname == address.hostname && port == address.port && params == address.params
      ensures hash == address.hash && pathname == address.pathname
    {
      hostname, port, params := address.hostname, address.port, address.params;
      hash, pathname := address.hash, address.pathname;
    }

    /** An https address keeps its host when it is set to nothing. */
    method SetHostname(value: string)
      modifies this`hostname
      ensures hostname == if value == "" then old(hostname) else value
    {
      if value != "" {
        hostname := value;
      }
    }

    method AppendAll(pairs: Params)
      modifies this`params
      ensures params == old(params) + pairs
    {
      for i := 0 to |pairs|
        invariant params == old(params) + pairs[..i]
      {
        params := params + [pairs[i]];
      }
    }
  }

  // ---- The parts ---------------------------------------------------------------

  /** `s.replace(/c+$/, '')` */
  function StripEnd(s: string, c: char): (r: string)
    ensures r <= s
    ensures r == "" || r[|r| - 1] != c
    ensures forall i | |r| <= i < |s| :: s[i] == c
  {
    if s != "" && s[|s| - 1] == c then StripEnd(s[..|s| - 1], c) else s
  }

  predicate HasWww(host: string) {
    |host| >= 4 && host[0] == 'w' && host[1] == 'w' && host[2] == 'w' && host[3] == '.'
  }

  function WithoutWww(host: string): string {
    if HasWww(host) then host[4..] else host
  }

  function BareHost(hostname: string): string {
    WithoutWww(StripEnd(Lower(hostname), '.'))
  }

  function HostKept(hostname: string): string {
    if BareHost(hostname) == "" then hostname else BareHost(hostname)
  }

  function PortKept(port: string): string {
    if port == "443" then "" else port
  }

  /** `/^(utm_|fbclid$|gclid$|mc_|ref$)/i` */
  predicate Tracking(key: string) {
    var k := Lower(key);
    "utm_" <= k || k == "fbclid" || k == "gclid" || "mc_" <= k || k == "ref"
  }

  function Untracked(params: Params): Params {
    if params == [] then []
    else if Tracking(params[0].0) then Untracked(params[1..])
    else [params[0]] + Untracked(params[1..])
  }

  /** How `localeCompare` orders keys: any two compare, some different ones as equal. */
  type Order = (string, string) -> bool

  ghost predicate IsOrder(le: Order) {
    && (forall a, b :: le(a, b) || le(b, a))
    && forall a, b, c :: le(a, b) && le(b, c) ==> le(a, c)
  }

  predicate Same(le: Order, a: string, b: string) {
    le(a, b) && le(b, a)
  }

  function Insert(le: Order, x: (string, string), params: Params): Params {
    if params == [] || le(x.0, params[0].0) then [x] + params
    else [params[0]] + Insert(le, x, params[1..])
  }

  /** A stable sort by key. */
  function Sort(le: Order, params: Params): Params {
    if params == [] then [] else Insert(le, params[0], Sort(le, params[1..]))
  }

  function Canonized(le: Order, a: Address): Option<Canonical> {
    if a.protocol != "https:" || a.hostname == "" || a.username != "" || a.password != "" then None
    else Some(Canonical(
      HostKept(a.hostname), PortKept(a.port),
      StripEnd(a.pathname, '/'), Sort(le, Untracked(a.params))))
  }

  /** What a text comes to, with the parser of URLs as given. */
  function Normalized(raw: string, parse: string -> Option<Address>, le: Order): Option<Canonical> {
    var text := Trim(raw);
    if text == "" || |text| > MAX_LENGTH || parse(text) == None then None
    else Canonized(le, parse(text).value)
  }

  /** The canonical form of a link, or nothing for a text that is too long, is no https address or has credentials. */
  method NormalizeCampaignUrl(raw: string, parse: string -> Option<Address>, le: Order)
    returns (canonical: Option<Canonical>)
    ensures canonical == Normalized(raw, parse, le)
  {
    var text := Trim(raw);
    if text == "" || |text| > MAX_LENGTH {
      return None;
    }
    var parsed := parse(text);
    if parsed == None {
      return None;
    }
    var address := parsed.value;
    if address.protocol != "https:" || address.hostname == "" || address.username != "" || address.password != "" {
      return None;
    }
    var url := new Url(address);
    url.hash := "";
    url.SetHostname(BareHost(url.hostname));
    if url.port == "443" {
      url.port := "";
    }
    assert url.hostname == HostKept(address.hostname) && url.port == PortKept(address.port);
    var kept := Sort(le, Untracked(url.params));
    url.params := [];
    url.AppendAll(kept);
    assert url.params == kept;
    return Some(Canonical(url.hostname, url.port, StripEnd(url.pathname, '/'), url.params));
  }

  // ---- What is kept of a link ----------------------------------------------------

  /** A text is refused exactly when it is empty or too long, no address, no https address, or has credentials. */
  lemma RefusedExactly(raw: string, parse: string -> Option<Address>, le: Order)
    ensures var text := Trim(raw);
      Normalized(raw, parse, le) == None <==>
        || text == "" || |text| > 2048 || parse(text) == None
        || parse(text).value.protocol != "https:" || parse(text).value.hostname == ""
        || parse(text).value.username != "" || parse(text).value.password != ""
  {
  }

  /** The port of https is the one that goes unsaid. */
  lemma PortIs(port: string)
    ensures PortKept("443") == ""
    ensures port != "443" ==> PortKept(port) == port
  {
  }

  predicate StartsWith(s: string, head: string) {
    |head| <= |s| && s[..|head|] == head
  }

  /** The keys that only say where a visitor came from, in any capitals. */
  lemma TrackingIs(key: string)
    ensures Tracking(key) <==>
              || StartsWith(Lower(key), "utm_") || StartsWith(Lower(key), "mc_")
              || Lower(key) == "fbclid" || Lower(key) == "gclid" || Lower(key) == "ref"
  {
  }

  /** What is dropped from a query is its tracking parameters; the others keep their order. */
  lemma UntrackedIs(params: Params, pair: (string, string))
    ensures Untracked(params + [pair]) == Untracked(params) + if Tracking(pair.0) then [] else [pair]
  {
    UntrackedJoins(params, [pair]);
    assert [pair][1..] == [];
  }

  lemma {:induction false} DotsComeOff(s: string, dots: string)
    requires forall i | 0 <= i < |dots| :: dots[i] == '.'
    ensures StripEnd(s + dots, '.') == StripEnd(s, '.')
  {
    if dots == "" {
      assert s + dots == s;
    } else {
      var fewer := dots[..|dots| - 1];
      DotsComeOff(s, fewer);
      assert s + dots == (s + fewer) + ['.'];
      OneMore(s + fewer, '.');
    }
  }

  lemma WwwFront(host: string)
    requires IsHost(host)
    ensures StripEnd("www." + host, '.') == "www." + host && WithoutWww("www." + host) == host
  {
    assert ("www." + host)[4..] == host;
  }

  /** A host is kept in lower case, without one `www.` and without the dots behind it. */
  lemma HostKeptIs(hostname: string, host: string, dots: string)
    requires IsHost(host) && forall i | 0 <= i < |dots| :: dots[i] == '.'
    requires Lower(hostname) == "www." + host + dots
    ensures HostKept(hostname) == host
  {
    DotsComeOff("www." + host, dots);
    WwwFront(host);
  }

  lemma PlainHostIs(hostname: string, host: string, dots: string)
    requires IsHost(host) && !HasWww(host) && forall i | 0 <= i < |dots| :: dots[i] == '.'
    requires Lower(hostname) == host + dots
    ensures HostKept(hostname) == host
  {
    DotsComeOff(host, dots);
    HostIsKept(host);
  }

  // ---- Sorting -----------------------------------------------------------------

  ghost predicate Sorted(le: Order, params: Params) {
    |params| <= 1 || (le(params[0].0, params[1].0) && Sorted(le, params[1..]))
  }

  /** The pairs whose key compares equal to `key`, in order. */
  function Among(le: Order, params: Params, key: string): Params {
    if params == [] then []
    else (if Same(le, params[0].0, key) then [params[0]] else []) + Among(le, params[1..], key)
  }

  lemma {:induction false} InsertSorts(le: Order, x: (string, string), params: Params)
    requires IsOrder(le) && Sorted(le, params)
    ensures Sorted(le, Insert(le, x, params))
  {
    if params != [] && !le(x.0, params[0].0) {
      InsertSorts(le, x, params[1..]);
    }
  }

  lemma {:induction false} InsertAmong(le: Order, x: (string, string), params: Params, key: string)
    requires IsOrder(le)
    ensures Among(le, Insert(le, x, params), key) == Among(le, [x] + params, key)
  {
    if params != [] && !le(x.0, params[0].0) {
      InsertAmong(le, x, params[1..], key);
    }
  }

  lemma {:induction false} SortSorts(le: Order, params: Params)
    requires IsOrder(le)
    ensures Sorted(le, Sort(le, params))
  {
    if params != [] {
      SortSorts(le, params[1..]);
      InsertSorts(le, params[0], Sort(le, params[1..]));
    }
  }

  lemma {:induction false} SortAmong(le: Order, params: Params, key: string)
    requires IsOrder(le)
    ensures Among(le, Sort(le, params), key) == Among(le, params, key)
  {
    if params != [] {
      SortAmong(le, params[1..], key);
      InsertAmong(le, params[0], Sort(le, params[1..]), key);
    }
  }

  lemma {:induction false} SortedStays(le: Order, params: Params)
    requires Sorted(le, params)
    ensures Sort(le, params) == params
  {
    if params != [] {
      SortedStays(le, params[1..]);
    }
  }

  lemma {:induction false} HeadLeast(le: Order, params: Params, key: string)
    requires IsOrder(le) && Sorted(le, params) && Among(le, params, key) != []
    ensures le(params[0].0, key)
  {
    if !Same(le, params[0].0, key) {
      HeadLeast(le, params[1..], key);
    }
  }

  lemma HeadAmong(le: Order, params: Params)
    requires IsOrder(le) && params != []
    ensures Among(le, params, params[0].0) != []
  {
  }

  /** Each key has the same values in the same order. */
  ghost predicate Alike(le: Order, s: Params, t: Params) {
    forall key :: Among(le, s, key) == Among(le, t, key)
  }

  /** Sorted queries that agree key by key are equal. */
  lemma {:induction false} SortedUnique(le: Order, s: Params, t: Params)
    requires IsOrder(le) && Sorted(le, s) && Sorted(le, t)
    requires Alike(le, s, t)
    ensures s == t
  {
    if s == [] {
      if t != [] {
        HeadAmong(le, t);
      }
    } else {
      assert Among(le, s, s[0].0) == Among(le, t, s[0].0);
      assert Among(le, s, t[0].0) == Among(le, t, t[0].0);
      HeadLeast(le, t, s[0].0);
      HeadLeast(le, s, t[0].0);
      assert s[0] == Among(le, s, s[0].0)[0] == Among(le, t, s[0].0)[0] == t[0];
      forall key ensures Among(le, s[1..], key) == Among(le, t[1..], key) {
        assert Among(le, s, key) == Among(le, t, key);
        var first := if Same(le, s[0].0, key) then [s[0]] else [];
        assert Among(le, s[1..], key) == Among(le, s, key)[|first|..];
        assert Among(le, t[1..], key) == Among(le, t, key)[|first|..];
      }
      SortedUnique(le, s[1..], t[1..]);
    }
  }

  // ---- Which links are one campaign ----------------------------------------------

  /** A query sorts to the same as another exactly when they agree key by key. */
  lemma SortsAlike(le: Order, s: Params, t: Params)
    requires IsOrder(le)
    ensures Sort(le, s) == Sort(le, t) <==> Alike(le, s, t)
  {
    if Sort(le, s) == Sort(le, t) {
      forall key ensures Among(le, s, key) == Among(le, t, key) {
        SortAmong(le, s, key);
        SortAmong(le, t, key);
      }
    }
    if Alike(le, s, t) {
      SortSorts(le, s);
      SortSorts(le, t);
      forall key ensures Among(le, Sort(le, s), key) == Among(le, Sort(le, t), key) {
        SortAmong(le, s, key);
        SortAmong(le, t, key);
      }
      SortedUnique(le, Sort(le, s), Sort(le, t));
    }
  }

  ghost predicate Accepted(a: Address) {
    a.protocol == "https:" && a.hostname != "" && a.username == "" && a.password == ""
  }

  /**
   * Two links are one campaign exactly when host, port and path agree and, tracking aside, each
   * key has the same values in the same order.
   */
  lemma SameCampaign(le: Order, a: Address, b: Address)
    requires IsOrder(le) && Accepted(a) && Accepted(b)
    ensures Canonized(le, a) == Canonized(le, b) <==>
              && HostKept(a.hostname) == HostKept(b.hostname)
              && PortKept(a.port) == PortKept(b.port)
              && StripEnd(a.pathname, '/') == StripEnd(b.pathname, '/')
              && Alike(le, Untracked(a.params), Untracked(b.params))
  {
    SortsAlike(le, Untracked(a.params), Untracked(b.params));
  }

  lemma {:induction false} UntrackedSkips(before: Params, pair: (string, string), after: Params)
    requires Tracking(pair.0)
    ensures Untracked(before + [pair] + after) == Untracked(before + after)
  {
    var s := before + [pair] + after;
    if before == [] {
      assert s[1..] == after;
      assert before + after == after;
    } else {
      assert s[1..] == before[1..] + [pair] + after;
      assert (before + after)[1..] == before[1..] + after;
      UntrackedSkips(before[1..], pair, after);
    }
  }

  lemma {:induction false} UntrackedJoins(s: Params, t: Params)
    ensures Untracked(s + t) == Untracked(s) + Untracked(t)
  {
    if s == [] {
      assert s + t == t;
    } else {
      assert (s + t)[1..] == s[1..] + t;
      UntrackedJoins(s[1..], t);
    }
  }

  lemma {:induction false} AmongJoins(le: Order, s: Params, t: Params, key: string)
    ensures Among(le, s + t, key) == Among(le, s, key) + Among(le, t, key)
  {
    if s == [] {
      assert s + t == t;
    } else {
      var first := if Same(le, s[0].0, key) then [s[0]] else [];
      AmongJoins(le, s[1..], t, key);
      assert (s + t)[1..] == s[1..] + t;
      Associates(first, Among(le, s[1..], key), Among(le, t, key));
    }
  }

  lemma Associates<T>(a: seq<T>, b: seq<T>, c: seq<T>)
    ensures (a + b) + c == a + (b + c)
  {
  }

  /** What a query has under a key, with two neighbours in its middle. */
  lemma AmongMiddle(le: Order, before: Params, two: Params, after: Params, key: string)
    ensures Among(le, Untracked(before + two + after), key) ==
            Among(le, Untracked(before), key) + Among(le, Untracked(two), key) + Among(le, Untracked(after), key)
  {
    UntrackedJoins(before + two, after);
    UntrackedJoins(before, two);
    AmongJoins(le, Untracked(before) + Untracked(two), Untracked(after), key);
    AmongJoins(le, Untracked(before), Untracked(two), key);
  }

  lemma MiddleDecides(le: Order, before: Params, two: Params, other: Params, after: Params)
    ensures Alike(le, Untracked(before + two + after), Untracked(before + other + after)) <==>
              Alike(le, Untracked(two), Untracked(other))
  {
    forall key
      ensures Among(le, Untracked(before + two + after), key) == Among(le, Untracked(before + other + after), key) <==>
                Among(le, Untracked(two), key) == Among(le, Untracked(other), key)
    {
      AmongMiddle(le, before, two, after, key);
      AmongMiddle(le, before, other, after, key);
      SameMiddle(Among(le, Untracked(before), key), Among(le, Untracked(two), key), Among(le, Untracked(other), key),
                 Among(le, Untracked(after), key));
    }
  }

  lemma SameMiddle<T>(a: seq<T>, b: seq<T>, c: seq<T>, d: seq<T>)
    ensures a + b + d == a + c + d <==> b == c
  {
    if a + b + d == a + c + d {
      assert |b| == |c|;
      assert b == (a + b + d)[|a|..|a| + |b|];
      assert c == (a + c + d)[|a|..|a| + |c|];
    }
  }

  /** The order of two pairs shows only if both are kept, differ, and have keys that compare equal. */
  predicate Tied(le: Order, x: (string, string), y: (string, string)) {
    !Tracking(x.0) && !Tracking(y.0) && x != y && Same(le, x.0, y.0)
  }

  lemma OneAmong(le: Order, x: (string, string), key: string)
    ensures Among(le, Untracked([x]), key) == if !Tracking(x.0) && Same(le, x.0, key) then [x] else []
  {
    assert [x][1..] == [];
  }

  lemma TwoAmong(le: Order, x: (string, string), y: (string, string), key: string)
    ensures Among(le, Untracked([x, y]), key) == Among(le, Untracked([x]), key) + Among(le, Untracked([y]), key)
  {
    assert [x, y] == [x] + [y];
    UntrackedJoins([x], [y]);
    AmongJoins(le, Untracked([x]), Untracked([y]), key);
  }

  lemma TiedDecides(le: Order, x: (string, string), y: (string, string))
    requires IsOrder(le)
    ensures Alike(le, Untracked([x, y]), Untracked([y, x])) <==> !Tied(le, x, y)
  {
    forall key
      ensures Among(le, Untracked([x, y]), key) == Among(le, Untracked([x]), key) + Among(le, Untracked([y]), key)
      ensures Among(le, Untracked([y, x]), key) == Among(le, Untracked([y]), key) + Among(le, Untracked([x]), key)
      ensures Among(le, Untracked([x]), key) == if !Tracking(x.0) && Same(le, x.0, key) then [x] else []
      ensures Among(le, Untracked([y]), key) == if !Tracking(y.0) && Same(le, y.0, key) then [y] else []
    {
      TwoAmong(le, x, y, key);
      TwoAmong(le, y, x, key);
      OneAmong(le, x, key);
      OneAmong(le, y, key);
    }
    if Tied(le, x, y) {
      assert Among(le, Untracked([x, y]), x.0)[0] == x;
      assert Among(le, Untracked([y, x]), x.0)[0] == y;
    }
  }

  /**
   * Swapping two neighbouring parameters leaves the canonical form as it is exactly when they are
   * not tied; so those whose keys all differ may stand in any order.
   */
  lemma OrderIsIgnored(le: Order, a: Address, before: Params, x: (string, string), y: (string, string), after: Params)
    requires IsOrder(le) && Accepted(a)
    ensures Canonized(le, a.(params := before + [x, y] + after)) == Canonized(le, a.(params := before + [y, x] + after))
            <==> !Tied(le, x, y)
  {
    SortsAlike(le, Untracked(before + [x, y] + after), Untracked(before + [y, x] + after));
    MiddleDecides(le, before, [x, y], [y, x], after);
    TiedDecides(le, x, y);
  }

  /** A tracking parameter anywhere in the query makes no second campaign. */
  lemma TrackingIsIgnored(le: Order, a: Address, before: Params, pair: (string, string), after: Params)
    requires Tracking(pair.0)
    ensures Canonized(le, a.(params := before + [pair] + after)) == Canonized(le, a.(params := before + after))
  {
    UntrackedSkips(before, pair, after);
  }

  lemma OneMore(s: string, c: char)
    ensures StripEnd(s + [c], c) == StripEnd(s, c)
  {
    assert (s + [c])[..|s|] == s;
  }

  lemma {:induction false} LowerDot(s: string)
    ensures Lower(s + ".") == Lower(s) + "."
  {
    if s != "" {
      assert (s + ".")[1..] == s[1..] + ".";
      LowerDot(s[1..]);
    }
  }

  /** Nor does one more slash after the path. */
  lemma TrailingSlash(le: Order, a: Address)
    ensures Canonized(le, a.(pathname := a.pathname + "/")) == Canonized(le, a)
  {
    OneMore(a.pathname, '/');
  }

  /** Nor one more dot after the host, exactly when the host is more than dots. */
  lemma TrailingDot(le: Order, a: Address)
    requires Accepted(a)
    ensures Canonized(le, a.(hostname := a.hostname + ".")) == Canonized(le, a) <==>
              StripEnd(Lower(a.hostname), '.') != ""
  {
    LowerDot(a.hostname);
    OneMore(Lower(a.hostname), '.');
    BareWhen(a.hostname);
  }

  lemma BareWhen(hostname: string)
    ensures BareHost(hostname) == "" <==> StripEnd(Lower(hostname), '.') == ""
  {
    var host := StripEnd(Lower(hostname), '.');
    if HasWww(host) {
      assert host[|host| - 1] != '.';
      assert |host| > 4;
    }
  }

  // ---- Canonical forms read again --------------------------------------------------

  /** What the parser makes of a canonical form: an https address always has a path. */
  function Reparsed(c: Canonical): Address {
    Address("https:", "", "", c.hostname, c.port, if c.path == "" then "/" else c.path, c.params, "")
  }

  lemma {:induction false} UntrackedStays(params: Params)
    ensures (forall i | 0 <= i < |params| :: !Tracking(params[i].0)) ==> Untracked(params) == params
    ensures forall i | 0 <= i < |Untracked(params)| :: !Tracking(Untracked(params)[i].0)
  {
    if params != [] {
      UntrackedStays(params[1..]);
    }
  }

  lemma {:induction false} SortKeeps(le: Order, params: Params)
    requires forall i | 0 <= i < |params| :: !Tracking(params[i].0)
    ensures forall i | 0 <= i < |Sort(le, params)| :: !Tracking(Sort(le, params)[i].0)
  {
    if params != [] {
      SortKeeps(le, params[1..]);
      InsertKeeps(le, params[0], Sort(le, params[1..]));
    }
  }

  lemma {:induction false} InsertKeeps(le: Order, x: (string, string), params: Params)
    requires !Tracking(x.0) && forall i | 0 <= i < |params| :: !Tracking(params[i].0)
    ensures forall i | 0 <= i < |Insert(le, x, params)| :: !Tracking(Insert(le, x, params)[i].0)
  {
    if params != [] && !le(x.0, params[0].0) {
      InsertKeeps(le, x, params[1..]);
    }
  }

  lemma QueryStays(le: Order, params: Params)
    requires IsOrder(le)
    ensures Sort(le, Untracked(Sort(le, Untracked(params)))) == Sort(le, Untracked(params))
  {
    var kept := Untracked(params);
    UntrackedStays(params);
    SortKeeps(le, kept);
    UntrackedStays(Sort(le, kept));
    SortSorts(le, kept);
    SortedStays(le, Sort(le, kept));
  }

  /** A host in lower case, with no dot at its end. */
  predicate IsHost(host: string) {
    host != "" && Lower(host) == host && host[|host| - 1] != '.'
  }

  lemma {:induction false} LowerTwice(s: string)
    ensures Lower(Lower(s)) == Lower(s)
  {
    if s != "" {
      assert Lower(s)[1..] == Lower(s[1..]);
      LowerTwice(s[1..]);
    }
  }

  /** A piece of a lower-case text is in lower case. */
  lemma {:induction false} LowerPiece(s: string, from: nat, end: nat)
    requires Lower(s) == s && from <= end <= |s|
    ensures Lower(s[from..end]) == s[from..end]
  {
    LowerAt(s);
    forall i | 0 <= i < |s[from..end]| ensures LowerChar(s[from..end][i]) == s[from..end][i] {
      assert s[from..end][i] == Lower(s)[from + i];
    }
    LowerFixes(s[from..end]);
  }

  lemma StrippedIsHost(hostname: string)
    requires StripEnd(Lower(hostname), '.') != ""
    ensures IsHost(StripEnd(Lower(hostname), '.'))
  {
    var low := Lower(hostname);
    var host := StripEnd(low, '.');
    LowerTwice(hostname);
    LowerPiece(low, 0, |host|);
    assert low[0..|host|] == host;
  }

  lemma BehindIsHost(host: string)
    requires IsHost(host) && HasWww(host)
    ensures IsHost(host[4..])
  {
    LowerPiece(host, 4, |host|);
    assert host[4..|host|] == host[4..];
  }

  /** What normalising keeps of a host: lower case, no dots at the end, one `www.` off. */
  lemma HostShape(hostname: string)
    requires BareHost(hostname) != ""
    ensures IsHost(BareHost(hostname))
  {
    BareWhen(hostname);
    StrippedIsHost(hostname);
    if HasWww(StripEnd(Lower(hostname), '.')) {
      BehindIsHost(StripEnd(Lower(hostname), '.'));
    }
  }

  lemma HostIsKept(host: string)
    requires IsHost(host)
    ensures StripEnd(Lower(host), '.') == host && HostKept(host) == WithoutWww(host)
  {
    if HasWww(host) {
      BehindIsHost(host);
    }
  }

  lemma OnlyDots(hostname: string)
    requires hostname != "" && BareHost(hostname) == ""
    ensures !HasWww(hostname)
  {
    BareWhen(hostname);
    LowerAt(hostname);
    assert Lower(hostname)[0] == '.';
  }

  lemma HostStays(hostname: string)
    requires hostname != ""
    ensures HostKept(HostKept(hostname)) == HostKept(hostname) <==> !HasWww(HostKept(hostname))
  {
    if BareHost(hostname) == "" {
      OnlyDots(hostname);
    } else {
      HostShape(hostname);
      HostIsKept(BareHost(hostname));
    }
  }

  /** Two `www.` in a row. */
  predicate HasTwoWww(host: string) {
    HasWww(host) && HasWww(host[4..])
  }

  /** A host still has a `www.` once it is normalised exactly when it had two. */
  lemma KeepsWwwWhen(hostname: string)
    requires hostname != ""
    ensures HasWww(HostKept(hostname)) <==> HasTwoWww(StripEnd(Lower(hostname), '.'))
  {
    BareWhen(hostname);
    if BareHost(hostname) == "" {
      OnlyDots(hostname);
    }
  }

  /**
   * The parts of a canonical form come back from it exactly when the given host, in lower case and
   * without the dots at its end, does not start with two `www.`: one comes off at a time.
   */
  lemma CanonizedTwice(le: Order, a: Address)
    requires IsOrder(le) && Accepted(a)
    ensures var once := Canonized(le, a).value;
      Canonized(le, Reparsed(once)) == Some(once) <==> !HasTwoWww(StripEnd(Lower(a.hostname), '.'))
  {
    var once := Canonized(le, a).value;
    QueryStays(le, a.params);
    HostStays(a.hostname);
    KeepsWwwWhen(a.hostname);
    assert StripEnd("", '/') == "";
    assert StripEnd("/", '/') == "";
  }

  // ---- Canonical forms as text -----------------------------------------------------

  /** How one part of a pair is written in a query, percent signs and all. */
  type Encoding = string -> string

  function PrintPair(encode: Encoding, pair: (string, string)): string {
    encode(pair.0) + "=" + encode(pair.1)
  }

  function PrintQuery(encode: Encoding, params: Params): string {
    if params == [] then ""
    else if |params| == 1 then PrintPair(encode, params[0])
    else PrintPair(encode, params[0]) + "&" + PrintQuery(encode, params[1..])
  }

  /** `https://${url.host}${path}${url.search}` */
  function Printed(encode: Encoding, c: Canonical): string {
    "https://" + c.hostname + (if c.port == "" then "" else ":" + c.port) + c.path
    + (if c.params == [] then "" else "?" + PrintQuery(encode, c.params))
  }

  /** Each pair with the sign before it. */
  function QueryLength(encode: Encoding, params: Params): nat {
    if params == [] then 0 else |PrintPair(encode, params[0])| + 1 + QueryLength(encode, params[1..])
  }

  /** How long the canonical form of `a` will be, read off `a`. */
  function PrintedLength(encode: Encoding, a: Address): nat {
    8 + |HostKept(a.hostname)| + (if PortKept(a.port) == "" then 0 else 1 + |a.port|) + |StripEnd(a.pathname, '/')|
    + QueryLength(encode, Untracked(a.params))
  }

  lemma {:induction false} QueryIsAsLong(encode: Encoding, params: Params)
    ensures params != [] ==> |PrintQuery(encode, params)| + 1 == QueryLength(encode, params)
  {
    if |params| > 1 {
      QueryIsAsLong(encode, params[1..]);
    } else if |params| == 1 {
      assert QueryLength(encode, params[1..]) == 0;
    }
  }

  lemma {:induction false} InsertIsAsLong(encode: Encoding, le: Order, x: (string, string), params: Params)
    ensures QueryLength(encode, Insert(le, x, params)) == QueryLength(encode, [x] + params)
  {
    if params != [] && !le(x.0, params[0].0) {
      InsertIsAsLong(encode, le, x, params[1..]);
      assert ([x] + params)[1..] == params && ([x] + params[1..])[1..] == params[1..];
    }
  }

  lemma {:induction false} SortIsAsLong(encode: Encoding, le: Order, params: Params)
    ensures QueryLength(encode, Sort(le, params)) == QueryLength(encode, params)
  {
    if params != [] {
      SortIsAsLong(encode, le, params[1..]);
      InsertIsAsLong(encode, le, params[0], Sort(le, params[1..]));
      assert ([params[0]] + Sort(le, params[1..]))[1..] == Sort(le, params[1..]);
    }
  }

  lemma PrintedIsAsLong(encode: Encoding, le: Order, a: Address)
    requires Accepted(a)
    ensures |Printed(encode, Canonized(le, a).value)| == PrintedLength(encode, a)
  {
    var c := Canonized(le, a).value;
    SortIsAsLong(encode, le, Untracked(a.params));
    QueryIsAsLong(encode, c.params);
  }

  /** The text of a canonical form without a query, and with one pair. */
  lemma PrintedIs(encode: Encoding, host: string, port: string, path: string, key: string, value: string)
    ensures Printed(encode, Canonical(host, "", path, [])) == "https://" + host + path
    ensures port != "" ==> Printed(encode, Canonical(host, port, path, [])) == "https://" + host + ":" + port + path
    ensures Printed(encode, Canonical(host, "", path, [(key, value)])) ==
            "https://" + host + path + "?" + encode(key) + "=" + encode(value)
  {
    assert PrintQuery(encode, [(key, value)]) == PrintPair(encode, (key, value));
  }

  /** Each pair more stands behind an ampersand. */
  lemma QueryIs(encode: Encoding, pair: (string, string), params: Params)
    requires params != []
    ensures PrintQuery(encode, [pair] + params) ==
            encode(pair.0) + "=" + encode(pair.1) + "&" + PrintQuery(encode, params)
  {
    assert ([pair] + params)[1..] == params;
  }

  /** The parser makes of a canonical form the parts it was printed from. */
  ghost predicate ReadsBack(parse: string -> Option<Address>, encode: Encoding, c: Canonical) {
    parse(Printed(encode, c)) == Some(Reparsed(c)) && Trim(Printed(encode, c)) == Printed(encode, c)
  }

  /**
   * Normalising the canonical form of a link gives that form exactly when it is short enough to be
   * read at all, and the given host does not start with two `www.`.
   */
  lemma IdempotentExactly(raw: string, parse: string -> Option<Address>, encode: Encoding, le: Order, once: Canonical)
    requires IsOrder(le) && Normalized(raw, parse, le) == Some(once) && ReadsBack(parse, encode, once)
    ensures var a := parse(Trim(raw)).value;
      Normalized(Printed(encode, once), parse, le) == Some(once) <==>
        PrintedLength(encode, a) <= 2048 && !HasTwoWww(StripEnd(Lower(a.hostname), '.'))
  {
    var a := parse(Trim(raw)).value;
    CanonizedTwice(le, a);
    PrintedIsAsLong(encode, le, a);
  }

  /** Past that length it is refused. */
  lemma TooLongIsRefused(raw: string, parse: string -> Option<Address>, encode: Encoding, le: Order, once: Canonical)
    requires Normalized(raw, parse, le) == Some(once) && ReadsBack(parse, encode, once)
    requires PrintedLength(encode, parse(Trim(raw)).value) > 2048
    ensures Normalized(Printed(encode, once), parse, le) == None
  {
    PrintedIsAsLong(encode, le, parse(Trim(raw)).value);
  }

  /** `n` keys without a value, as a link may carry them. */
  function BareKeys(n: nat): string {
    if n == 0 then "" else BareKeys(n - 1) + "&a"
  }

  function BareLink(host: string, n: nat): string {
    "https://" + host + "/?a" + BareKeys(n)
  }

  function BarePairs(n: nat): Params {
    if n == 0 then [] else [("a", "")] + BarePairs(n - 1)
  }

  function BareAddress(host: string, n: nat): Address {
    Address("https:", "", "", host, "", "/", BarePairs(n + 1), "")
  }

  lemma {:induction false} BareKeysSize(n: nat)
    ensures |BareKeys(n)| == 2 * n
    ensures n > 0 ==> BareKeys(n)[2 * n - 1] == 'a'
  {
    if n > 0 {
      BareKeysSize(n - 1);
    }
  }

  lemma BareLinkIsTrimmed(host: string, n: nat)
    ensures Trim(BareLink(host, n)) == BareLink(host, n) && |BareLink(host, n)| == |host| + 11 + 2 * n
  {
    BareKeysSize(n);
    TrimFixes(BareLink(host, n));
  }

  lemma BareIsNoTracking()
    ensures !Tracking("a")
  {
    LowerFixes("a");
  }

  /** Each is printed with the sign of an empty value. */
  lemma {:induction false} BarePairsSize(encode: Encoding, n: nat)
    requires encode("a") == "a" && encode("") == ""
    ensures Untracked(BarePairs(n)) == BarePairs(n)
    ensures QueryLength(encode, BarePairs(n)) == 3 * n
  {
    if n > 0 {
      BareIsNoTracking();
      BarePairsSize(encode, n - 1);
      assert BarePairs(n)[1..] == BarePairs(n - 1);
    }
  }

  lemma BareAddressLength(host: string, encode: Encoding, n: nat)
    requires IsHost(host) && !HasWww(host) && encode("a") == "a" && encode("") == ""
    ensures PrintedLength(encode, BareAddress(host, n)) == |host| + 11 + 3 * n
  {
    BarePairsSize(encode, n + 1);
    HostIsKept(host);
    assert StripEnd("/", '/') == "";
  }

  /**
   * Links of at most 2048 characters, to any host without `www.`, whose canonical form is longer:
   * they are accepted, and the form they are accepted under is refused.
   */
  lemma GrowsTooLong(host: string, n: nat, parse: string -> Option<Address>, encode: Encoding, le: Order)
    requires IsHost(host) && !HasWww(host) && encode("a") == "a" && encode("") == ""
    requires |host| + 11 + 2 * n <= 2048 < |host| + 11 + 3 * n
    requires parse(BareLink(host, n)) == Some(BareAddress(host, n))
    requires ReadsBack(parse, encode, Canonized(le, BareAddress(host, n)).value)
    ensures Normalized(BareLink(host, n), parse, le).Some?
    ensures Normalized(Printed(encode, Normalized(BareLink(host, n), parse, le).value), parse, le) == None
  {
    BareLinkIsTrimmed(host, n);
    BareAddressLength(host, encode, n);
    TooLongIsRefused(BareLink(host, n), parse, encode, le, Canonized(le, BareAddress(host, n)).value);
  }

  // ---- A host at a time ------------------------------------------------------------

  function Plain(hostname: string): Address {
    Address("https:", "", "", hostname, "", "/", [], "")
  }

  lemma PlainCanonized(le: Order, hostname: string, kept: string)
    requires hostname != "" && HostKept(hostname) == kept
    ensures Canonized(le, Plain(hostname)) == Some(Canonical(kept, "", "", []))
  {
    assert StripEnd("/", '/') == "";
  }

  /** An accepted link to a host with two `www.`: each normalising takes one off. */
  lemma OneWwwAtATime(le: Order, host: string, once: string, twice: string)
    requires IsHost(host) && HasWww(host) && once == host[4..] && HasWww(once) && twice == once[4..]
    ensures Accepted(Plain(host)) && Canonized(le, Plain(host)) == Some(Canonical(once, "", "", []))
    ensures Canonized(le, Reparsed(Canonical(once, "", "", []))) == Some(Canonical(twice, "", "", []))
  {
    HostIsKept(host);
    BehindIsHost(host);
    HostIsKept(once);
    PlainCanonized(le, host, once);
    PlainCanonized(le, once, twice);
  }

  /** One such host. */
  lemma TwoWww()
    ensures var host := "www.www.me"; IsHost(host) && HasTwoWww(host)
  {
    LowerFixes("www.www.me");
  }

  // ---- Platforms -----------------------------------------------------------------

  datatype Platform = Catarse | Meeplestarter | Kickstarter | Benfeitoria | Gamefound | Other

  datatype Site = Site(platform: Platform, domain: string)

  const HOSTS: seq<Site> := [
    Site(Catarse, "catarse.me"),
    Site(Meeplestarter, "meeplestarter.com.br"),
    Site(Kickstarter, "kickstarter.com"),
    Site(Benfeitoria, "benfeitoria.com"),
    Site(Gamefound, "gamefound.com")]

  predicate EndsWith(s: string, tail: string) {
    |tail| <= |s| && s[|s| - |tail|..] == tail
  }

  /** The host is the domain, or one under it. */
  predicate At(host: string, domain: string) {
    host == domain || EndsWith(host, "." + domain)
  }

  function FirstSite(host: string, sites: seq<Site>): Platform {
    if sites == [] then Other
    else if At(host, sites[0].domain) then sites[0].platform
    else FirstSite(host, sites[1..])
  }

  function PlatformAt(host: string): Platform {
    if At(host, "catarse.com.br") then Catarse else FirstSite(host, HOSTS)
  }

  function PlatformOf(hostname: string): Platform {
    PlatformAt(StripEnd(Lower(hostname), '.'))
  }

  lemma AtWithoutWww(rest: string, domain: string)
    requires domain != "" && domain[0] != 'w'
    ensures At("www." + rest, domain) <==> At(rest, domain)
  {
    var host, tail := "www." + rest, "." + domain;
    if EndsWith(host, tail) {
      var p := |host| - |tail|;
      assert host[p] == host[p..][0] == '.';
      assert host[p..][1..] == domain;
      if p == 3 {
        assert host[4..] == rest;
        assert host[3..][1..] == host[4..];
      } else {
        assert host[p..] == rest[p - 4..];
      }
    }
    if rest == domain {
      assert host[3..] == tail;
    } else if EndsWith(rest, tail) {
      assert host[|host| - |tail|..] == rest[|rest| - |tail|..];
    }
  }

  lemma {:induction false} FirstSiteWithoutWww(rest: string, sites: seq<Site>)
    requires forall i | 0 <= i < |sites| :: sites[i].domain != "" && sites[i].domain[0] != 'w'
    ensures FirstSite("www." + rest, sites) == FirstSite(rest, sites)
  {
    if sites != [] {
      AtWithoutWww(rest, sites[0].domain);
      FirstSiteWithoutWww(rest, sites[1..]);
    }
  }

  lemma PlatformWithoutWww(host: string)
    ensures PlatformAt(WithoutWww(host)) == PlatformAt(host)
  {
    if HasWww(host) {
      assert host == "www." + host[4..];
      AtWithoutWww(host[4..], "catarse.com.br");
      FirstSiteWithoutWww(host[4..], HOSTS);
    }
  }

  /** A link and its canonical form belong to the same platform. */
  lemma PlatformStays(le: Order, a: Address)
    requires Accepted(a)
    ensures PlatformOf(Canonized(le, a).value.hostname) == PlatformOf(a.hostname)
  {
    if BareHost(a.hostname) != "" {
      HostShape(a.hostname);
      assert StripEnd(BareHost(a.hostname), '.') == BareHost(a.hostname);
      PlatformWithoutWww(StripEnd(Lower(a.hostname), '.'));
    }
  }

  // ---- Which host belongs where ------------------------------------------------------

  /** A host is at a domain when it is the domain, or ends in it behind a dot. */
  lemma AtIs(sub: string, domain: string)
    ensures At(domain, domain) && At(sub + ("." + domain), domain)
  {
    assert (sub + ("." + domain))[|sub|..] == "." + domain;
  }

  lemma AtNothingElse(host: string, domain: string) returns (sub: string)
    requires At(host, domain)
    ensures host == domain || host == sub + ("." + domain)
  {
    sub := "";
    if host != domain {
      sub := host[..|host| - |domain| - 1];
      assert host == sub + host[|sub|..];
    }
  }

  lemma AtEnds(host: string, domain: string, k: nat)
    requires At(host, domain) && 1 <= k <= |domain|
    ensures |host| >= k && host[|host| - k] == domain[|domain| - k]
  {
    var sub := AtNothingElse(host, domain);
  }

  /** No host is at two domains that differ `k` characters before their ends. */
  lemma AtOneOnly(host: string, domain: string, other: string, k: nat)
    requires 1 <= k <= |domain| && k <= |other| && domain[|domain| - k] != other[|other| - k]
    ensures !(At(host, domain) && At(host, other))
  {
    if At(host, domain) && At(host, other) {
      AtEnds(host, domain, k);
      AtEnds(host, other, k);
    }
  }

  lemma AtOnePlatform(host: string)
    ensures At(host, "catarse.me") ==> !At(host, "meeplestarter.com.br") && !At(host, "kickstarter.com")
    ensures At(host, "catarse.me") ==> !At(host, "benfeitoria.com") && !At(host, "gamefound.com")
    ensures At(host, "catarse.com.br") ==> !At(host, "meeplestarter.com.br") && !At(host, "kickstarter.com")
    ensures At(host, "catarse.com.br") ==> !At(host, "benfeitoria.com") && !At(host, "gamefound.com")
    ensures At(host, "meeplestarter.com.br") ==> !At(host, "kickstarter.com")
    ensures At(host, "meeplestarter.com.br") ==> !At(host, "benfeitoria.com") && !At(host, "gamefound.com")
    ensures At(host, "kickstarter.com") ==> !At(host, "benfeitoria.com") && !At(host, "gamefound.com")
    ensures At(host, "benfeitoria.com") ==> !At(host, "gamefound.com")
  {
    AtOneOnly(host, "catarse.me", "meeplestarter.com.br", 1);
    AtOneOnly(host, "catarse.me", "kickstarter.com", 1);
    AtOneOnly(host, "catarse.me", "benfeitoria.com", 1);
    AtOneOnly(host, "catarse.me", "gamefound.com", 1);
    AtOneOnly(host, "catarse.com.br", "meeplestarter.com.br", 8);
    AtOneOnly(host, "catarse.com.br", "kickstarter.com", 1);
    AtOneOnly(host, "catarse.com.br", "benfeitoria.com", 1);
    AtOneOnly(host, "catarse.com.br", "gamefound.com", 1);
    AtOneOnly(host, "meeplestarter.com.br", "kickstarter.com", 1);
    AtOneOnly(host, "meeplestarter.com.br", "benfeitoria.com", 1);
    AtOneOnly(host, "meeplestarter.com.br", "gamefound.com", 1);
    AtOneOnly(host, "kickstarter.com", "benfeitoria.com", 5);
    AtOneOnly(host, "kickstarter.com", "gamefound.com", 5);
    AtOneOnly(host, "benfeitoria.com", "gamefound.com", 5);
  }

  /** The platform of a host is the one at whose domain it is, and none if it is at none of them. */
  lemma PlatformIs(host: string)
    ensures PlatformAt(host) == Catarse <==> At(host, "catarse.me") || At(host, "catarse.com.br")
    ensures PlatformAt(host) == Meeplestarter <==> At(host, "meeplestarter.com.br")
    ensures PlatformAt(host) == Kickstarter <==> At(host, "kickstarter.com")
    ensures PlatformAt(host) == Benfeitoria <==> At(host, "benfeitoria.com")
    ensures PlatformAt(host) == Gamefound <==> At(host, "gamefound.com")
  {
    AtOnePlatform(host);
    FirstSiteIs(host);
  }

  lemma {:induction false} FirstSiteAt(host: string, sites: seq<Site>, i: nat)
    requires i < |sites| && At(host, sites[i].domain) && forall k | 0 <= k < i :: !At(host, sites[k].domain)
    ensures FirstSite(host, sites) == sites[i].platform
  {
    if i > 0 {
      FirstSiteAt(host, sites[1..], i - 1);
    }
  }

  lemma {:induction false} NoSite(host: string, sites: seq<Site>)
    requires forall k | 0 <= k < |sites| :: !At(host, sites[k].domain)
    ensures FirstSite(host, sites) == Other
  {
    if sites != [] {
      NoSite(host, sites[1..]);
    }
  }

  lemma FirstOfFive(host: string, sites: seq<Site>)
    requires |sites| == 5
    ensures FirstSite(host, sites) ==
            if At(host, sites[0].domain) then sites[0].platform
            else if At(host, sites[1].domain) then sites[1].platform
            else if At(host, sites[2].domain) then sites[2].platform
            else if At(host, sites[3].domain) then sites[3].platform
            else if At(host, sites[4].domain) then sites[4].platform
            else Other
  {
    if k: nat :| k < 5 && At(host, sites[k].domain) && forall j | 0 <= j < k :: !At(host, sites[j].domain) {
      FirstSiteAt(host, sites, k);
    } else if forall k | 0 <= k < |sites| :: !At(host, sites[k].domain) {
      NoSite(host, sites);
    }
  }

  lemma FirstSiteIs(host: string)
    ensures FirstSite(host, HOSTS) ==
            if At(host, "catarse.me") then Catarse
            else if At(host, "meeplestarter.com.br") then Meeplestarter
            else if At(host, "kickstarter.com") then Kickstarter
            else if At(host, "benfeitoria.com") then Benfeitoria
            else if At(host, "gamefound.com") then Gamefound
            else Other
  {
    FirstOfFive(host, HOSTS);
  }
}
