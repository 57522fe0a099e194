/** One frontmatter value: how it is read, and every way to write it. */
module FrontmatterValue {
  import opened Text

  datatype Value = Flag(on: bool) | Words(text: string) | Items(items: seq<Value>)

  /** What `.` does not match in a regular expression. */
  predicate IsTerminator(c: char) {
    c == '\n' || c == '\r' || c == '\U{2028}' || c == '\U{2029}'
  }

  predicate OneLine(s: string) {
    forall i | 0 <= i < |s| :: !IsTerminator(s[i])
  }

  /** `s.split(',')` */
  function Commas(s: string): (parts: seq<string>)
    ensures parts != [] && forall i | 0 <= i < |parts| :: |parts[i]| <= |s|
  {
    if s == "" then [""]
    else
      var rest := Commas(s[1..]);
      if s[0] == ',' then [""] + rest else [[s[0]] + rest[0]] + rest[1..]
  }

  /** `/^"(.*)"$|^'(.*)'$/` */
  predicate IsQuoted(text: string) {
    && |text| >= 2 && (text[0] == '"' || text[0] == '\'') && text[|text| - 1] == text[0]
    && OneLine(text[1..|text| - 1])
  }

  predicate IsList(text: string) {
    |text| >= 2 && text[0] == '[' && text[|text| - 1] == ']'
  }

  /** A quoted or plain string, `true`/`false`, or a list of values. */
  function ReadValue(raw: string): Value
    decreases |raw|, 0
  {
    var text := Trim(raw);
    if text == "true" || text == "false" then Flag(text == "true")
    else if IsList(text) then Items(ReadItems(Commas(text[1..|text| - 1]), |text| - 2))
    else if IsQuoted(text) then Words(text[1..|text| - 1])
    else Words(text)
  }

  /** The values of a list, empty strings left out. No part is longer than `size`. */
  function ReadItems(parts: seq<string>, ghost size: nat): seq<Value>
    requires forall i | 0 <= i < |parts| :: |parts[i]| <= size
    decreases size, |parts| + 1
  {
    if parts == [] then []
    else
      var item := ReadValue(parts[0]);
      (if item == Words("") then [] else [item]) + ReadItems(parts[1..], size)
  }

  // ---- Spellings ---------------------------------------------------------------

  /** A way to write a value down: a flag, plain text, text in quotes of either kind, or a list. */
  datatype Spelling =
    | FlagWord(on: bool)
    | Bare(text: string)
    | Quoted(quote: char, text: string)
    | List(parts: seq<Part>)

  /** A spelling with white space around it. */
  datatype Part = Part(before: string, spelling: Spelling, after: string)

  function Written(s: Spelling): string {
    match s
    case FlagWord(on) => if on then "true" else "false"
    case Bare(text) => text
    case Quoted(quote, text) => [quote] + text + [quote]
    case List(parts) => "[" + Joined(parts) + "]"
  }

  function WrittenPart(p: Part): string {
    p.before + (Written(p.spelling) + p.after)
  }

  function Joined(parts: seq<Part>): string {
    if parts == [] then ""
    else if |parts| == 1 then WrittenPart(parts[0])
    else WrittenPart(parts[0]) + "," + Joined(parts[1..])
  }

  /** What it says. An item that says nothing is not in the list. */
  function Meaning(s: Spelling): Value {
    match s
    case FlagWord(on) => Flag(on)
    case Bare(text) => Words(text)
    case Quoted(_, text) => Words(text)
    case List(parts) => Items(Meanings(parts))
  }

  function Meanings(parts: seq<Part>): seq<Value> {
    if parts == [] then [] else NotEmpty(Meaning(parts[0].spelling)) + Meanings(parts[1..])
  }

  function NotEmpty(v: Value): seq<Value> {
    if v == Words("") then [] else [v]
  }

  /** Text that stands for itself without quotes. */
  predicate IsBare(text: string) {
    Trim(text) == text && text != "true" && text != "false" && !IsList(text) && !IsQuoted(text)
  }

  predicate WellSpelled(s: Spelling) {
    match s
    case FlagWord(_) => true
    case Bare(text) => IsBare(text)
    case Quoted(quote, text) => (quote == '"' || quote == '\'') && OneLine(text)
    case List(parts) => AllFit(parts)
  }

  predicate PartFits(p: Part) {
    IsBlank(p.before) && WellSpelled(p.spelling) && IsBlank(p.after)
  }

  /** A list is taken apart at every comma, in quotes or not. */
  predicate AllFit(parts: seq<Part>) {
    parts != [] ==> PartFits(parts[0]) && ',' !in WrittenPart(parts[0]) && AllFit(parts[1..])
  }

  // ---- Reading them back -------------------------------------------------------

  /** Plain text reads as itself exactly when it is trimmed and looks like nothing else. */
  lemma BareReads(text: string)
    ensures ReadValue(text) == Words(text) <==> IsBare(text)
  {
  }

  lemma QuotedIs(quote: char, text: string)
    requires quote == '"' || quote == '\''
    ensures var quoted := [quote] + text + [quote];
      && Trim(quoted) == quoted && !IsList(quoted) && quoted != "true" && quoted != "false"
      && quoted[1..|quoted| - 1] == text && (IsQuoted(quoted) <==> OneLine(text))
  {
    var quoted := [quote] + text + [quote];
    TrimFixes(quoted);
    assert quoted[1..|quoted| - 1] == text;
  }

  /** Text in quotes, of either kind and with any quotes inside, reads as itself exactly when it is of one line. */
  lemma QuotedReads(quote: char, text: string)
    requires quote == '"' || quote == '\''
    ensures ReadValue([quote] + text + [quote]) == Words(text) <==> OneLine(text)
  {
    QuotedIs(quote, text);
  }

  lemma FlagReads(on: bool)
    ensures ReadValue(Written(FlagWord(on))) == Flag(on)
  {
    TrimFixes(Written(FlagWord(on)));
  }

  lemma SameTrim(s: string, t: string)
    requires Trim(s) == Trim(t)
    ensures ReadValue(s) == ReadValue(t)
  {
  }

  lemma {:induction false} NoCommas(p: string)
    requires ',' !in p
    ensures Commas(p) == [p]
  {
    if p != "" {
      NoCommas(p[1..]);
      assert [p[0]] + p[1..] == p;
    }
  }

  lemma {:induction false} FirstComma(p: string, rest: string)
    requires ',' !in p
    ensures Commas(p + "," + rest) == [p] + Commas(rest)
  {
    var s := p + "," + rest;
    if p == "" {
      assert s[1..] == rest;
    } else {
      assert s[1..] == p[1..] + "," + rest;
      FirstComma(p[1..], rest);
      assert [p[0]] + p[1..] == p;
    }
  }

  lemma NextItem(part: string, parts: seq<string>, item: Value, items: seq<Value>, size: nat)
    requires ReadValue(part) == item && |part| <= size
    requires (forall i | 0 <= i < |parts| :: |parts[i]| <= size) && ReadItems(parts, size) == items
    ensures ReadItems([part] + parts, size) == NotEmpty(item) + items
  {
    assert ([part] + parts)[1..] == parts;
  }

  lemma OneItem(text: string, item: Value, size: nat)
    requires ',' !in text && ReadValue(text) == item && |text| <= size
    ensures ReadItems(Commas(text), size) == NotEmpty(item)
  {
    NoCommas(text);
    NextItem(text, [], item, [], size);
    assert [text] + [] == [text];
  }

  lemma MoreItems(text: string, rest: string, item: Value, items: seq<Value>, size: nat)
    requires ',' !in text && ReadValue(text) == item && |text + "," + rest| <= size
    requires ReadItems(Commas(rest), size) == items
    ensures ReadItems(Commas(text + "," + rest), size) == NotEmpty(item) + items
  {
    FirstComma(text, rest);
    NextItem(text, Commas(rest), item, items, size);
  }

  lemma NoItems(size: nat)
    ensures ReadItems(Commas(""), size) == []
  {
    BareReads("");
    OneItem("", Words(""), size);
  }

  lemma Bracketed(inner: string)
    ensures var text := "[" + inner + "]";
      Trim(text) == text && IsList(text) && text[1..|text| - 1] == inner && text != "true" && text != "false"
  {
    var text := "[" + inner + "]";
    TrimFixes(text);
    assert text[0] == '[';
  }

  lemma ReadsList(text: string, inner: string, items: seq<Value>)
    requires Trim(text) == text && IsList(text) && text != "true" && text != "false"
    requires text[1..|text| - 1] == inner && ReadItems(Commas(inner), |text| - 2) == items
    ensures ReadValue(text) == Items(items)
  {
  }

  lemma ListReads(inner: string, items: seq<Value>, size: nat)
    requires size == |inner| && ReadItems(Commas(inner), size) == items
    ensures ReadValue("[" + inner + "]") == Items(items)
  {
    Bracketed(inner);
    ReadsList("[" + inner + "]", inner, items);
  }

  /** Every spelling of a value reads as that value: plain, in either quotes, or as a list, lists in lists included. */
  lemma {:induction false} SpellingReads(s: Spelling)
    requires WellSpelled(s)
    ensures ReadValue(Written(s)) == Meaning(s)
    decreases s, 0
  {
    match s
    case FlagWord(on) => FlagReads(on);
    case Bare(text) => BareReads(text);
    case Quoted(quote, text) => QuotedReads(quote, text);
    case List(parts) =>
      PartsRead(parts, |Joined(parts)|);
      ListReads(Joined(parts), Meanings(parts), |Joined(parts)|);
  }

  /** White space around it makes no difference. */
  lemma {:induction false} PartReads(p: Part)
    requires PartFits(p)
    ensures ReadValue(WrittenPart(p)) == Meaning(p.spelling)
    decreases p, 1
  {
    TrimPads(p.before, Written(p.spelling), p.after);
    SameTrim(WrittenPart(p), Written(p.spelling));
    SpellingReads(p.spelling);
  }

  lemma {:induction false} PartsRead(parts: seq<Part>, size: nat)
    requires AllFit(parts) && |Joined(parts)| <= size
    ensures ReadItems(Commas(Joined(parts)), size) == Meanings(parts)
    decreases parts, 2
  {
    if parts == [] {
      NoItems(size);
    } else {
      PartReads(parts[0]);
      if |parts| == 1 {
        OneItem(WrittenPart(parts[0]), Meaning(parts[0].spelling), size);
        assert Meanings(parts[1..]) == [];
      } else {
        PartsRead(parts[1..], size);
        MoreItems(WrittenPart(parts[0]), Joined(parts[1..]), Meaning(parts[0].spelling), Meanings(parts[1..]), size);
      }
    }
  }

  // ---- Commas ------------------------------------------------------------------

  lemma {:induction false} PartsHoldNone(s: string)
    ensures forall i | 0 <= i < |Commas(s)| :: ',' !in Commas(s)[i]
  {
    if s != "" {
      PartsHoldNone(s[1..]);
    }
  }

  lemma {:induction false} TrimsWithin(s: string, c: char)
    requires c !in s
    ensures c !in Trim(s)
  {
    StartWithin(s, c);
    EndWithin(TrimStart(s), c);
  }

  lemma {:induction false} StartWithin(s: string, c: char)
    requires c !in s
    ensures c !in TrimStart(s)
  {
    if s != "" && IsSpace(s[0]) {
      StartWithin(s[1..], c);
    }
  }

  lemma {:induction false} EndWithin(s: string, c: char)
    requires c !in s
    ensures c !in TrimEnd(s)
  {
    if s != "" && IsSpace(s[|s| - 1]) {
      EndWithin(s[..|s| - 1], c);
    }
  }

  lemma ReadsNone(part: string)
    requires ',' !in part
    ensures ReadValue(part).Words? ==> ',' !in ReadValue(part).text
  {
    TrimsWithin(part, ',');
  }

  lemma {:induction false} ItemsHoldNone(parts: seq<string>, size: nat)
    requires forall i | 0 <= i < |parts| :: |parts[i]| <= size && ',' !in parts[i]
    ensures forall v | v in ReadItems(parts, size) :: v.Words? ==> ',' !in v.text
  {
    if parts != [] {
      ReadsNone(parts[0]);
      ItemsHoldNone(parts[1..], size);
    }
  }

  lemma CommaIsLost(inner: string, text: string)
    requires ',' in text
    ensures ReadValue("[" + inner + "]") != Items([Words(text)])
  {
    PartsHoldNone(inner);
    ItemsHoldNone(Commas(inner), |inner|);
    var items := ReadItems(Commas(inner), |inner|);
    ListReads(inner, items, |inner|);
    assert Words(text) !in items;
    assert Words(text) in [Words(text)];
  }

  /** Quotes do not keep a comma in a list: a text comes back from one exactly when it holds none, and is not empty. */
  lemma ItemReads(quote: char, text: string)
    requires (quote == '"' || quote == '\'') && OneLine(text)
    ensures ReadValue("[" + ([quote] + text + [quote]) + "]") == Items([Words(text)]) <==> text != "" && ',' !in text
  {
    var quoted := [quote] + text + [quote];
    if ',' in text {
      CommaIsLost(quoted, text);
    } else {
      QuotedReads(quote, text);
      OneItem(quoted, Words(text), |quoted|);
      ListReads(quoted, NotEmpty(Words(text)), |quoted|);
    }
  }

  function Rejoined(parts: seq<string>): string
    requires parts != []
  {
    if |parts| == 1 then parts[0] else parts[0] + "," + Rejoined(parts[1..])
  }

  /** A list is taken apart at its commas and nowhere else. */
  lemma {:induction false} CommasRejoin(s: string)
    ensures Rejoined(Commas(s)) == s
  {
    if s != "" {
      CommasRejoin(s[1..]);
      var parts := Commas(s[1..]);
      if s[0] == ',' {
        assert ([""] + parts)[1..] == parts;
        assert "" + "," + s[1..] == s;
      } else {
        FirstGrows(s[0], parts);
        assert [s[0]] + s[1..] == s;
      }
    }
  }

  lemma FirstGrows(c: char, parts: seq<string>)
    requires parts != []
    ensures Rejoined([[c] + parts[0]] + parts[1..]) == [c] + Rejoined(parts)
  {
    assert ([[c] + parts[0]] + parts[1..])[1..] == parts[1..];
    if |parts| > 1 {
      assert [c] + parts[0] + "," + Rejoined(parts[1..]) == [c] + (parts[0] + "," + Rejoined(parts[1..]));
    }
  }

  /** A line ends at these four characters, by number. */
  lemma TerminatorsAre(c: char)
    ensures IsTerminator(c) <==> c as int == 10 || c as int == 13 || c as int == 8232 || c as int == 8233
  {
  }
}
