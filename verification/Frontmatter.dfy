/** Blog posts: the frontmatter block on top of a Markdown file. */
module Frontmatter {
  import opened Wrappers
  import opened Text
  import opened FrontmatterValue

  datatype Error = MissingBlock | NotAPair(line: string) | Repeats(key: string)

  datatype Parsed = Parsed(fields: map<string, Value>, body: string) | Refused(error: Error)

  // ---- The block ---------------------------------------------------------------

  /** The length of the line break `\r?\n` that `s` starts with, 0 when it does not. */
  function Break(s: string): (n: nat)
    ensures n <= |s|
  {
    if s != "" && s[0] == '\n' then 1 else if |s| >= 2 && s[0] == '\r' && s[1] == '\n' then 2 else 0
  }

  predicate Dashes(s: string) {
    |s| >= 3 && s[0] == '-' && s[1] == '-' && s[2] == '-'
  }

  /** `s.split(/\r?\n/)` */
  function Lines(s: string): (lines: seq<string>)
    ensures lines != []
    decreases |s|
  {
    if s == "" then [""]
    else if Break(s) > 0 then [""] + Lines(s[Break(s)..])
    else
      var rest := Lines(s[1..]);
      [[s[0]] + rest[0]] + rest[1..]
  }

  /** The text before the first line break followed by three dashes, and the text after the dashes. */
  function Fenced(s: string): Option<(string, string)> {
    if Break(s) > 0 && Dashes(s[Break(s)..]) then Some(("", s[Break(s) + 3..]))
    else if s == "" then None
    else
      match Fenced(s[1..])
      case None => None
      case Some((block, rest)) => Some(([s[0]] + block, rest))
  }

  /** `\r?\n?` off the front. */
  function AfterFence(s: string): string {
    var t := if s != "" && s[0] == '\r' then s[1..] else s;
    if t != "" && t[0] == '\n' then t[1..] else t
  }

  predicate IsLetter(c: char) {
    'a' <= c <= 'z'
  }

  /** How many letters `line` starts with. */
  function KeyLength(line: string): (n: nat)
    ensures n <= |line| && forall i | 0 <= i < n :: IsLetter(line[i])
    ensures n < |line| ==> !IsLetter(line[n])
  {
    if line != "" && IsLetter(line[0]) then 1 + KeyLength(line[1..]) else 0
  }

  /** Blank lines and comments. */
  predicate IsIgnored(line: string) {
    Trim(line) == "" || (TrimStart(line) != "" && TrimStart(line)[0] == '#')
  }

  /** `/^([a-z]+):(.*)$/` */
  predicate IsPair(line: string) {
    var n := KeyLength(line);
    n >= 1 && n < |line| && line[n] == ':' && OneLine(line[n + 1..])
  }

  function KeyOf(line: string): string {
    line[..KeyLength(line)]
  }

  /** `key in fields`, which an object answers for what it inherits too. */
  predicate Has(fields: map<string, Value>, key: string) {
    key in fields || key == "constructor"
  }

  /** The fields of `lines` on top of `fields`, or the first error. */
  function Collect(lines: seq<string>, fields: map<string, Value>, body: string): Parsed {
    if lines == [] then Parsed(fields, body)
    else if IsIgnored(lines[0]) then Collect(lines[1..], fields, body)
    else if !IsPair(lines[0]) then Refused(NotAPair(lines[0]))
    else
      var key := KeyOf(lines[0]);
      if Has(fields, key) then Refused(Repeats(key))
      else Collect(lines[1..], fields[key := ReadValue(lines[0][|key| + 1..])], body)
  }

  /** The text after the opening dashes and their line break. */
  function Opened(source: string): Option<string> {
    if !Dashes(source) || Break(source[3..]) == 0 then None
    else Some(source[3 + Break(source[3..])..])
  }

  /** The block between the fences, and what follows. */
  function Parts(source: string): Option<(string, string)> {
    match Opened(source)
    case None => None
    case Some(inner) => Fenced(inner)
  }

  function Split(source: string): Parsed {
    match Parts(source)
    case None => Refused(MissingBlock)
    case Some((block, rest)) => Collect(Lines(block), map[], Trim(AfterFence(rest)))
  }

  lemma CollectStep(lines: seq<string>, i: nat, line: string, fields: map<string, Value>, body: string)
    requires i < |lines| && line == lines[i]
    ensures Collect(lines[i..], fields, body) ==
            if IsIgnored(line) then Collect(lines[i + 1..], fields, body)
            else if !IsPair(line) then Refused(NotAPair(line))
            else if Has(fields, KeyOf(line)) then Refused(Repeats(KeyOf(line)))
            else Collect(lines[i + 1..], fields[KeyOf(line) := ReadValue(line[|KeyOf(line)| + 1..])], body)
  {
    assert lines[i..][0] == line && lines[i..][1..] == lines[i + 1..];
  }

  /** The fields, filled line by line. */
  method ReadFields(lines: seq<string>, body: string) returns (parsed: Parsed)
    ensures parsed == Collect(lines, map[], body)
  {
    var fields: map<string, Value> := map[];
    assert lines[0..] == lines;
    for i := 0 to |lines|
      invariant Collect(lines[i..], fields, body) == Collect(lines, map[], body)
    {
      var line := lines[i];
      CollectStep(lines, i, line, fields, body);
      if IsIgnored(line) {
        continue;
      }
      if !IsPair(line) {
        return Refused(NotAPair(line));
      }
      var key := KeyOf(line);
      if Has(fields, key) {
        return Refused(Repeats(key));
      }
      fields := fields[key := ReadValue(line[|key| + 1..])];
    }
    return Parsed(fields, body);
  }

  /** Splits a file into its fields and its body. */
  method SplitFrontmatter(source: string) returns (parsed: Parsed)
    ensures parsed == Split(source)
  {
    var parts := Parts(source);
    if parts == None {
      return Refused(MissingBlock);
    }
    var (block, rest) := parts.value;
    parsed := ReadFields(Lines(block), Trim(AfterFence(rest)));
  }

  // ---- Whole files -------------------------------------------------------------

  /** A line of a block: a key and its value, however it is spelled and padded; or one that does not count. */
  datatype Line = Pair(key: string, part: Part) | Skipped(text: string)

  predicate IsKey(key: string) {
    key != "" && forall i | 0 <= i < |key| :: IsLetter(key[i])
  }

  predicate WellFormed(line: Line) {
    match line
    case Pair(key, part) => IsKey(key) && PartFits(part) && OneLine(WrittenPart(part))
    case Skipped(text) => IsIgnored(text) && OneLine(text)
  }

  function PrintLine(line: Line): string {
    match line
    case Pair(key, part) => key + ":" + WrittenPart(part)
    case Skipped(text) => text
  }

  /** The lines with a break between each two. */
  function Block(lines: seq<Line>, eol: string): string
    requires lines != []
  {
    if |lines| == 1 then PrintLine(lines[0]) else PrintLine(lines[0]) + (eol + Block(lines[1..], eol))
  }

  function PrintFile(lines: seq<Line>, eol: string, body: string): string
    requires lines != []
  {
    "---" + (eol + (Block(lines, eol) + (eol + ("---" + (eol + body)))))
  }

  /** What a list of lines says, in order: the fields, or the first key that is not new. */
  function Said(lines: seq<Line>, fields: map<string, Value>, body: string): Parsed {
    if lines == [] then Parsed(fields, body)
    else if !lines[0].Pair? then Said(lines[1..], fields, body)
    else if Has(fields, lines[0].key) then Refused(Repeats(lines[0].key))
    else Said(lines[1..], fields[lines[0].key := Meaning(lines[0].part.spelling)], body)
  }

  lemma {:induction false} KeyLengthOf(key: string, rest: string)
    requires forall i | 0 <= i < |key| :: IsLetter(key[i])
    ensures KeyLength(key + ":" + rest) == |key|
  {
    var line := key + ":" + rest;
    if key != "" {
      assert line[1..] == key[1..] + ":" + rest;
      KeyLengthOf(key[1..], rest);
    }
  }

  /** A line with a key, a colon and more on the same line is that pair. */
  lemma PairIs(line: string, key: string, rest: string)
    requires line == key + ":" + rest && IsKey(key) && OneLine(rest)
    ensures !IsIgnored(line) && IsPair(line) && KeyOf(line) == key && line[|key| + 1..] == rest && OneLine(line)
  {
    assert line[|key| + 1..] == rest;
    assert line[..|key|] == key;
    KeyLengthOf(key, rest);
    assert line[0] == key[0];
    FirstStays(line);
  }

  /** A printed pair is read as that pair, with what its spelling means. */
  lemma PairReads(line: string, key: string, part: Part)
    requires line == PrintLine(Pair(key, part)) && WellFormed(Pair(key, part))
    ensures !IsIgnored(line) && IsPair(line) && KeyOf(line) == key
    ensures ReadValue(line[|key| + 1..]) == Meaning(part.spelling) && OneLine(line)
  {
    PartReads(part);
    PairIs(line, key, WrittenPart(part));
  }

  lemma FirstStays(line: string)
    requires line != "" && !IsSpace(line[0])
    ensures TrimStart(line) == line && Trim(line) != ""
  {
    TrimEndKeeps(line);
  }

  lemma IgnoredStart(text: string)
    requires IsIgnored(text)
    ensures NoDash(text)
  {
    if text != "" && text[0] == '-' {
      FirstStays(text);
    }
  }

  lemma LineReads(line: Line)
    requires WellFormed(line)
    ensures OneLine(PrintLine(line)) && NoDash(PrintLine(line))
  {
    match line
    case Pair(key, part) =>
      PairReads(PrintLine(line), key, part);
      assert PrintLine(line)[0] == key[0];
    case Skipped(text) =>
      IgnoredStart(text);
  }

  ghost predicate AllWellFormed(lines: seq<Line>) {
    forall i | 0 <= i < |lines| :: WellFormed(lines[i])
  }

  predicate NoDash(s: string) {
    s == "" || s[0] != '-'
  }

  predicate IsBreak(eol: string) {
    eol == "\n" || eol == "\r\n"
  }

  function PrintLines(lines: seq<Line>): seq<string> {
    if lines == [] then [] else [PrintLine(lines[0])] + PrintLines(lines[1..])
  }

  lemma CollectPair(line: string, rest: seq<string>, key: string, part: Part, fields: map<string, Value>,
                    body: string)
    requires line == PrintLine(Pair(key, part)) && WellFormed(Pair(key, part))
    ensures Collect([line] + rest, fields, body) ==
            if Has(fields, key) then Refused(Repeats(key))
            else Collect(rest, fields[key := Meaning(part.spelling)], body)
  {
    PairReads(line, key, part);
    assert ([line] + rest)[1..] == rest;
  }

  lemma CollectSkipped(text: string, rest: seq<string>, fields: map<string, Value>, body: string)
    requires IsIgnored(text)
    ensures Collect([text] + rest, fields, body) == Collect(rest, fields, body)
  {
    assert ([text] + rest)[1..] == rest;
  }

  lemma {:induction false} CollectsSaid(lines: seq<Line>, fields: map<string, Value>, body: string)
    requires AllWellFormed(lines)
    ensures Collect(PrintLines(lines), fields, body) == Said(lines, fields, body)
  {
    if lines != [] {
      var rest := PrintLines(lines[1..]);
      match lines[0]
      case Pair(key, part) =>
        CollectPair(PrintLine(lines[0]), rest, key, part, fields, body);
        CollectsSaid(lines[1..], fields[key := Meaning(part.spelling)], body);
      case Skipped(text) =>
        CollectSkipped(text, rest, fields, body);
        CollectsSaid(lines[1..], fields, body);
    }
  }

  lemma {:induction false} NoBreaks(p: string)
    requires OneLine(p)
    ensures Lines(p) == [p]
  {
    if p != "" {
      NoBreaks(p[1..]);
      assert [p[0]] + p[1..] == p;
    }
  }

  lemma {:induction false} FirstBreak(p: string, eol: string, rest: string)
    requires OneLine(p) && IsBreak(eol)
    ensures Lines(p + (eol + rest)) == [p] + Lines(rest)
  {
    var s := p + (eol + rest);
    if p == "" {
      assert s == eol + rest;
      assert Break(s) == |eol|;
      assert s[|eol|..] == rest;
    } else {
      assert s[1..] == p[1..] + (eol + rest);
      assert s[0] == p[0];
      FirstBreak(p[1..], eol, rest);
      assert [p[0]] + p[1..] == p;
    }
  }

  /** The block comes apart into its lines. */
  lemma {:induction false} BlockLines(lines: seq<Line>, eol: string)
    requires lines != [] && AllWellFormed(lines) && IsBreak(eol)
    ensures Lines(Block(lines, eol)) == PrintLines(lines)
  {
    LineReads(lines[0]);
    if |lines| == 1 {
      NoBreaks(PrintLine(lines[0]));
    } else {
      FirstBreak(PrintLine(lines[0]), eol, Block(lines[1..], eol));
      BlockLines(lines[1..], eol);
    }
  }

  lemma FenceHere(eol: string, rest: string)
    requires IsBreak(eol)
    ensures Fenced(eol + ("---" + rest)) == Some(("", rest))
  {
    var s := eol + ("---" + rest);
    assert Break(s) == |eol|;
    assert s[|eol|..] == "---" + rest;
    assert s[|eol| + 3..] == rest;
  }

  lemma FenceStep(s: string, block: string, rest: string)
    requires s != "" && (Break(s) == 0 || !Dashes(s[Break(s)..]))
    requires Fenced(s[1..]) == Some((block, rest))
    ensures Fenced(s) == Some(([s[0]] + block, rest))
  {
  }

  lemma NewLineIsNoFence(s: string, later: string, block: string, rest: string)
    requires s == ['\n'] + later && NoDash(later) && Fenced(later) == Some((block, rest))
    ensures Fenced(s) == Some((['\n'] + block, rest))
  {
    assert s[1..] == later;
    FenceStep(s, block, rest);
  }

  lemma ReturnIsNoFence(s: string, one: string, block: string, rest: string)
    requires s == ['\r'] + one && one != "" && one[0] == '\n' && NoDash(one[1..]) && Fenced(one) == Some((block, rest))
    ensures Fenced(s) == Some((['\r'] + block, rest))
  {
    assert s[1..] == one;
    assert s[2..] == one[1..];
    FenceStep(s, block, rest);
  }

  lemma BothAreNoFence(later: string, block: string, rest: string)
    requires NoDash(later) && Fenced(later) == Some((block, rest))
    ensures Fenced(['\r'] + (['\n'] + later)) == Some((['\r'] + (['\n'] + block), rest))
  {
    var one := ['\n'] + later;
    assert one[1..] == later;
    NewLineIsNoFence(one, later, block, rest);
    ReturnIsNoFence(['\r'] + one, one, ['\n'] + block, rest);
  }

  lemma Unpaired(s: string)
    ensures "\r\n" + s == ['\r'] + (['\n'] + s)
  {
  }

  /** A break before a line that does not start with a dash is not the fence. */
  lemma BreakIsNoFence(eol: string, later: string, block: string, rest: string)
    requires IsBreak(eol) && NoDash(later) && Fenced(later) == Some((block, rest))
    ensures Fenced(eol + later) == Some((eol + block, rest))
  {
    if eol == "\n" {
      NewLineIsNoFence(eol + later, later, block, rest);
    } else {
      BothAreNoFence(later, block, rest);
      Unpaired(later);
      Unpaired(block);
    }
  }

  lemma FenceOneLater(c: char, tail: string, block: string, rest: string)
    requires !IsTerminator(c) && Fenced(tail) == Some((block, rest))
    ensures Fenced([c] + tail) == Some(([c] + block, rest))
  {
    var s := [c] + tail;
    assert s[1..] == tail;
    FenceStep(s, block, rest);
  }

  lemma {:induction false} FenceLater(p: string, later: string, block: string, rest: string)
    requires OneLine(p) && Fenced(later) == Some((block, rest))
    ensures Fenced(p + later) == Some((p + block, rest))
  {
    if p == "" {
      assert p + later == later;
      assert p + block == block;
    } else {
      FenceLater(p[1..], later, block, rest);
      FenceOneLater(p[0], p[1..] + later, p[1..] + block, rest);
      FirstBefore(p, later);
      FirstBefore(p, block);
    }
  }

  lemma FirstBefore(p: string, tail: string)
    requires p != ""
    ensures [p[0]] + (p[1..] + tail) == p + tail
  {
  }

  lemma BlockStart(lines: seq<Line>, eol: string, after: string)
    requires lines != [] && AllWellFormed(lines) && IsBreak(eol)
    ensures NoDash(Block(lines, eol) + (eol + after))
  {
    var p := PrintLine(lines[0]);
    LineReads(lines[0]);
    if p != "" {
      assert Block(lines, eol)[0] == p[0];
    } else if |lines| > 1 {
      assert Block(lines, eol)[0] == eol[0];
    }
  }

  lemma FencedTail(p: string, eol: string, later: string, block: string, rest: string)
    requires OneLine(p) && IsBreak(eol) && NoDash(later) && Fenced(later) == Some((block, rest))
    ensures Fenced(p + (eol + later)) == Some((p + (eol + block), rest))
  {
    BreakIsNoFence(eol, later, block, rest);
    FenceLater(p, eol + later, eol + block, rest);
  }

  lemma Nested(p: string, eol: string, tail: string, close: string)
    ensures (p + (eol + tail)) + close == p + (eol + (tail + close))
  {
  }

  /** The closing dashes are found, and none before them. */
  lemma {:induction false} BlockFenced(lines: seq<Line>, eol: string, rest: string)
    requires lines != [] && AllWellFormed(lines) && IsBreak(eol)
    ensures Fenced(Block(lines, eol) + (eol + ("---" + rest))) == Some((Block(lines, eol), rest))
  {
    var p, close := PrintLine(lines[0]), eol + ("---" + rest);
    LineReads(lines[0]);
    if |lines| == 1 {
      FenceHere(eol, rest);
      FenceLater(p, close, "", rest);
      assert p + "" == p;
    } else {
      var tail := Block(lines[1..], eol);
      BlockFenced(lines[1..], eol, rest);
      BlockStart(lines[1..], eol, "---" + rest);
      FencedTail(p, eol, tail + close, tail, rest);
      Nested(p, eol, tail, close);
    }
  }

  /** The optional break after the fence is white space anyway. */
  lemma AfterFenceTrims(s: string)
    ensures Trim(AfterFence(s)) == Trim(s)
  {
    var t := if s != "" && s[0] == '\r' then s[1..] else s;
    if s != t {
      TrimSpace('\r', t);
      assert s == ['\r'] + t;
    }
    if t != AfterFence(s) {
      TrimSpace('\n', t[1..]);
      assert t == ['\n'] + t[1..];
    }
  }

  lemma {:induction false} BreakTrims(eol: string, body: string)
    requires IsBreak(eol)
    ensures Trim(eol + body) == Trim(body)
  {
    if eol == "\n" {
      TrimSpace('\n', body);
    } else {
      TrimSpace('\n', body);
      TrimSpace('\r', "\n" + body);
      assert eol + body == ['\r'] + ("\n" + body);
    }
  }

  lemma BreakOf(eol: string, rest: string)
    requires IsBreak(eol)
    ensures Break(eol + rest) == |eol| && (eol + rest)[|eol|..] == rest
  {
  }

  lemma DashesOpen(eol: string, inner: string, source: string)
    requires IsBreak(eol) && source == "---" + (eol + inner)
    ensures Opened(source) == Some(inner)
  {
    assert source[3..] == eol + inner;
    BreakOf(eol, inner);
    assert source[3 + |eol|..] == source[3..][|eol|..];
  }

  lemma Opens(eol: string, inner: string, block: string, rest: string)
    requires IsBreak(eol) && Fenced(inner) == Some((block, rest))
    ensures Split("---" + (eol + inner)) == Collect(Lines(block), map[], Trim(AfterFence(rest)))
  {
    DashesOpen(eol, inner, "---" + (eol + inner));
  }

  /**
   * Reading a printed file, with either line break, with every value in any spelling and with
   * comments and blank lines among the pairs, gives what its lines say and the trimmed body, or
   * names the first key that is not new.
   */
  lemma FileReads(lines: seq<Line>, eol: string, body: string)
    requires lines != [] && AllWellFormed(lines) && IsBreak(eol)
    ensures Split(PrintFile(lines, eol, body)) == Said(lines, map[], Trim(body))
  {
    var block, rest := Block(lines, eol), eol + body;
    BlockFenced(lines, eol, rest);
    Opens(eol, block + (eol + ("---" + rest)), block, rest);
    AfterFenceTrims(rest);
    BreakTrims(eol, body);
    BlockLines(lines, eol);
    CollectsSaid(lines, map[], Trim(body));
  }

  // ---- What is refused ---------------------------------------------------------

  /** No key twice, and none that every object inherits. */
  ghost predicate NewKeys(lines: seq<Line>) {
    && (forall i | 0 <= i < |lines| :: lines[i].Pair? ==> lines[i].key != "constructor")
    && forall i, j | 0 <= i < j < |lines| :: lines[i].Pair? && lines[j].Pair? ==> lines[i].key != lines[j].key
  }

  ghost predicate NewTo(lines: seq<Line>, fields: map<string, Value>) {
    forall i | 0 <= i < |lines| :: lines[i].Pair? ==> lines[i].key !in fields
  }

  lemma {:induction false} SaidWhen(lines: seq<Line>, fields: map<string, Value>, body: string)
    ensures Said(lines, fields, body).Parsed? <==> NewKeys(lines) && NewTo(lines, fields)
    ensures Said(lines, fields, body).Parsed? ==>
              var parsed := Said(lines, fields, body);
              && parsed.body == body
              && (forall k :: k in parsed.fields <==> k in fields || Pairs(lines, k))
              && (forall k | k in fields :: parsed.fields[k] == fields[k])
              && (forall i | 0 <= i < |lines| && lines[i].Pair? ::
                    lines[i].key in parsed.fields && parsed.fields[lines[i].key] == Meaning(lines[i].part.spelling))
  {
    if lines != [] {
      var rest := lines[1..];
      if !lines[0].Pair? {
        SaidWhen(rest, fields, body);
      } else if !Has(fields, lines[0].key) {
        SaidWhen(rest, fields[lines[0].key := Meaning(lines[0].part.spelling)], body);
      }
    }
  }

  /** Some line gives the key. */
  ghost predicate Pairs(lines: seq<Line>, key: string) {
    exists i :: 0 <= i < |lines| && lines[i].Pair? && lines[i].key == key
  }

  /**
   * A printed file is read exactly when no key is repeated or inherited; then the body is the
   * trimmed one and the fields are those of the lines, no more and no less.
   */
  lemma FileRoundTrip(lines: seq<Line>, eol: string, body: string)
    requires lines != [] && AllWellFormed(lines) && IsBreak(eol)
    ensures var parsed := Split(PrintFile(lines, eol, body));
      && (parsed.Parsed? <==> NewKeys(lines))
      && (parsed.Parsed? ==>
            && parsed.body == Trim(body)
            && (forall k :: k in parsed.fields <==> Pairs(lines, k))
            && (forall i | 0 <= i < |lines| && lines[i].Pair? ::
                  lines[i].key in parsed.fields && parsed.fields[lines[i].key] == Meaning(lines[i].part.spelling)))
  {
    FileReads(lines, eol, body);
    SaidWhen(lines, map[], Trim(body));
  }

  predicate IsNew(line: string, fields: map<string, Value>) {
    IsIgnored(line) || (IsPair(line) && !Has(fields, KeyOf(line)))
  }

  predicate Clash(a: string, b: string) {
    !IsIgnored(a) && !IsIgnored(b) && KeyOf(a) == KeyOf(b)
  }

  /** Each line that counts is a pair, with a key that is new. */
  ghost predicate Acceptable(lines: seq<string>, fields: map<string, Value>) {
    && (forall i | 0 <= i < |lines| :: IsNew(lines[i], fields))
    && forall i, j | 0 <= i < j < |lines| :: !Clash(lines[i], lines[j])
  }

  /** The lines of any block are taken exactly when they are acceptable. */
  lemma {:induction false} CollectsWhen(lines: seq<string>, fields: map<string, Value>, body: string)
    ensures Collect(lines, fields, body).Parsed? <==> Acceptable(lines, fields)
  {
    if lines != [] {
      var line, rest := lines[0], lines[1..];
      if !IsNew(line, fields) {
        BadFirst(lines, fields);
      } else if IsIgnored(line) {
        CollectsWhen(rest, fields, body);
        IgnoredFirst(lines, fields);
      } else {
        var next := fields[KeyOf(line) := ReadValue(line[|KeyOf(line)| + 1..])];
        CollectsWhen(rest, next, body);
        PairFirst(lines, fields, next);
      }
    }
  }

  lemma BadFirst(lines: seq<string>, fields: map<string, Value>)
    requires lines != [] && !IsNew(lines[0], fields)
    ensures !Acceptable(lines, fields)
  {
  }

  lemma IgnoredFirst(lines: seq<string>, fields: map<string, Value>)
    requires lines != [] && IsIgnored(lines[0])
    ensures Acceptable(lines, fields) <==> Acceptable(lines[1..], fields)
  {
    var rest := lines[1..];
    assert forall i | 0 <= i < |rest| :: rest[i] == lines[i + 1];
  }

  lemma PairFirst(lines: seq<string>, fields: map<string, Value>, next: map<string, Value>)
    requires lines != [] && !IsIgnored(lines[0]) && IsNew(lines[0], fields)
    requires next.Keys == fields.Keys + {KeyOf(lines[0])}
    ensures Acceptable(lines, fields) <==> Acceptable(lines[1..], next)
  {
    var rest := lines[1..];
    assert forall i | 0 <= i < |rest| :: rest[i] == lines[i + 1];
  }

  // ---- What counts as what ---------------------------------------------------------

  /** Where a line break and three dashes stand. */
  predicate FenceAt(s: string, i: nat) {
    || (i + 4 <= |s| && s[i] == '\n' && s[i + 1] == '-' && s[i + 2] == '-' && s[i + 3] == '-')
    || (i + 5 <= |s| && s[i] == '\r' && s[i + 1] == '\n' && s[i + 2] == '-' && s[i + 3] == '-' && s[i + 4] == '-')
  }

  /** Where they end. */
  function FenceEnd(s: string, i: nat): nat
    requires FenceAt(s, i)
  {
    if s[i] == '\n' then i + 4 else i + 5
  }

  /** `i` is the first such place. */
  ghost predicate FirstFence(s: string, i: nat) {
    FenceAt(s, i) && forall j | 0 <= j < i :: !FenceAt(s, j)
  }

  lemma FencedHere(s: string)
    ensures FenceAt(s, 0) <==> Break(s) > 0 && Dashes(s[Break(s)..])
    ensures FenceAt(s, 0) ==> Fenced(s) == Some(("", s[FenceEnd(s, 0)..])) && s[..0] == ""
  {
  }

  lemma FenceShifts(s: string, i: nat)
    requires s != ""
    ensures FenceAt(s[1..], i) <==> FenceAt(s, i + 1)
    ensures FenceAt(s, i + 1) ==> FenceEnd(s, i + 1) == FenceEnd(s[1..], i) + 1
  {
  }

  lemma FencedOn(s: string, i: nat)
    requires s != "" && !FenceAt(s, 0) && FenceAt(s, i + 1)
    requires Fenced(s[1..]) == Some((s[1..][..i], s[1..][FenceEnd(s, i + 1) - 1..]))
    ensures Fenced(s) == Some((s[..i + 1], s[FenceEnd(s, i + 1)..]))
  {
    FencedHere(s);
    FenceStep(s, s[1..][..i], s[1..][FenceEnd(s, i + 1) - 1..]);
    assert [s[0]] + s[1..][..i] == s[..i + 1];
    assert s[1..][FenceEnd(s, i + 1) - 1..] == s[FenceEnd(s, i + 1)..];
  }

  lemma FirstShifts(s: string, i: nat)
    requires s != "" && FirstFence(s, i + 1)
    ensures FirstFence(s[1..], i) && FenceEnd(s[1..], i) == FenceEnd(s, i + 1) - 1
  {
    FenceShifts(s, i);
    forall j | 0 <= j < i ensures !FenceAt(s[1..], j) {
      FenceShifts(s, j);
      assert !FenceAt(s, j + 1);
    }
  }

  /** The block ends at the first break with three dashes behind it ... */
  lemma {:induction false} FencedIs(s: string, i: nat)
    requires FirstFence(s, i)
    ensures Fenced(s) == Some((s[..i], s[FenceEnd(s, i)..]))
  {
    if i == 0 {
      FencedHere(s);
    } else {
      FirstShifts(s, i - 1);
      FencedIs(s[1..], i - 1);
      FencedOn(s, i - 1);
    }
  }

  /** ... and without one there is none. */
  lemma {:induction false} NotFenced(s: string)
    requires forall j: nat :: !FenceAt(s, j)
    ensures Fenced(s) == None
  {
    FencedHere(s);
    if s != "" {
      forall j: nat ensures !FenceAt(s[1..], j) {
        FenceShifts(s, j);
      }
      NotFenced(s[1..]);
    }
  }

  /** How long the opening dashes and their break are, 0 when a file does not open so. */
  function OpenLength(source: string): nat {
    if |source| < 4 || source[0] != '-' || source[1] != '-' || source[2] != '-' then 0
    else if source[3] == '\n' then 4
    else if |source| >= 5 && source[3] == '\r' && source[4] == '\n' then 5
    else 0
  }

  lemma OpenedIs(source: string)
    ensures Opened(source) == if OpenLength(source) == 0 then None else Some(source[OpenLength(source)..])
  {
  }

  lemma {:induction false} CollectHasBlock(lines: seq<string>, fields: map<string, Value>, body: string)
    ensures Collect(lines, fields, body) != Refused(MissingBlock)
  {
    if lines != [] {
      if IsIgnored(lines[0]) {
        CollectHasBlock(lines[1..], fields, body);
      } else if IsPair(lines[0]) {
        var key := KeyOf(lines[0]);
        CollectHasBlock(lines[1..], fields[key := ReadValue(lines[0][|key| + 1..])], body);
      }
    }
  }

  lemma {:induction false} SomeFence(s: string, i: nat) returns (first: nat)
    requires FenceAt(s, i)
    ensures first <= i && FirstFence(s, first)
  {
    first := i;
    if j: nat :| j < i && FenceAt(s, j) {
      first := SomeFence(s, j);
    }
  }

  /** A file is refused for its block exactly when it does not open with one, or the block does not close. */
  lemma BlockMissingExactly(source: string)
    ensures Split(source) == Refused(MissingBlock) <==>
              OpenLength(source) == 0 || forall j: nat :: !FenceAt(source[OpenLength(source)..], j)
  {
    OpenedIs(source);
    if OpenLength(source) > 0 {
      var inner := source[OpenLength(source)..];
      if j: nat :| FenceAt(inner, j) {
        var first := SomeFence(inner, j);
        FencedIs(inner, first);
        CollectHasBlock(Lines(inner[..first]), map[], Trim(AfterFence(inner[FenceEnd(inner, first)..])));
      } else {
        NotFenced(inner);
      }
    }
  }

  /** The text with every `\r\n` as `\n`. */
  function Unix(s: string): string {
    if s == "" then ""
    else if |s| >= 2 && s[0] == '\r' && s[1] == '\n' then Unix(s[1..])
    else [s[0]] + Unix(s[1..])
  }

  function Rejoined(lines: seq<string>): string
    requires lines != []
  {
    if |lines| == 1 then lines[0] else lines[0] + "\n" + Rejoined(lines[1..])
  }

  lemma FirstGrows(c: char, lines: seq<string>)
    requires lines != []
    ensures Rejoined([[c] + lines[0]] + lines[1..]) == [c] + Rejoined(lines)
  {
    assert ([[c] + lines[0]] + lines[1..])[1..] == lines[1..];
    if |lines| > 1 {
      assert [c] + lines[0] + "\n" + Rejoined(lines[1..]) == [c] + (lines[0] + "\n" + Rejoined(lines[1..]));
    }
  }

  lemma BreakJoins(lines: seq<string>)
    requires lines != []
    ensures Rejoined([""] + lines) == ['\n'] + Rejoined(lines)
  {
    assert ([""] + lines)[1..] == lines;
    assert "" + "\n" + Rejoined(lines) == ['\n'] + Rejoined(lines);
  }

  /** A block comes apart at its breaks of either kind, and nowhere else: a lone `\r` is part of its line. */
  lemma {:induction false} LinesAre(s: string)
    ensures Rejoined(Lines(s)) == Unix(s)
    ensures forall i | 0 <= i < |Lines(s)| :: '\n' !in Lines(s)[i]
    decreases |s|
  {
    if s != "" {
      if Break(s) > 0 {
        LinesAre(s[Break(s)..]);
        BreakJoins(Lines(s[Break(s)..]));
        if Break(s) == 2 {
          assert s[1..][1..] == s[2..];
        }
      } else {
        LinesAre(s[1..]);
        FirstGrows(s[0], Lines(s[1..]));
      }
    }
  }

  lemma BlankAt(s: string, n: nat)
    requires n <= |s| && IsBlank(s[..n])
    ensures forall j | 0 <= j < n :: IsSpace(s[j])
  {
    forall j | 0 <= j < n ensures IsSpace(s[j]) {
      assert s[..n][j] == s[j];
    }
  }

  /** Lines of white space do not count, nor do those that show a `#` first. */
  lemma IgnoredIs(line: string)
    ensures IsIgnored(line) <==>
              IsBlank(line) || exists i :: 0 <= i < |line| && line[i] == '#' && IsBlank(line[..i])
  {
    NothingLeft(line);
    var k := TrimStartIs(line);
    BlankAt(line, k);
    if i :| 0 <= i < |line| && line[i] == '#' && IsBlank(line[..i]) {
      BlankAt(line, i);
    }
  }

  /** A pair is lower-case letters, at least one, a colon, and the rest of one line. */
  lemma PairExactly(line: string)
    ensures IsPair(line) <==>
              exists n :: 1 <= n < |line| && line[n] == ':' && IsKey(line[..n]) && OneLine(line[n + 1..])
    ensures IsPair(line) ==> IsKey(KeyOf(line)) && |KeyOf(line)| < |line| && line[|KeyOf(line)|] == ':'
  {
    if n :| 1 <= n < |line| && line[n] == ':' && IsKey(line[..n]) && OneLine(line[n + 1..]) {
      assert line == line[..n] + ":" + line[n + 1..];
      KeyLengthOf(line[..n], line[n + 1..]);
    }
  }

  lemma LettersAre(c: char)
    ensures IsLetter(c) <==> 97 <= c as int <= 122
  {
  }
}
