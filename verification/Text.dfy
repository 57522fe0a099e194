/** White space as JavaScript's `trim` takes it off, and lower case. */
module Text {

  /** What `trim` takes off: ECMA-262 white space and line terminators. */
  predicate IsSpace(c: char) {
    || '\U{9}' <= c <= '\U{D}' || c == ' ' || c == '\U{A0}' || c == '\U{1680}'
    || '\U{2000}' <= c <= '\U{200A}' || c == '\U{2028}' || c == '\U{2029}'
    || c == '\U{202F}' || c == '\U{205F}' || c == '\U{3000}' || c == '\U{FEFF}'
  }

  function TrimStart(s: string): (r: string)
    ensures |r| <= |s|
  {
    if s != "" && IsSpace(s[0]) then TrimStart(s[1..]) else s
  }

  function TrimEnd(s: string): (r: string)
    ensures |r| <= |s|
  {
    if s != "" && IsSpace(s[|s| - 1]) then TrimEnd(s[..|s| - 1]) else s
  }

  function Trim(s: string): (r: string)
    ensures |r| <= |s|
  {
    TrimEnd(TrimStart(s))
  }

  lemma {:induction false} TrimStartShortens(s: string)
    ensures |TrimStart(s)| == |s| ==> TrimStart(s) == s && (s != "" ==> !IsSpace(s[0]))
  {
    if s != "" && IsSpace(s[0]) {
      TrimStartShortens(s[1..]);
    }
  }

  lemma {:induction false} TrimEndShortens(s: string)
    ensures |TrimEnd(s)| == |s| ==> TrimEnd(s) == s && (s != "" ==> !IsSpace(s[|s| - 1]))
  {
    if s != "" && IsSpace(s[|s| - 1]) {
      TrimEndShortens(s[..|s| - 1]);
    }
  }

  /** Trimming leaves a string alone exactly when neither end is white space. */
  lemma TrimFixes(s: string)
    ensures Trim(s) == s <==> s == "" || (!IsSpace(s[0]) && !IsSpace(s[|s| - 1]))
  {
    TrimStartShortens(s);
    TrimEndShortens(TrimStart(s));
  }

  lemma TrimSpace(c: char, s: string)
    requires IsSpace(c)
    ensures Trim([c] + s) == Trim(s)
  {
    assert ([c] + s)[1..] == s;
  }

  predicate IsBlank(s: string) {
    forall i | 0 <= i < |s| :: IsSpace(s[i])
  }

  lemma {:induction false} StartPads(before: string, s: string)
    requires IsBlank(before)
    ensures TrimStart(before + s) == TrimStart(s)
  {
    if before == "" {
      assert before + s == s;
    } else {
      assert (before + s)[1..] == before[1..] + s;
      StartPads(before[1..], s);
    }
  }

  lemma {:induction false} EndPads(s: string, after: string)
    requires IsBlank(after)
    ensures TrimEnd(s + after) == TrimEnd(s)
  {
    if after == "" {
      assert s + after == s;
    } else {
      assert (s + after)[..|s + after| - 1] == s + after[..|after| - 1];
      EndPads(s, after[..|after| - 1]);
    }
  }

  lemma {:induction false} StartKeeps(s: string, after: string)
    requires IsBlank(after)
    ensures TrimStart(s + after) == TrimStart(s) + after || (TrimStart(s) == "" && TrimStart(s + after) == "")
  {
    if s == "" {
      StartPads(after, "");
      assert s + after == after == after + "";
    } else if IsSpace(s[0]) {
      assert (s + after)[1..] == s[1..] + after;
      StartKeeps(s[1..], after);
    }
  }

  /** White space on either side makes no difference to what is left. */
  lemma TrimPads(before: string, s: string, after: string)
    requires IsBlank(before) && IsBlank(after)
    ensures Trim(before + (s + after)) == Trim(s)
  {
    StartPads(before, s + after);
    StartKeeps(s, after);
    EndPads(TrimStart(s), after);
  }

  /**
   * Lower case, as far as slugs, hosts and keys can tell: the Kelvin sign is the one character
   * beyond ASCII that lowers into it.
   */
  function LowerChar(c: char): char {
    if 'A' <= c <= 'Z' then 'a' + (c - 'A') else if c == '\U{212A}' then 'k' else c
  }

  function Lower(s: string): string {
    if s == "" then "" else [LowerChar(s[0])] + Lower(s[1..])
  }

  lemma {:induction false} LowerAt(s: string)
    ensures |Lower(s)| == |s| && forall i | 0 <= i < |s| :: Lower(s)[i] == LowerChar(s[i])
  {
    if s != "" {
      LowerAt(s[1..]);
    }
  }

  /** Lower case is left alone. */
  lemma {:induction false} LowerFixes(s: string)
    requires forall i | 0 <= i < |s| :: LowerChar(s[i]) == s[i]
    ensures Lower(s) == s
  {
    if s != "" {
      LowerFixes(s[1..]);
      assert [s[0]] + s[1..] == s;
    }
  }

  /** The characters of white space, by number. */
  lemma SpacesAre(c: char)
    ensures var n := c as int;
      IsSpace(c) <==> 9 <= n <= 13 || n == 32 || n == 160 || n == 5760 || 8192 <= n <= 8202 || n == 8232 || n == 8233
                      || n == 8239 || n == 8287 || n == 12288 || n == 65279
  {
  }

  /** Capitals are 32 before their letters; but for them and the Kelvin sign nothing changes. */
  lemma LowerIs(c: char)
    ensures LowerChar(c) as int ==
            if 65 <= c as int <= 90 then c as int + 32 else if c as int == 8490 then 107 else c as int
  {
  }

  /** `text` is `s` with some letters in capitals. */
  predicate Capitalized(text: string, s: string) {
    |text| == |s| && forall i | 0 <= i < |s| ::
      text[i] == s[i] || ('a' <= s[i] <= 'z' && text[i] as int == s[i] as int - 32)
  }

  lemma {:induction false} LowerUndoes(text: string, s: string)
    requires Capitalized(text, s) && forall i | 0 <= i < |s| :: LowerChar(s[i]) == s[i]
    ensures Lower(text) == s
  {
    if text != "" {
      LowerUndoes(text[1..], s[1..]);
      LowerIs(text[0]);
      assert [s[0]] + s[1..] == s;
    }
  }

  /** What is left of a text is what stands between white space. */
  lemma TrimIs(before: string, s: string, after: string)
    requires IsBlank(before) && IsBlank(after)
    requires s != "" ==> !IsSpace(s[0]) && !IsSpace(s[|s| - 1])
    ensures Trim(before + (s + after)) == s
  {
    TrimPads(before, s, after);
    TrimFixes(s);
  }

  lemma {:induction false} TrimStartIs(s: string) returns (k: nat)
    ensures k <= |s| && TrimStart(s) == s[k..] && IsBlank(s[..k])
    ensures k < |s| ==> !IsSpace(s[k])
  {
    k := 0;
    if s != "" && IsSpace(s[0]) {
      k := TrimStartIs(s[1..]);
      assert s[..k + 1] == [s[0]] + s[1..][..k];
      assert s[1..][k..] == s[k + 1..];
      k := k + 1;
    }
  }

  lemma {:induction false} TrimEndKeeps(s: string)
    requires s != "" && !IsSpace(s[0])
    ensures TrimEnd(s) != ""
  {
    if IsSpace(s[|s| - 1]) {
      TrimEndKeeps(s[..|s| - 1]);
    }
  }

  /** Nothing is left exactly of white space. */
  lemma NothingLeft(s: string)
    ensures Trim(s) == "" <==> IsBlank(s)
  {
    var k := TrimStartIs(s);
    if k < |s| {
      TrimEndKeeps(s[k..]);
    } else {
      assert s[..k] == s;
    }
  }
}
