/** Python's string methods as far as the modelled code uses them, on ASCII blanks and letters. */
module Strings {

  predicate Space(c: char) {
    c == ' ' || '\t' <= c <= '\r'
  }

  function TrimLeft(s: string): string {
    if s != "" && Space(s[0]) then TrimLeft(s[1..]) else s
  }

  function TrimRight(s: string): string {
    if s != "" && Space(s[|s| - 1]) then TrimRight(s[..|s| - 1]) else s
  }

  function Trim(s: string): string {
    TrimRight(TrimLeft(s))
  }

  predicate Blank(s: string) {
    forall i | 0 <= i < |s| :: Space(s[i])
  }

  /** It neither begins nor ends with a blank. */
  predicate Trimmed(s: string) {
    s == "" || (!Space(s[0]) && !Space(s[|s| - 1]))
  }

  lemma {:induction false} TrimLeftIs(before: string, rest: string)
    requires Blank(before) && (rest == "" || !Space(rest[0]))
    ensures TrimLeft(before + rest) == rest
  {
    if before == "" {
      assert before + rest == rest;
    } else {
      assert (before + rest)[1..] == before[1..] + rest;
      TrimLeftIs(before[1..], rest);
    }
  }

  lemma {:induction false} TrimRightIs(rest: string, after: string)
    requires Blank(after) && (rest == "" || !Space(rest[|rest| - 1]))
    ensures TrimRight(rest + after) == rest
  {
    if after == "" {
      assert rest + after == rest;
    } else {
      var n := |after| - 1;
      assert (rest + after)[..|rest| + n] == rest + after[..n];
      TrimRightIs(rest, after[..n]);
    }
  }

  /** The blanks around come off, and nothing else. */
  lemma {:induction false} TrimIs(before: string, words: string, after: string)
    requires Blank(before) && Blank(after) && Trimmed(words)
    ensures Trim(before + words + after) == words
  {
    if words == "" {
      assert before + words + after == (before + after) + "";
      TrimLeftIs(before + after, "");
    } else {
      assert before + words + after == before + (words + after);
      TrimLeftIs(before, words + after);
      TrimRightIs(words, after);
    }
  }

  function LowerChar(c: char): char {
    if 'A' <= c <= 'Z' then (c as int + 32) as char else c
  }

  function Lower(s: string): string {
    if s == "" then "" else [LowerChar(s[0])] + Lower(s[1..])
  }

  function Split(s: string): (lines: seq<string>)
    ensures lines != []
  {
    if s == "" then [""]
    else
      var rest := Split(s[1..]);
      if s[0] == '\n' then [""] + rest else [[s[0]] + rest[0]] + rest[1..]
  }

  predicate StartsWith(s: string, word: string) {
    |word| <= |s| && s[..|word|] == word
  }

  predicate EndsWith(s: string, word: string) {
    |word| <= |s| && s[|s| - |word|..] == word
  }

  function Squash(s: string): string {
    Lower(Trim(Collapse(s)))
  }

  /** Every run of blanks becomes one space. */
  function Collapse(s: string): string {
    if s == "" then ""
    else if Space(s[0]) then (if |s| > 1 && Space(s[1]) then Collapse(s[1..]) else " " + Collapse(s[1..]))
    else [s[0]] + Collapse(s[1..])
  }

  /** No blank but the space, and no two in a row. */
  predicate OneLine(s: string) {
    && (forall i | 0 <= i < |s| :: Space(s[i]) ==> s[i] == ' ')
    && (forall i | 0 < i < |s| :: !(Space(s[i - 1]) && Space(s[i])))
  }

  lemma {:induction false} CollapseIsOneLine(s: string)
    ensures OneLine(Collapse(s)) && (Collapse(s) != "" && Space(Collapse(s)[0]) ==> s != "" && Space(s[0]))
  {
    if s != "" {
      CollapseIsOneLine(s[1..]);
    }
  }

  lemma {:induction false} OneLineStays(s: string)
    requires OneLine(s)
    ensures Collapse(s) == s
  {
    if s != "" {
      OneLineStays(s[1..]);
    }
  }

  lemma {:induction false} TrimLeftKeeps(s: string)
    requires OneLine(s)
    ensures OneLine(TrimLeft(s))
  {
    if s != "" {
      TrimLeftKeeps(s[1..]);
    }
  }

  lemma {:induction false} TrimRightKeeps(s: string)
    requires OneLine(s)
    ensures OneLine(TrimRight(s))
  {
    if s != "" {
      TrimRightKeeps(s[..|s| - 1]);
    }
  }
}
