/** Cutting a long message into parts the two messengers accept. */
module Chunking {

  function Concat(parts: seq<string>): string {
    if parts == [] then "" else Concat(parts[..|parts| - 1]) + parts[|parts| - 1]
  }

  lemma {:induction false} ConcatAppend(parts: seq<string>, p: string)
    ensures Concat(parts + [p]) == Concat(parts) + p
  {
    assert (parts + [p])[..|parts|] == parts;
  }

  // ------------------------------------------------------------- Telegram

  predicate IsBreak(c: char) {
    c in "\n\r" || c in ['\U{0B}', '\U{0C}', '\U{1C}', '\U{1D}', '\U{1E}', '\U{85}', '\U{2028}', '\U{2029}']
  }

  /** The length of the first line, its line break included ("\r\n" is one). */
  function LineLength(text: string): (n: nat)
    requires text != ""
    ensures 0 < n <= |text|
  {
    if text[0] == '\r' && |text| > 1 && text[1] == '\n' then 2
    else if IsBreak(text[0]) || |text| == 1 then 1
    else 1 + LineLength(text[1..])
  }

  /** Python's `splitlines(keepends=True)`. */
  function SplitLines(text: string): (lines: seq<string>)
    ensures forall i | 0 <= i < |lines| :: lines[i] != ""
    decreases |text|
  {
    if text == "" then []
    else [text[..LineLength(text)]] + SplitLines(text[LineLength(text)..])
  }

  lemma {:induction false} ConcatHead(p: string, parts: seq<string>)
    ensures Concat([p] + parts) == p + Concat(parts)
  {
    if parts == [] {
      assert [p] + parts == [p];
      assert Concat([p]) == Concat([]) + p by { ConcatAppend([], p); }
    } else {
      var n := |parts| - 1;
      assert ([p] + parts)[..n + 1] == [p] + parts[..n];
      ConcatHead(p, parts[..n]);
    }
  }

  lemma {:induction false} NoLineIsLost(text: string)
    ensures Concat(SplitLines(text)) == text
    decreases |text|
  {
    if text != "" {
      var n := LineLength(text);
      NoLineIsLost(text[n..]);
      ConcatHead(text[..n], SplitLines(text[n..]));
      assert text == text[..n] + text[n..];
    }
  }

  /** Every part is non-empty and within the limit. */
  predicate Fits(chunks: seq<string>, limit: nat) {
    forall i | 0 <= i < |chunks| :: 0 < |chunks[i]| <= limit
  }

  /** No two neighbouring parts would have fitted into one. */
  predicate Tight(chunks: seq<string>, limit: nat) {
    forall i | 0 < i < |chunks| :: |chunks[i - 1]| + |chunks[i]| > limit
  }

  /** A piece of length n may follow: it would not have fitted into the part before it. */
  predicate MayFollow(chunks: seq<string>, n: nat, limit: nat) {
    chunks == [] || |chunks[|chunks| - 1]| + n > limit
  }

  lemma {:induction false} Push(chunks: seq<string>, p: string, limit: nat)
    requires Fits(chunks, limit) && Tight(chunks, limit) && 0 < |p| <= limit && MayFollow(chunks, |p|, limit)
    ensures Fits(chunks + [p], limit) && Tight(chunks + [p], limit)
    ensures Concat(chunks + [p]) == Concat(chunks) + p
  {
    ConcatAppend(chunks, p);
    hide Concat;
    var n, more := |chunks|, chunks + [p];
    assert forall i | 0 <= i < n :: more[i] == chunks[i];
    assert more[n] == p;
  }

  /** A part may end at position p of the text: where a line ends, or inside a line longer than the limit. */
  predicate MayEnd(lines: seq<string>, limit: nat, p: nat) {
    exists k | 0 <= k <= |lines| ::
      || p == |Concat(lines[..k])|
      || (k < |lines| && |lines[k]| > limit && |Concat(lines[..k])| < p < |Concat(lines[..k])| + |lines[k]|)
  }

  /** Every part ends at such a position. */
  predicate WellCut(chunks: seq<string>, lines: seq<string>, limit: nat) {
    forall i | 0 <= i <= |chunks| :: MayEnd(lines, limit, |Concat(chunks[..i])|)
  }

  lemma {:induction false} CutAfter(chunks: seq<string>, p: string, lines: seq<string>, limit: nat)
    requires WellCut(chunks, lines, limit) && MayEnd(lines, limit, |Concat(chunks)| + |p|)
    ensures WellCut(chunks + [p], lines, limit)
  {
    var more := chunks + [p];
    ConcatAppend(chunks, p);
    hide Concat;
    hide MayEnd;
    forall i | 0 <= i <= |more| ensures MayEnd(lines, limit, |Concat(more[..i])|) {
      if i <= |chunks| {
        assert more[..i] == chunks[..i];
      } else {
        assert more[..i] == more;
      }
    }
  }

  /** `chunks` holds what was cut off so far, `current` what is being collected. */
  predicate Collecting(chunks: seq<string>, current: string, limit: nat) {
    && Fits(chunks, limit) && Tight(chunks, limit) && |current| <= limit
    && MayFollow(chunks, if current == "" then 1 else |current|, limit)
  }

  lemma {:induction false} Collected(chunks: seq<string>, current: string, limit: nat)
    requires Collecting(chunks, current, limit)
    ensures Fits(chunks, limit) && Tight(chunks, limit) && |current| <= limit
    ensures current != "" ==> MayFollow(chunks, |current|, limit)
  {
  }

  method ChunkText(text: string, limit: nat) returns (chunks: seq<string>)
    requires limit >= 1
    ensures Concat(chunks) == text
    ensures |text| <= limit ==> chunks == [text]
    ensures |text| > limit ==> Fits(chunks, limit) && Tight(chunks, limit) && WellCut(chunks, SplitLines(text), limit)
  {
    if |text| <= limit {
      ConcatAppend([], text);
      assert [] + [text] == [text];
      return [text];
    }
    NoLineIsLost(text);
    var lines := SplitLines(text);
    hide SplitLines;
    hide WellCut;
    chunks := CollectLines(lines, limit);
  }

  /** The loop over the lines. */
  method CollectLines(lines: seq<string>, limit: nat) returns (chunks: seq<string>)
    requires limit >= 1 && forall i | 0 <= i < |lines| :: lines[i] != ""
    ensures Concat(chunks) == Concat(lines) && Fits(chunks, limit) && Tight(chunks, limit) && WellCut(chunks, lines, limit)
  {
    chunks := [];
    var current := "";
    assert Collecting(chunks, current, limit) && Concat(chunks) + current == Concat(lines[..0]);
    StartsWellCut(lines, limit);
    hide Concat;
    hide Collecting;
    hide Fits;
    hide Tight;
    hide WellCut;
    hide MayEnd;
    hide MayFollow;
    for i := 0 to |lines|
      invariant Concat(chunks) + current == Concat(lines[..i])
      invariant Collecting(chunks, current, limit) && WellCut(chunks, lines, limit)
    {
      assert lines[..i + 1] == lines[..i] + [lines[i]];
      ConcatAppend(lines[..i], lines[i]);
      chunks, current := AddLine(chunks, current, lines, i, lines[i], limit);
    }
    assert lines[..|lines|] == lines;
    Collected(chunks, current, limit);
    AtLineEnd(lines, limit, |lines|);
    if current != "" {
      Push(chunks, current, limit);
      CutAfter(chunks, current, lines, limit);
      chunks := chunks + [current];
    }
  }

  lemma {:induction false} StartsWellCut(lines: seq<string>, limit: nat)
    ensures WellCut([], lines, limit)
  {
    AtLineEnd(lines, limit, 0);
    assert lines[..0] == [];
  }

  lemma {:induction false} AtLineEnd(lines: seq<string>, limit: nat, k: nat)
    requires k <= |lines|
    ensures MayEnd(lines, limit, |Concat(lines[..k])|)
  {
    hide Concat;
  }

  lemma {:induction false} InLongLine(lines: seq<string>, limit: nat, k: nat, p: nat)
    requires k < |lines| && |lines[k]| > limit && |Concat(lines[..k])| < p < |Concat(lines[..k])| + |lines[k]|
    ensures MayEnd(lines, limit, p)
  {
    hide Concat;
  }

  /** One round of the loop over the lines. */
  method AddLine(chunks0: seq<string>, current0: string, ghost lines: seq<string>, ghost k: nat, line0: string, limit: nat)
    returns (chunks: seq<string>, current: string)
    requires limit >= 1 && k < |lines| && line0 == lines[k] != "" && Collecting(chunks0, current0, limit)
    requires Concat(chunks0) + current0 == Concat(lines[..k]) && WellCut(chunks0, lines, limit)
    ensures Collecting(chunks, current, limit) && WellCut(chunks, lines, limit)
    ensures Concat(chunks) + current == Concat(chunks0) + current0 + line0
  {
    hide Concat;
    hide WellCut;
    hide MayEnd;
    var line;
    chunks, current, line := CutLongLine(chunks0, current0, lines, k, line0, limit);
    if |current| + |line| > limit {
      Push(chunks, current, limit);
      AtLineEnd(lines, limit, k);
      CutAfter(chunks, current, lines, limit);
      chunks := chunks + [current];
      current := "";
    }
    current := current + line;
  }

  /** The inner loop: a line longer than the limit is cut into full parts. */
  method CutLongLine(chunks0: seq<string>, current0: string, ghost lines: seq<string>, ghost k: nat, line0: string, limit: nat)
    returns (chunks: seq<string>, current: string, line: string)
    requires limit >= 1 && k < |lines| && line0 == lines[k] != "" && Collecting(chunks0, current0, limit)
    requires Concat(chunks0) + current0 == Concat(lines[..k]) && WellCut(chunks0, lines, limit)
    ensures Collecting(chunks, current, limit) && 0 < |line| <= limit && WellCut(chunks, lines, limit)
    ensures Concat(chunks) + current + line == Concat(chunks0) + current0 + line0
    ensures |line0| <= limit ==> chunks == chunks0 && current == current0 && line == line0
    ensures |line0| > limit ==> current == ""
  {
    hide Concat;
    hide WellCut;
    hide MayEnd;
    chunks, current, line := chunks0, current0, line0;
    while |line| > limit
      invariant line != "" && |line| <= |line0| && Collecting(chunks, current, limit) && WellCut(chunks, lines, limit)
      invariant Concat(chunks) + current + line == Concat(chunks0) + current0 + line0
      invariant |line0| <= limit ==> chunks == chunks0 && current == current0 && line == line0
      invariant current != "" ==> chunks == chunks0 && current == current0 && line == line0
      invariant |line| < |line0| ==> current == ""
      decreases |line|
    {
      if current != "" {
        Push(chunks, current, limit);
        AtLineEnd(lines, limit, k);
        CutAfter(chunks, current, lines, limit);
        chunks := chunks + [current];
        current := "";
      }
      Push(chunks, line[..limit], limit);
      InLongLine(lines, limit, k, |Concat(chunks)| + limit);
      CutAfter(chunks, line[..limit], lines, limit);
      assert line == line[..limit] + line[limit..];
      chunks := chunks + [line[..limit]];
      line := line[limit..];
    }
  }

  /** Tight parts are few: n of them carry more than the limit per pair. */
  lemma {:induction false} FewChunks(chunks: seq<string>, limit: nat)
    requires Fits(chunks, limit) && Tight(chunks, limit)
    ensures (|chunks| / 2) * (limit + 1) <= |Concat(chunks)|
  {
    hide Concat;
    if |chunks| >= 2 {
      var n := |chunks|;
      var front := chunks[..n - 2];
      FewChunks(front, limit);
      ConcatLastTwo(chunks);
      assert |chunks[n - 2]| + |chunks[n - 1]| > limit by { assert Tight(chunks, limit); }
      OneMorePair(n, limit + 1);
    }
  }

  lemma {:induction false} OneMorePair(n: nat, step: nat)
    requires n >= 2
    ensures (n / 2) * step == ((n - 2) / 2) * step + step
  {
    assert n / 2 == (n - 2) / 2 + 1;
  }

  lemma ConcatLastTwo(chunks: seq<string>)
    requires |chunks| >= 2
    ensures |Concat(chunks)| == |Concat(chunks[..|chunks| - 2])| + |chunks[|chunks| - 2]| + |chunks[|chunks| - 1]|
  {
    var n := |chunks|;
    var front := chunks[..n - 2];
    assert chunks == front + [chunks[n - 2]] + [chunks[n - 1]];
    ConcatAppend(front, chunks[n - 2]);
    ConcatAppend(front + [chunks[n - 2]], chunks[n - 1]);
  }

  // ------------------------------------------------------------- WhatsApp

  /** Python's `text.rfind("\n", 0, size)`: the last line break before `size`, or -1. */
  function LastBreak(text: string, size: nat): (r: int)
    requires size <= |text|
    ensures -1 <= r < size && (r >= 0 ==> text[r] == '\n')
    ensures forall i | r < i < size :: text[i] != '\n'
  {
    if size == 0 then -1 else if text[size - 1] == '\n' then size - 1 else LastBreak(text, size - 1)
  }

  /** Python's `text.lstrip("\n")`. */
  function SkipBreaks(text: string): (r: string)
    ensures |r| <= |text| && (r == "" || r[0] != '\n')
  {
    if text != "" && text[0] == '\n' then SkipBreaks(text[1..]) else text
  }

  predicate OnlyBreaks(s: string) {
    forall i | 0 <= i < |s| :: s[i] == '\n'
  }

  lemma {:induction false} SkippedAreBreaks(text: string)
    ensures var k := |text| - |SkipBreaks(text)|; OnlyBreaks(text[..k]) && text[k..] == SkipBreaks(text)
  {
    if text != "" && text[0] == '\n' {
      SkippedAreBreaks(text[1..]);
      var k := |text| - |SkipBreaks(text)|;
      assert text[1..][..k - 1] == text[1..k];
      assert text[..k] == [text[0]] + text[1..k];
      assert text[1..][k - 1..] == text[k..];
    }
  }

  /** `text` is the parts in order with line breaks, and nothing else, lost behind them. */
  predicate LosesOnlyBreaks(parts: seq<string>, text: string) {
    if parts == [] then text == ""
    else exists k | |parts[0]| <= k <= |text| ::
           text[..|parts[0]|] == parts[0] && OnlyBreaks(text[|parts[0]|..k]) && LosesOnlyBreaks(parts[1..], text[k..])
  }

  lemma {:induction false} PartThenRest(part: string, rest: string, text: string, k: nat, later: seq<string>)
    requires |part| <= k <= |text| && text[..|part|] == part && OnlyBreaks(text[|part|..k]) && text[k..] == rest
    requires LosesOnlyBreaks(later, rest)
    ensures LosesOnlyBreaks([part] + later, text)
  {
    assert ([part] + later)[1..] == later;
  }

  /** Where the next part ends: at the last line break in its second half, else at the size. */
  function Cut(rest: string, size: nat): (cut: nat)
    requires size >= 1 && rest != ""
    ensures 0 < cut <= size && cut <= |rest|
    ensures cut < |rest| ==> cut > size / 2
    ensures var limit := if size <= |rest| then size else |rest|;
            if exists i | size / 2 < i < limit :: rest[i] == '\n'
            then cut < limit && rest[cut] == '\n' && forall i | cut < i < limit :: rest[i] != '\n'
            else cut == limit
  {
    var limit := if size <= |rest| then size else |rest|;
    var at := LastBreak(rest, limit);
    if at > size / 2 then at else limit
  }

  /** What the loop of `chunk` makes of the text still to send. */
  function Parts(rest: string, size: nat): (parts: seq<string>)
    requires size >= 1
    ensures forall i | 0 <= i < |parts| :: 0 < |parts[i]| <= size
    ensures forall i | 0 <= i < |parts| - 1 :: |parts[i]| > size / 2
    decreases |rest|
  {
    if rest == "" then []
    else [rest[..Cut(rest, size)]] + Parts(SkipBreaks(rest[Cut(rest, size)..]), size)
  }

  lemma {:induction false} PartsLoseOnlyBreaks(rest: string, size: nat)
    requires size >= 1
    ensures LosesOnlyBreaks(Parts(rest, size), rest)
    decreases |rest|
  {
    if rest != "" {
      var cut := Cut(rest, size);
      var next := SkipBreaks(rest[cut..]);
      PartsLoseOnlyBreaks(next, size);
      assert Parts(rest, size) == [rest[..cut]] + Parts(next, size);
      hide Parts;
      hide LosesOnlyBreaks;
      PartAndBreaks(rest, cut, Parts(next, size));
    }
  }

  lemma {:induction false} TailSlices(rest: string, cut: nat, k: nat)
    requires cut + k <= |rest|
    ensures rest[cut..][..k] == rest[cut..cut + k] && rest[cut..][k..] == rest[cut + k..]
  {
  }

  lemma {:induction false} PartAndBreaks(rest: string, cut: nat, later: seq<string>)
    requires cut <= |rest| && LosesOnlyBreaks(later, SkipBreaks(rest[cut..]))
    ensures LosesOnlyBreaks([rest[..cut]] + later, rest)
  {
    hide LosesOnlyBreaks;
    hide OnlyBreaks;
    var next := SkipBreaks(rest[cut..]);
    SkippedAreBreaks(rest[cut..]);
    hide SkipBreaks;
    var k := |rest| - cut - |next|;
    TailSlices(rest, cut, k);
    PartThenRest(rest[..cut], next, rest, cut + k, later);
  }

  method Chunk(text: string, size: nat) returns (parts: seq<string>)
    requires size >= 1
    ensures |text| <= size ==> parts == [text]
    ensures |text| > size ==> parts == Parts(text, size) && LosesOnlyBreaks(parts, text)
  {
    if |text| <= size {
      return [text];
    }
    PartsLoseOnlyBreaks(text, size);
    hide LosesOnlyBreaks;
    hide Parts;
    parts := [];
    var rest := text;
    while rest != ""
      invariant parts + Parts(rest, size) == Parts(text, size)
      decreases |rest|
    {
      var limit := if size <= |rest| then size else |rest|;
      var cut := LastBreak(rest, limit);
      cut := if cut > size / 2 then cut else limit;
      PartsStep(parts, rest, size, cut);
      parts := parts + [rest[..cut]];
      rest := SkipBreaks(rest[cut..]);
    }
    PartsOfNothing(size);
  }

  lemma {:induction false} PartsStep(parts: seq<string>, rest: string, size: nat, cut: int)
    requires size >= 1 && rest != "" && cut == Cut(rest, size)
    ensures parts + Parts(rest, size) == parts + [rest[..cut]] + Parts(SkipBreaks(rest[cut..]), size)
  {
    var later := Parts(SkipBreaks(rest[cut..]), size);
    assert Parts(rest, size) == [rest[..cut]] + later;
    hide Parts;
    assert parts + ([rest[..cut]] + later) == parts + [rest[..cut]] + later;
  }

  lemma {:induction false} PartsOfNothing(size: nat)
    requires size >= 1
    ensures Parts("", size) == []
  {
  }
}
