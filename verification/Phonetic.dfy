/** The sound key app names are compared by. A pipeline of rewriting rules turns any text into a normal
    form: a word over fourteen letters-and-digits classes with no letter doubled. */
module Phonetic {
  import opened Text

  predicate IsDigit(c: char) { '0' <= c <= '9' }
  predicate IsLower(c: char) { 'a' <= c <= 'z' }

  /** The letters a key can contain. */
  predicate KeyLetter(c: char) {
    IsDigit(c) || c in "abfjklmnprst"
  }

  /** What a key looks like. */
  predicate NormalForm(s: string) {
    && (forall i | 0 <= i < |s| :: KeyLetter(s[i]))
    && (forall i | 0 < i < |s| :: s[i - 1] != s[i])
  }

  // ------------------------------------------------------------ the steps

  /** A rule that rewrites each character by itself. */
  function Each(s: string, f: char -> string): string {
    if s == "" then "" else f(s[0]) + Each(s[1..], f)
  }

  /** The rule for a `c` before e, i or y. */
  function SoftC(s: string): string {
    if s == "" then ""
    else [if s[0] == 'c' && |s| > 1 && s[1] in "eiy" then 's' else s[0]] + SoftC(s[1..])
  }

  predicate IsVowel(c: char) { c in "aeiou" }

  /** The rule that turns each run of vowels into one `a`. */
  function OneVowel(s: string): string {
    if s == "" then ""
    else if !IsVowel(s[0]) then [s[0]] + OneVowel(s[1..])
    else if |s| > 1 && IsVowel(s[1]) then OneVowel(s[1..])
    else "a" + OneVowel(s[1..])
  }

  /** Double letters become one. */
  function Dedupe(s: string): string {
    if |s| <= 1 then s
    else if s[0] == s[1] then Dedupe(s[1..])
    else [s[0]] + Dedupe(s[1..])
  }

  predicate Plain(c: char) { IsLower(c) || IsDigit(c) || c == ' ' }

  /** Each run of other characters becomes one space. */
  function Blank(s: string): string {
    if s == "" then ""
    else if Plain(s[0]) then [s[0]] + Blank(s[1..])
    else if |s| > 1 && !Plain(s[1]) then Blank(s[1..])
    else " " + Blank(s[1..])
  }

  function CToK(c: char): string { if c == 'c' then "k" else [c] }
  function QToK(c: char): string { if c == 'q' then "k" else [c] }
  function XToKs(c: char): string { if c == 'x' then "ks" else [c] }
  function ZToJ(c: char): string { if c == 'z' then "j" else [c] }
  function VwToB(c: char): string { if c == 'v' || c == 'w' then "b" else [c] }
  function DToT(c: char): string { if c == 'd' || c == 't' then "t" else [c] }
  function GToK(c: char): string { if c == 'g' then "k" else [c] }
  function DropHy(c: char): string { if c == 'h' || c == 'y' then "" else [c] }
  function DropSpace(c: char): string { if c == ' ' then "" else [c] }

  /** The rules for groups of letters, in the order of the table. */
  function Groups(s: string): string {
    var s := Replace(s, "ph", "f");
    var s := Replace(s, "chr", "kr");
    var s := Replace(s, "ch", "j");
    var s := Replace(s, "sh", "s");
    var s := Replace(s, "ck", "k");
    var s := Replace(s, "qu", "k");
    SoftC(s)
  }

  /** The rules for single letters, in the order of the table. */
  function Foreign(s: string): string {
    Each(Each(Each(Each(s, CToK), QToK), XToKs), ZToJ)
  }

  function Voiced(s: string): string {
    Each(Each(Each(s, VwToB), DToT), GToK)
  }

  function Singles(s: string): string {
    OneVowel(Each(Voiced(Foreign(s)), DropHy))
  }

  /** The key of a text already romanised, its silent endings dropped and joined by single spaces. */
  function RulesKey(s: string): string {
    Dedupe(Each(Singles(Groups(Blank(s))), DropSpace))
  }

  // --------------------------------------------------------- words of a text

  predicate IsSpace(c: char) {
    || c in " \t\n\r" || '\U{0B}' <= c <= '\U{0C}' || '\U{1C}' <= c <= '\U{1F}' || c == '\U{85}' || c == '\U{A0}'
    || c == '\U{1680}' || '\U{2000}' <= c <= '\U{200A}' || c == '\U{2028}' || c == '\U{2029}'
    || c == '\U{202F}' || c == '\U{205F}' || c == '\U{3000}'
  }

  /** Python's `s.split()`, with the word being read in `word`. */
  function Words(s: string, word: string): seq<string> {
    if s == "" then (if word == "" then [] else [word])
    else if IsSpace(s[0]) then (if word == "" then [] else [word]) + Words(s[1..], "")
    else Words(s[1..], word + [s[0]])
  }

  predicate Ascii(w: string) {
    forall i | 0 <= i < |w| :: w[i] < '\U{80}'
  }

  /** English words drop a silent final e. */
  function DropSilentE(w: string): string {
    var n := |w|;
    if Ascii(w) && n > 3 && w[n - 1] == 'e' && IsLower(w[n - 2]) && !IsVowel(w[n - 2]) then w[..n - 1] else w
  }

  function JoinWords(ws: seq<string>): string {
    if ws == [] then ""
    else if |ws| == 1 then DropSilentE(ws[0])
    else DropSilentE(ws[0]) + " " + JoinWords(ws[1..])
  }

  /** The whole key. `romanize` is the transliteration of Bangla letters followed by lower-casing. */
  function Key(text: string, romanize: string -> string): string {
    RulesKey(JoinWords(Words(romanize(text), "")))
  }

  // --------------------------------------------------- the result is a normal form

  /** Only these characters occur. */
  predicate Over(s: string, ok: char -> bool) {
    forall i | 0 <= i < |s| :: ok(s[i])
  }

  lemma {:induction false} EachOver(s: string, f: char -> string, from: char -> bool, to: char -> bool)
    requires Over(s, from) && forall c | from(c) :: Over(f(c), to)
    ensures Over(Each(s, f), to)
  {
    if s != "" {
      assert from(s[0]);
      EachOver(s[1..], f, from, to);
    }
  }

  lemma {:induction false} ReplaceOver(s: string, u: string, m: string, ok: char -> bool)
    requires u != "" && Over(s, ok) && Over(m, ok)
    ensures Over(Replace(s, u, m), ok)
    decreases |s|
  {
    var i := Find(s, u);
    if i < |s| {
      ReplaceOver(s[i + |u|..], u, m, ok);
    }
  }

  lemma {:induction false} SoftCOver(s: string, ok: char -> bool)
    requires Over(s, ok) && ok('s')
    ensures Over(SoftC(s), ok)
  {
    if s != "" {
      SoftCOver(s[1..], ok);
    }
  }

  lemma {:induction false} OneVowelOver(s: string, from: char -> bool, to: char -> bool)
    requires Over(s, from) && to('a') && forall c | from(c) && !IsVowel(c) :: to(c)
    ensures Over(OneVowel(s), to)
  {
    if s != "" {
      OneVowelOver(s[1..], from, to);
      assert from(s[0]);
    }
  }

  lemma {:induction false} DedupeNoTwins(s: string, ok: char -> bool)
    requires Over(s, ok)
    ensures Over(Dedupe(s), ok) && forall i | 0 < i < |Dedupe(s)| :: Dedupe(s)[i - 1] != Dedupe(s)[i]
    ensures s != "" ==> Dedupe(s) != "" && Dedupe(s)[0] == s[0]
  {
    if |s| > 1 {
      DedupeNoTwins(s[1..], ok);
    }
  }

  lemma {:induction false} BlankOver(s: string)
    ensures Over(Blank(s), Plain)
  {
    if s != "" {
      BlankOver(s[1..]);
    }
  }

  predicate NoC(c: char) { Plain(c) && c != 'c' }
  predicate NoQ(c: char) { NoC(c) && c != 'q' }
  predicate NoX(c: char) { NoQ(c) && c != 'x' }
  predicate NoZ(c: char) { NoX(c) && c != 'z' }
  predicate NoVw(c: char) { NoZ(c) && c != 'v' && c != 'w' }
  predicate NoD(c: char) { NoVw(c) && c != 'd' }
  predicate NoG(c: char) { NoD(c) && c != 'g' }
  predicate NoHy(c: char) { NoG(c) && c != 'h' && c != 'y' }
  predicate KeyOrSpace(c: char) { KeyLetter(c) || c == ' ' }

  lemma GroupsOver(s: string)
    requires Over(s, Plain)
    ensures Over(Groups(s), Plain)
  {
    var s1 := Replace(s, "ph", "f");
    ReplaceOver(s, "ph", "f", Plain);
    var s2 := Replace(s1, "chr", "kr");
    ReplaceOver(s1, "chr", "kr", Plain);
    var s3 := Replace(s2, "ch", "j");
    ReplaceOver(s2, "ch", "j", Plain);
    var s4 := Replace(s3, "sh", "s");
    ReplaceOver(s3, "sh", "s", Plain);
    var s5 := Replace(s4, "ck", "k");
    ReplaceOver(s4, "ck", "k", Plain);
    ReplaceOver(s5, "qu", "k", Plain);
    SoftCOver(Replace(s5, "qu", "k"), Plain);
  }

  /** Each rule removes its letters, and no later rule brings one back. */
  lemma ForeignOver(s: string)
    requires Over(s, Plain)
    ensures Over(Foreign(s), NoZ)
  {
    hide Each;
    EachOver(s, CToK, Plain, NoC);
    EachOver(Each(s, CToK), QToK, NoC, NoQ);
    EachOver(Each(Each(s, CToK), QToK), XToKs, NoQ, NoX);
    EachOver(Each(Each(Each(s, CToK), QToK), XToKs), ZToJ, NoX, NoZ);
  }

  lemma VoicedOver(s: string)
    requires Over(s, NoZ)
    ensures Over(Voiced(s), NoG)
  {
    hide Each;
    EachOver(s, VwToB, NoZ, NoVw);
    EachOver(Each(s, VwToB), DToT, NoVw, NoD);
    EachOver(Each(Each(s, VwToB), DToT), GToK, NoD, NoG);
  }

  lemma SinglesOver(s: string)
    requires Over(s, Plain)
    ensures Over(Singles(s), KeyOrSpace)
  {
    ForeignOver(s);
    VoicedOver(Foreign(s));
    hide Each;
    EachOver(Voiced(Foreign(s)), DropHy, NoG, NoHy);
    OneVowelOver(Each(Voiced(Foreign(s)), DropHy), NoHy, KeyOrSpace);
  }

  /** Whatever the input and the transliteration, the key is a normal form. */
  lemma {:induction false} KeyIsNormalForm(text: string, romanize: string -> string)
    ensures NormalForm(Key(text, romanize))
  {
    RulesKeyIsNormalForm(JoinWords(Words(romanize(text), "")));
  }

  lemma RulesKeyIsNormalForm(s: string)
    ensures NormalForm(RulesKey(s))
  {
    BlankOver(s);
    GroupsOver(Blank(s));
    SinglesOver(Groups(Blank(s)));
    hide Groups;
    hide Singles;
    EachOver(Singles(Groups(Blank(s))), DropSpace, KeyOrSpace, KeyLetter);
    DedupeNoTwins(Each(Singles(Groups(Blank(s))), DropSpace), KeyLetter);
  }

  // ------------------------------------------------- a normal form is its own key

  lemma {:induction false} EachFixed(s: string, f: char -> string)
    requires forall i | 0 <= i < |s| :: f(s[i]) == [s[i]]
    ensures Each(s, f) == s
  {
    if s != "" {
      EachFixed(s[1..], f);
    }
  }

  lemma {:induction false} ContainsItsLetters(s: string, u: string, i: nat)
    requires i < |u| && Contains(s, u)
    ensures u[i] in s
  {
    var k :| 0 <= k <= |s| && At(s, u, k);
    assert s[k..k + |u|][i] == s[k + i];
  }

  lemma {:induction false} ReplaceFixed(s: string, u: string, m: string, i: nat)
    requires i < |u| && u[i] !in s
    ensures Replace(s, u, m) == s
  {
    if Contains(s, u) { ContainsItsLetters(s, u, i); }
    ReplaceAbsent(s, u, m);
  }

  lemma {:induction false} BlankFixed(s: string)
    requires Over(s, Plain)
    ensures Blank(s) == s
  {
    if s != "" {
      BlankFixed(s[1..]);
    }
  }

  lemma {:induction false} SoftCFixed(s: string)
    requires 'c' !in s
    ensures SoftC(s) == s
  {
    if s != "" {
      assert s[0] in s;
      SoftCFixed(s[1..]);
    }
  }

  lemma {:induction false} OneVowelFixed(s: string)
    requires NormalForm(s)
    ensures OneVowel(s) == s
  {
    if s != "" {
      assert KeyLetter(s[0]);
      if |s| > 1 { assert s[1 - 1] != s[1]; }
      OneVowelFixed(s[1..]);
    }
  }

  lemma {:induction false} DedupeFixed(s: string)
    requires NormalForm(s)
    ensures Dedupe(s) == s
  {
    if |s| > 1 {
      assert s[1 - 1] != s[1];
      DedupeFixed(s[1..]);
    }
  }

  lemma {:induction false} WordsOfOneWord(s: string, word: string)
    requires forall i | 0 <= i < |s| :: !IsSpace(s[i])
    ensures Words(s, word) == if word + s == "" then [] else [word + s]
  {
    if s != "" {
      WordsOfOneWord(s[1..], word + [s[0]]);
      assert word + [s[0]] + s[1..] == word + s;
    } else {
      assert word + s == word;
    }
  }

  lemma GroupsFixed(s: string)
    requires NormalForm(s)
    ensures Groups(s) == s
  {
    assert 'h' !in s && 'c' !in s && 'q' !in s;
    ReplaceFixed(s, "ph", "f", 1);
    ReplaceFixed(s, "chr", "kr", 0);
    ReplaceFixed(s, "ch", "j", 0);
    ReplaceFixed(s, "sh", "s", 1);
    ReplaceFixed(s, "ck", "k", 0);
    ReplaceFixed(s, "qu", "k", 0);
    SoftCFixed(s);
  }

  lemma ForeignFixed(s: string)
    requires NormalForm(s)
    ensures Foreign(s) == s
  {
    hide Each;
    assert forall i | 0 <= i < |s| :: KeyLetter(s[i]);
    EachFixed(s, CToK);
    EachFixed(s, QToK);
    EachFixed(s, XToKs);
    EachFixed(s, ZToJ);
  }

  lemma VoicedFixed(s: string)
    requires NormalForm(s)
    ensures Voiced(s) == s
  {
    hide Each;
    assert forall i | 0 <= i < |s| :: KeyLetter(s[i]);
    EachFixed(s, VwToB);
    EachFixed(s, DToT);
    EachFixed(s, GToK);
  }

  lemma SinglesFixed(s: string)
    requires NormalForm(s)
    ensures Singles(s) == s
  {
    ForeignFixed(s);
    VoicedFixed(s);
    EachFixed(s, DropHy);
    OneVowelFixed(s);
  }

  /** A transliteration leaves lower-case Latin letters and digits alone. */
  ghost predicate KeepsLatin(romanize: string -> string) {
    forall s | Over(s, Plain) :: romanize(s) == s
  }

  lemma OneWord(s: string)
    requires NormalForm(s)
    ensures JoinWords(Words(s, "")) == s
  {
    WordsOfOneWord(s, "");
    assert "" + s == s;
    hide Words;
    hide NormalForm;
    if s != "" { LastIsNotE(s); }
  }

  lemma {:induction false} LastIsNotE(s: string)
    requires NormalForm(s) && s != ""
    ensures DropSilentE(s) == s && JoinWords([s]) == s
  {
    assert KeyLetter(s[|s| - 1]);
  }

  lemma NormalFormIsItsOwnKey(s: string, romanize: string -> string)
    requires NormalForm(s) && KeepsLatin(romanize)
    ensures Key(s, romanize) == s
  {
    assert Over(s, Plain);
    OneWord(s);
    BlankFixed(s);
    GroupsFixed(s);
    SinglesFixed(s);
    EachFixed(s, DropSpace);
    DedupeFixed(s);
    hide Each;
    hide Blank;
    hide Groups;
    hide Singles;
    hide Dedupe;
  }

  /** Taking the key again changes nothing, and the keys are exactly the normal forms. */
  lemma {:induction false} KeyIsIdempotent(text: string, romanize: string -> string)
    requires KeepsLatin(romanize)
    ensures Key(Key(text, romanize), romanize) == Key(text, romanize)
  {
    KeyIsNormalForm(text, romanize);
    NormalFormIsItsOwnKey(Key(text, romanize), romanize);
  }

  lemma KeysAreTheNormalForms(s: string, romanize: string -> string)
    requires KeepsLatin(romanize)
    ensures NormalForm(s) <==> exists text :: Key(text, romanize) == s
  {
    if NormalForm(s) {
      NormalFormIsItsOwnKey(s, romanize);
    }
    if exists text :: Key(text, romanize) == s {
      var text :| Key(text, romanize) == s;
      KeyIsNormalForm(text, romanize);
    }
  }

  // ----------------------------------------------------- what the letters become

  /** The letters that sound alike share one letter of the key. */
  function Sound(c: char): string {
    if c in "aeiou" then "a"
    else if c in "bvw" then "b"
    else if c in "ckqg" then "k"
    else if c in "dt" then "t"
    else if c in "jz" then "j"
    else if c == 'x' then "ks"
    else if c in "hy" then ""
    else [c]
  }

  lemma {:induction false} EachOne(c: char, f: char -> string)
    ensures Each([c], f) == f(c)
  {
    assert [c][1..] == "";
    assert f(c) + "" == f(c);
  }

  lemma {:induction false} EachTwo(c: char, d: char, f: char -> string)
    ensures Each([c, d], f) == f(c) + f(d)
  {
    assert [c, d][1..] == [d];
    EachOne(d, f);
  }

  lemma {:induction false} OneLetterForeign(c: char)
    ensures Foreign([c]) == if c in "cq" then "k" else if c == 'x' then "ks" else if c == 'z' then "j" else [c]
  {
    hide Each;
    EachOne(c, CToK);
    var a := CToK(c)[0];
    EachOne(a, QToK);
    var b := QToK(a)[0];
    EachOne(b, XToKs);
    if b == 'x' {
      EachTwo('k', 's', ZToJ);
    } else {
      EachOne(b, ZToJ);
    }
  }

  lemma {:induction false} OneLetterVoiced(c: char)
    ensures Voiced([c]) == [if c in "vw" then 'b' else if c == 'd' then 't' else if c == 'g' then 'k' else c]
  {
    hide Each;
    EachOne(c, VwToB);
    var a := VwToB(c)[0];
    EachOne(a, DToT);
    EachOne(DToT(a)[0], GToK);
  }

  lemma {:induction false} OneLetterVowel(c: char)
    ensures OneVowel([c]) == if IsVowel(c) then "a" else [c]
  {
    assert [c][1..] == "";
    assert "a" + "" == "a" && [c] + "" == [c];
  }

  lemma {:induction false} KsStays()
    ensures OneVowel(Each(Voiced("ks"), DropHy)) == "ks"
  {
    hide Each;
    EachTwo('k', 's', VwToB);
    EachTwo('k', 's', DToT);
    EachTwo('k', 's', GToK);
    EachTwo('k', 's', DropHy);
    assert VwToB('k') + VwToB('s') == "ks" && DToT('k') + DToT('s') == "ks" && GToK('k') + GToK('s') == "ks";
    assert DropHy('k') + DropHy('s') == "ks";
    assert "ks" == ['k', 's'];
    OneLetterVowel('s');
    assert "ks"[1..] == "s";
    assert OneVowel("ks") == ['k'] + OneVowel("s");
  }

  /** Every letter by itself sounds as its class: the rules for single letters write no other. */
  lemma {:induction false} LettersSound(c: char)
    requires IsLower(c) || IsDigit(c)
    ensures Singles([c]) == Sound(c)
  {
    OneLetterForeign(c);
    hide Foreign;
    hide Each;
    if c == 'x' {
      KsStays();
    } else {
      var a := if c in "cq" then 'k' else if c == 'z' then 'j' else c;
      OneLetterVoiced(a);
      var b := if a in "vw" then 'b' else if a == 'd' then 't' else if a == 'g' then 'k' else a;
      hide Voiced;
      EachOne(b, DropHy);
      OneLetterVowel(b);
    }
  }

  lemma {:induction false} TwoDiffer(s: string, u: string, m: string)
    requires |s| <= |u| && s != u && u != ""
    ensures Replace(s, u, m) == s
  {
    forall i | 0 <= i <= |s| ensures !At(s, u, i) {
      assert i == 0 ==> s[0..|s|] == s;
    }
    ReplaceAbsent(s, u, m);
  }

  /** And the groups of two letters that are written for one sound. */
  lemma {:induction false} GroupsSound(s: string)
    requires |s| == 2
    ensures Groups(s) == if s == "ph" then "f" else if s == "ch" then "j" else if s == "sh" then "s"
                         else if s == "ck" || s == "qu" then "k"
                         else if s == "ce" || s == "ci" || s == "cy" then ['s', s[1]] else s
  {
    var one := if s == "ph" then "f" else if s == "ch" then "j" else if s == "sh" then "s"
               else if s == "ck" || s == "qu" then "k" else s;
    ReplaceSelf("ph", "f");
    ReplaceSelf("ch", "j");
    ReplaceSelf("sh", "s");
    ReplaceSelf("ck", "k");
    ReplaceSelf("qu", "k");
    hide Replace;
    hide SoftC;
    if s != "ph" { TwoDiffer(s, "ph", "f"); }
    var a := if s == "ph" then one else s;
    TwoDiffer(a, "chr", "kr");
    if s != "ch" { TwoDiffer(a, "ch", "j"); }
    var b := if s == "ch" then one else a;
    if s != "sh" { TwoDiffer(b, "sh", "s"); }
    var c := if s == "sh" then one else b;
    if s != "ck" { TwoDiffer(c, "ck", "k"); }
    var d := if s == "ck" then one else c;
    if s != "qu" { TwoDiffer(d, "qu", "k"); }
    SoftCOnShort(one);
  }

  lemma {:induction false} ChrSounds()
    ensures Groups("chr") == "kr"
  {
    var s := "chr";
    forall i | 0 <= i <= 3 ensures !At(s, "ph", i) {
      assert i == 0 ==> s[0..2][0] == 'c';
      assert i == 1 ==> s[1..3][0] == 'h';
    }
    ReplaceAbsent(s, "ph", "f");
    ReplaceSelf("chr", "kr");
    hide Replace;
    hide SoftC;
    TwoDiffer("kr", "ch", "j");
    TwoDiffer("kr", "sh", "s");
    TwoDiffer("kr", "ck", "k");
    TwoDiffer("kr", "qu", "k");
    SoftCOnShort("kr");
  }

  lemma {:induction false} SoftCOnShort(s: string)
    requires 1 <= |s| <= 2
    ensures SoftC(s) == if |s| == 2 && s[0] == 'c' && s[1] in "eiy" then ['s', s[1]] else s
  {
    if |s| == 2 {
      assert s[1..] == [s[1]] && [s[1]][1..] == "";
      assert s == [s[0]] + [s[1]];
      assert SoftC([s[1]]) == [s[1]];
      assert SoftC(s) == [if s[0] == 'c' && s[1] in "eiy" then 's' else s[0]] + [s[1]];
    } else {
      assert s[1..] == "";
    }
  }
}
