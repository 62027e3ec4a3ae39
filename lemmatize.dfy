/**
 * The two lemmatisers: `clean_and_lemmatize` (a regex tokenizer and one morphological analyzer) and
 * `extract_lemmas` (a tokenizer and a tagger, with the analyzer as fallback), and the filter they share.
 */
module Lemmatize {
  import opened Base
  import opened Text

  /** The stopword set; both lemmatisers define the same 53 words. */
  const Stopwords: set<string> := {
    "быть", "это", "что", "как", "так", "вот", "тут", "там", "и", "но",
    "а", "или", "же", "да", "нет", "он", "она", "они", "мы", "вы", "ты",
    "с", "к", "по", "на", "из", "у", "от", "про", "для", "без", "за", "до",
    "в", "о", "об", "его", "её", "их", "наш", "ваш", "мой", "твой", "меня",
    "тебя", "тебе", "мне", "них", "нас", "вам", "тому", "него", "неё"
  }

  /** The parts of speech whose lemmas are kept: nouns, verbs, full and short adjectives. */
  const KeptPos: set<string> := {"NOUN", "VERB", "ADJF", "ADJS"}

  /** A lemma with its part of speech (None when the analyzer gives none). */
  datatype Analysis = Analysis(normalForm: string, pos: Option<string>)

  predicate Keeps(a: Analysis) {
    a.pos.Some? && a.pos.value in KeptPos && a.normalForm !in Stopwords
  }

  /** The lemmas of the analyses that pass the filter, in token order. */
  function KeptLemmas(analyses: seq<Analysis>): seq<string> {
    if analyses == [] then []
    else
      var last := analyses[|analyses| - 1];
      KeptLemmas(analyses[..|analyses| - 1]) + (if Keeps(last) then [last.normalForm] else [])
  }

  function NormalForms(analyses: seq<Analysis>): (r: seq<string>)
    ensures |r| == |analyses|
    ensures forall k :: 0 <= k < |analyses| ==> r[k] == analyses[k].normalForm
  {
    seq(|analyses|, k requires 0 <= k < |analyses| => analyses[k].normalForm)
  }

  lemma KeptLemmasSnoc(analyses: seq<Analysis>, a: Analysis)
    ensures KeptLemmas(analyses + [a]) == KeptLemmas(analyses) + (if Keeps(a) then [a.normalForm] else [])
  {
    assert (analyses + [a])[..|analyses|] == analyses;
  }

  /** A lemma is emitted exactly when some token's analysis has a kept part of speech and that lemma is no stopword. */
  lemma {:induction false} KeptLemmasMembers(analyses: seq<Analysis>, x: string)
    ensures x in KeptLemmas(analyses) <==>
      exists k :: 0 <= k < |analyses| && Keeps(analyses[k]) && analyses[k].normalForm == x
  {
    if analyses != [] {
      var init := analyses[..|analyses| - 1];
      KeptLemmasMembers(init, x);
      if x in KeptLemmas(init) {
        var k :| 0 <= k < |init| && Keeps(init[k]) && init[k].normalForm == x;
        assert analyses[k] == init[k];
      }
      if exists k :: 0 <= k < |analyses| && Keeps(analyses[k]) && analyses[k].normalForm == x {
        var k :| 0 <= k < |analyses| && Keeps(analyses[k]) && analyses[k].normalForm == x;
        if k < |init| {
          assert init[k] == analyses[k];
        }
      }
    }
  }

  /** The output is the lemma of every analysis that passes the filter, in token order. */
  lemma {:induction false} KeptLemmasFilter(analyses: seq<Analysis>)
    ensures KeptLemmas(analyses) == NormalForms(Filter(analyses, Keeps))
  {
    if analyses != [] {
      var init := analyses[..|analyses| - 1];
      var last := analyses[|analyses| - 1];
      KeptLemmasFilter(init);
      assert analyses == init + [last];
      FilterSnoc(init, last, Keeps);
      var kept := Filter(init, Keeps);
      assert NormalForms(kept + [last]) == NormalForms(kept) + [last.normalForm];
    }
  }

  /** The output keeps token order: it is a subsequence of the tokens' lemmas, so it is no longer than the tokens. */
  lemma {:induction false} KeptLemmasSubseq(analyses: seq<Analysis>)
    ensures IsSubseq(KeptLemmas(analyses), NormalForms(analyses))
    ensures |KeptLemmas(analyses)| <= |analyses|
  {
    if analyses != [] {
      var init := analyses[..|analyses| - 1];
      var last := analyses[|analyses| - 1];
      KeptLemmasSubseq(init);
      SubseqExtend(KeptLemmas(init), NormalForms(init), last.normalForm, Keeps(last));
      assert NormalForms(init) + [last.normalForm] == NormalForms(analyses);
      assert KeptLemmas(analyses) == if Keeps(last) then KeptLemmas(init) + [last.normalForm] else KeptLemmas(init);
    }
    SubseqLength(KeptLemmas(analyses), NormalForms(analyses));
  }

  // ---------------------------------------------------------------------------
  // The simple variant: `re.findall(r"\b[а-яёА-ЯЁ]{2,}\b", text.lower())`

  /** The character class `[а-яёА-ЯЁ]`. */
  predicate InWordClass(c: char) {
    ('а' <= c <= 'я') || c == 'ё' || ('А' <= c <= 'Я') || c == 'Ё'
  }

  /** Python's `\w` for the scripts of the corpus: ASCII letters, digits and `_`, Latin-1 and Cyrillic letters. */
  predicate IsWordChar(c: char) {
    ('a' <= c <= 'z') || ('A' <= c <= 'Z') || ('0' <= c <= '9') || c == '_' ||
    c == 'ª' || c == 'µ' || c == 'º' || ('À' <= c <= 'ÿ' && c != '×' && c != '÷') ||
    ('\U{400}' <= c <= '\U{481}') || ('\U{48A}' <= c <= '\U{52F}')
  }

  lemma ClassIsWord(c: char)
    requires InWordClass(c)
    ensures IsWordChar(c)
  {
  }

  /** Length of the run of class characters starting at `i`. */
  function ClassRun(s: string, i: nat): (n: nat)
    requires i <= |s|
    ensures i + n <= |s|
    ensures forall k :: i <= k < i + n ==> InWordClass(s[k])
    ensures i + n == |s| || !InWordClass(s[i + n])
    decreases |s| - i
  {
    if i < |s| && InWordClass(s[i]) then 1 + ClassRun(s, i + 1) else 0
  }

  /** `\b` before a class character at `i`. */
  predicate BoundaryBefore(s: string, i: nat)
    requires i <= |s|
  {
    i == 0 || !IsWordChar(s[i - 1])
  }

  /** `\b` after a class character at `e - 1`. */
  predicate BoundaryAfter(s: string, e: nat)
    requires e <= |s|
  {
    e == |s| || !IsWordChar(s[e])
  }

  /**
   * The matches from `i` on. A match can only start a run of class characters: inside a run the left
   * `\b` fails, and a shorter prefix of a run fails the right `\b`, so a run is a word exactly when it
   * is two characters or longer and bounded by non-word characters on both sides.
   */
  function WordsFrom(s: string, i: nat): seq<string>
    requires i <= |s|
    decreases |s| - i
  {
    if i == |s| then []
    else if !InWordClass(s[i]) then WordsFrom(s, i + 1)
    else
      var e := i + ClassRun(s, i);
      (if e - i >= 2 && BoundaryBefore(s, i) && BoundaryAfter(s, e) then [s[i..e]] else []) + WordsFrom(s, e)
  }

  function Words(s: string): seq<string> {
    WordsFrom(s, 0)
  }

  /** `s[a..e]` is a match of the pattern: two or more class characters with `\b` on both sides. */
  predicate IsWord(s: string, a: nat, e: nat) {
    a <= e <= |s| && e - a >= 2 && (forall k :: a <= k < e ==> InWordClass(s[k])) &&
    BoundaryBefore(s, a) && BoundaryAfter(s, e)
  }

  /**
   * The reference reading of `findall`: every position from `a` on, in order, contributes the match that
   * starts there, if any. By WordEnd a match at `a` can only end where the class run from `a` ends.
   */
  function WordsAt(s: string, a: nat): seq<string>
    requires a <= |s|
    decreases |s| - a
  {
    if a == |s| then []
    else
      var e := a + ClassRun(s, a);
      (if IsWord(s, a, e) then [s[a..e]] else []) + WordsAt(s, a + 1)
  }

  /** A match ends exactly where the class run from its start ends. */
  lemma WordEnd(s: string, a: nat, e: nat)
    requires IsWord(s, a, e)
    ensures ClassRun(s, a) == e - a
  {
    var n := ClassRun(s, a);
    if a + n > e {
      ClassIsWord(s[e]);
    }
  }

  /** Positions strictly inside a run start no match. */
  lemma {:induction false} ScanInterior(s: string, j: nat, e: nat)
    requires 0 < j <= e <= |s| && forall k :: j - 1 <= k < e ==> InWordClass(s[k])
    ensures WordsAt(s, j) == WordsAt(s, e)
    decreases e - j
  {
    if j < e {
      ClassIsWord(s[j - 1]);
      assert !BoundaryBefore(s, j);
      assert WordsAt(s, j) == WordsAt(s, j + 1);
      ScanInterior(s, j + 1, e);
    }
  }

  /** The scanner, which jumps from run to run, finds the same matches in the same order as the reference. */
  lemma {:induction false} WordsFromScan(s: string, i: nat)
    requires i <= |s|
    ensures WordsFrom(s, i) == WordsAt(s, i)
    decreases |s| - i
  {
    if i < |s| {
      var e := i + ClassRun(s, i);
      if !InWordClass(s[i]) {
        WordsFromScan(s, i + 1);
      } else {
        WordsFromScan(s, e);
        ScanInterior(s, i + 1, e);
      }
    }
  }

  /** Every match the reference reports from `i` on is a bounded run of two or more class characters. */
  lemma {:induction false} WordsAtSound(s: string, i: nat)
    requires i <= |s|
    ensures forall w :: w in WordsAt(s, i) ==> exists a: nat, e: nat :: i <= a && IsWord(s, a, e) && w == s[a..e]
    decreases |s| - i
  {
    if i < |s| {
      WordsAtSound(s, i + 1);
      var e := i + ClassRun(s, i);
      forall w | w in WordsAt(s, i) ensures exists a: nat, e: nat :: i <= a && IsWord(s, a, e) && w == s[a..e] {
        if w !in WordsAt(s, i + 1) {
          assert IsWord(s, i, e) && w == s[i..e];
        }
      }
    }
  }

  /** Every match starting at or after `i` is reported by the reference. */
  lemma {:induction false} WordsAtComplete(s: string, i: nat, a: nat, e: nat)
    requires i <= a && IsWord(s, a, e)
    ensures s[a..e] in WordsAt(s, i)
    decreases a - i
  {
    if i == a {
      WordsAtStart(s, a, e);
    } else {
      WordsAtComplete(s, i + 1, a, e);
      WordsAtTail(s, i, s[a..e]);
    }
  }

  lemma WordsAtStart(s: string, a: nat, e: nat)
    requires IsWord(s, a, e)
    ensures s[a..e] in WordsAt(s, a)
  {
    WordEnd(s, a, e);
    WordsAtHead(s, a);
  }

  lemma WordsAtHead(s: string, a: nat)
    requires a < |s| && IsWord(s, a, a + ClassRun(s, a))
    ensures s[a..a + ClassRun(s, a)] in WordsAt(s, a)
  {
  }

  lemma WordsAtTail(s: string, i: nat, w: string)
    requires i < |s| && w in WordsAt(s, i + 1)
    ensures w in WordsAt(s, i)
  {
  }

  /** Soundness: every token is a slice of the text that matches the pattern. */
  lemma WordsSound(s: string)
    ensures forall w :: w in Words(s) ==> exists a: nat, e: nat :: IsWord(s, a, e) && w == s[a..e]
  {
    WordsFromScan(s, 0);
    WordsAtSound(s, 0);
  }

  /** Completeness: every slice of the text that matches the pattern is a token. */
  lemma WordsComplete(s: string, a: nat, e: nat)
    requires IsWord(s, a, e)
    ensures s[a..e] in Words(s)
  {
    WordsFromScan(s, 0);
    WordsAtComplete(s, 0, a, e);
  }

  /** The words of a lowered text are matches in that text made of `[а-яё]` only. */
  lemma LoweredWords(text: string)
    ensures forall w :: w in Words(Lower(text)) ==>
      (exists a: nat, e: nat :: IsWord(Lower(text), a, e) && w == Lower(text)[a..e]) &&
      forall k :: 0 <= k < |w| ==> ('а' <= w[k] <= 'я') || w[k] == 'ё'
  {
    var s := Lower(text);
    WordsSound(s);
    forall w, k | w in Words(s) && 0 <= k < |w| ensures ('а' <= w[k] <= 'я') || w[k] == 'ё' {
      var a: nat, e: nat :| IsWord(s, a, e) && w == s[a..e];
      assert w[k] == s[a + k];
      assert !IsUpperChar(s[a + k]);
    }
  }

  /** A hyphen splits words. */
  lemma WordsHyphen()
    ensures Words("кто-то") == ["кто", "то"]
  {
    var s := "кто-то";
    assert WordsFrom(s, 6) == [];
    assert ClassRun(s, 4) == 2;
    assert s[4..6] == "то";
    assert WordsFrom(s, 4) == ["то"];
    assert WordsFrom(s, 3) == ["то"];
    assert ClassRun(s, 0) == 3;
    assert s[0..3] == "кто";
  }

  /** One-letter words are dropped. */
  lemma WordsShort()
    ensures Words("я и ты") == ["ты"]
  {
    var t := "я и ты";
    assert WordsFrom(t, 6) == [];
    assert ClassRun(t, 4) == 2;
    assert t[4..6] == "ты";
    assert WordsFrom(t, 4) == ["ты"];
    assert WordsFrom(t, 3) == ["ты"];
    assert ClassRun(t, 2) == 1;
    assert WordsFrom(t, 2) == ["ты"];
    assert WordsFrom(t, 1) == ["ты"];
    assert ClassRun(t, 0) == 1;
  }

  /**
   * A whole run of class characters that touches another word character (a digit, a Latin letter, `_`)
   * on either side yields no match: no match starts inside it and the scan over it reports nothing.
   */
  lemma WordsTouching(s: string, a: nat, e: nat)
    requires a < e <= |s| && forall k :: a <= k < e ==> InWordClass(s[k])
    requires a == 0 || !InWordClass(s[a - 1])
    requires e == |s| || !InWordClass(s[e])
    requires (a > 0 && IsWordChar(s[a - 1])) || (e < |s| && IsWordChar(s[e]))
    ensures forall b: nat, f: nat :: a <= b < e ==> !IsWord(s, b, f)
    ensures WordsAt(s, a) == WordsAt(s, e)
  {
    forall b: nat, f: nat | a <= b < e ensures !IsWord(s, b, f) {
      TouchingNoMatch(s, a, e, b, f);
    }
    TouchingScan(s, a, e);
  }

  lemma TouchingScan(s: string, a: nat, e: nat)
    requires a < e <= |s| && forall k :: a <= k < e ==> InWordClass(s[k])
    requires e == |s| || !InWordClass(s[e])
    requires (a > 0 && IsWordChar(s[a - 1])) || (e < |s| && IsWordChar(s[e]))
    ensures WordsAt(s, a) == WordsAt(s, e)
  {
    TouchingNoMatch(s, a, e, a, a + ClassRun(s, a));
    WordsAtSkip(s, a);
    if a + 1 < e {
      ScanInterior(s, a + 1, e);
    }
  }

  /** A position that starts no match contributes nothing to the scan. */
  lemma WordsAtSkip(s: string, a: nat)
    requires a < |s| && !IsWord(s, a, a + ClassRun(s, a))
    ensures WordsAt(s, a) == WordsAt(s, a + 1)
  {
  }

  lemma TouchingNoMatch(s: string, a: nat, e: nat, b: nat, f: nat)
    requires a <= b < e <= |s| && forall k :: a <= k < e ==> InWordClass(s[k])
    requires e == |s| || !InWordClass(s[e])
    requires (a > 0 && IsWordChar(s[a - 1])) || (e < |s| && IsWordChar(s[e]))
    ensures !IsWord(s, b, f)
  {
    if b > a {
      ClassIsWord(s[b - 1]);
    } else if b <= f < e {
      ClassIsWord(s[f]);
    }
  }

  /** Two instances of the touching rule. */
  lemma WordsTouchingCases()
    ensures Words("5мама") == []
    ensures Words("мамаx") == []
  {
    var u := "5мама";
    assert ClassRun(u, 1) == 4;
    var v := "мамаx";
    assert ClassRun(v, 0) == 4;
  }

  /** The analyzer's first parse of every word. */
  function Analyses(words: seq<string>, analyze: string -> Analysis): (r: seq<Analysis>)
    ensures |r| == |words|
    ensures forall k :: 0 <= k < |words| ==> r[k] == analyze(words[k])
  {
    seq(|words|, k requires 0 <= k < |words| => analyze(words[k]))
  }

  /** What `clean_and_lemmatize` returns for one text. */
  function SimpleLemmas(text: string, analyze: string -> Analysis): seq<string> {
    KeptLemmas(Analyses(Words(Lower(text)), analyze))
  }

  /** `clean_and_lemmatize`, with `analyze` standing for `morph.parse(word)[0]`. */
  method CleanAndLemmatize(text: string, analyze: string -> Analysis) returns (lemmas: seq<string>)
    ensures lemmas == SimpleLemmas(text, analyze)
  {
    var words := Words(Lower(text));
    lemmas := [];
    var i := 0;
    while i < |words|
      invariant 0 <= i <= |words|
      invariant lemmas == KeptLemmas(Analyses(words[..i], analyze))
    {
      var word := words[i];
      var parsed := analyze(word);
      var normal := parsed.normalForm;
      var pos := parsed.pos;
      assert Analyses(words[..i + 1], analyze) == Analyses(words[..i], analyze) + [parsed];
      KeptLemmasSnoc(Analyses(words[..i], analyze), parsed);
      if pos.Some? && pos.value in KeptPos && normal !in Stopwords {
        lemmas := lemmas + [normal];
      }
      i := i + 1;
    }
    assert words[..i] == words;
  }

  // ---------------------------------------------------------------------------
  // The advanced variant

  /** A token of the tagged document: its text, and the tagger's lemma and part of speech, either possibly absent. */
  datatype DocToken = DocToken(text: string, tagLemma: Option<string>, pos: Option<string>)

  /** The tagger's lemma is replaced when it is missing, empty or just the token's own text. */
  predicate NeedsFallback(t: DocToken) {
    !Truthy(t.tagLemma) || t.tagLemma.value == t.text
  }

  /** The lemma and part of speech a token contributes: both from the analyzer's first parse, or both from the tagger. */
  function Resolve(t: DocToken, analyze: string -> Analysis): (a: Analysis)
    ensures NeedsFallback(t) ==> a == analyze(t.text)
    ensures !NeedsFallback(t) ==> a.normalForm == t.tagLemma.value && a.pos == t.pos
    ensures !NeedsFallback(t) ==> a.normalForm != "" && a.normalForm != t.text
  {
    if NeedsFallback(t) then analyze(t.text) else Analysis(t.tagLemma.value, t.pos)
  }

  function Resolved(tokens: seq<DocToken>, analyze: string -> Analysis): (r: seq<Analysis>)
    ensures |r| == |tokens|
    ensures forall k :: 0 <= k < |tokens| ==> r[k] == Resolve(tokens[k], analyze)
  {
    seq(|tokens|, k requires 0 <= k < |tokens| => Resolve(tokens[k], analyze))
  }

  /**
   * What `extract_lemmas` returns for one text: `tokenize` stands for razdel, `tagDoc` for segmenting
   * and tagging the space-joined tokens with natasha, `analyze` for pymorphy2's first parse.
   */
  function AdvancedLemmas(text: string, tokenize: string -> seq<string>, tagDoc: string -> seq<DocToken>,
                          analyze: string -> Analysis): seq<string>
  {
    KeptLemmas(Resolved(tagDoc(JoinSpace(tokenize(text))), analyze))
  }

  method ExtractLemmas(text: string, tokenize: string -> seq<string>, tagDoc: string -> seq<DocToken>,
                       analyze: string -> Analysis) returns (lemmas: seq<string>)
    ensures lemmas == AdvancedLemmas(text, tokenize, tagDoc, analyze)
  {
    var tokens := tokenize(text);
    lemmas := [];
    var doc := tagDoc(JoinSpace(tokens));
    var i := 0;
    while i < |doc|
      invariant 0 <= i <= |doc|
      invariant lemmas == KeptLemmas(Resolved(doc[..i], analyze))
    {
      var token := doc[i];
      var normal := token.tagLemma;
      var pos := token.pos;
      if !Truthy(normal) || normal.value == token.text {
        var parsed := analyze(token.text);
        normal := Some(parsed.normalForm);
        pos := parsed.pos;
      }
      assert Analysis(normal.value, pos) == Resolve(token, analyze);
      ResolvedStep(doc, i, analyze);
      if pos.Some? && pos.value in KeptPos && normal.value !in Stopwords {
        lemmas := lemmas + [normal.value];
      }
      i := i + 1;
    }
    assert doc[..i] == doc;
  }

  /** One more token of the document adds its resolved lemma when that passes the filter, and nothing otherwise. */
  lemma ResolvedStep(doc: seq<DocToken>, i: nat, analyze: string -> Analysis)
    requires i < |doc|
    ensures var a := Resolve(doc[i], analyze);
      KeptLemmas(Resolved(doc[..i + 1], analyze)) ==
      KeptLemmas(Resolved(doc[..i], analyze)) + (if Keeps(a) then [a.normalForm] else [])
  {
    assert Resolved(doc[..i + 1], analyze) == Resolved(doc[..i], analyze) + [Resolve(doc[i], analyze)];
    KeptLemmasSnoc(Resolved(doc[..i], analyze), Resolve(doc[i], analyze));
  }

  // ---------------------------------------------------------------------------
  // The `lemmas` column

  /** `df["lemmas"] = df["text"].progress_apply(clean_and_lemmatize)`: one list per row. */
  method SimpleColumn(texts: seq<string>, analyze: string -> Analysis) returns (column: seq<seq<string>>)
    ensures |column| == |texts|
    ensures forall k :: 0 <= k < |texts| ==> column[k] == SimpleLemmas(texts[k], analyze)
  {
    column := [];
    var k := 0;
    while k < |texts|
      invariant 0 <= k <= |texts|
      invariant |column| == k
      invariant forall m :: 0 <= m < k ==> column[m] == SimpleLemmas(texts[m], analyze)
    {
      var lemmas := CleanAndLemmatize(texts[k], analyze);
      column := column + [lemmas];
      k := k + 1;
    }
  }

  /** `df["lemmas"] = df["text"].progress_apply(extract_lemmas)`: one list per row. */
  method AdvancedColumn(texts: seq<string>, tokenize: string -> seq<string>, tagDoc: string -> seq<DocToken>,
                        analyze: string -> Analysis) returns (column: seq<seq<string>>)
    ensures |column| == |texts|
    ensures forall k :: 0 <= k < |texts| ==> column[k] == AdvancedLemmas(texts[k], tokenize, tagDoc, analyze)
  {
    column := [];
    var k := 0;
    while k < |texts|
      invariant 0 <= k <= |texts|
      invariant |column| == k
      invariant forall m :: 0 <= m < k ==> column[m] == AdvancedLemmas(texts[m], tokenize, tagDoc, analyze)
    {
      var lemmas := ExtractLemmas(texts[k], tokenize, tagDoc, analyze);
      column := column + [lemmas];
      k := k + 1;
    }
  }
}
