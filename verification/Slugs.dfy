/** Slugs: the rule they obey, the slug made from a title, and finding a free one. */
module Slugs {
  import opened Strings
  import opened Wrappers

  const SLUG_MAX: nat := 180

  /** What a generated slug may take before its suffix: SLUG_MAX less room for `-N`. */
  const BASE_MAX: nat := SLUG_MAX - 6

  const RESERVED_POST_SLUGS: set<string> :=
    {"featured", "new", "edit", "preview", "admin", "api", "sitemap", "search", "feed", "rss", "categories", "category"}

  predicate IsWordChar(c: char) {
    'a' <= c <= 'z' || IsDigit(c)
  }

  predicate IsWord(s: string) {
    s != "" && forall i | 0 <= i < |s| :: IsWordChar(s[i])
  }

  /** SLUG_RE: words joined by single hyphens. */
  predicate MatchesSlugRe(s: string)
    decreases |s|, 1
  {
    IsWord(s) || exists i: nat | i < |s| :: WordThenSlug(s, i)
  }

  predicate WordThenSlug(s: string, i: nat)
    decreases |s|, 0
  {
    i < |s| && IsWord(s[..i]) && s[i] == '-' && MatchesSlugRe(s[i + 1..])
  }

  predicate IsValidSlug(s: string, reserved: set<string>) {
    |s| <= SLUG_MAX && MatchesSlugRe(s) && s !in reserved
  }

  /** The same rule character by character: no hyphen at either end, no two in a row. */
  predicate WellFormed(s: string) {
    && s != "" && s[0] != '-' && s[|s| - 1] != '-'
    && (forall i | 0 <= i < |s| :: IsWordChar(s[i]) || s[i] == '-')
    && (forall i | 0 < i < |s| :: !(s[i - 1] == '-' && s[i] == '-'))
  }

  lemma {:induction false} SlugReIsWellFormed(s: string)
    ensures MatchesSlugRe(s) <==> WellFormed(s)
    decreases |s|
  {
    if !IsWord(s) {
      if i: nat :| WordThenSlug(s, i) {
        SlugReIsWellFormed(s[i + 1..]);
        JoinWellFormed(s[..i], s[i + 1..]);
        assert s == s[..i] + ['-'] + s[i + 1..];
      }
      if WellFormed(s) {
        var i := FirstHyphen(s);
        RestWellFormed(s, i);
        SlugReIsWellFormed(s[i + 1..]);
        assert WordThenSlug(s, i);
      }
    }
  }

  lemma RestWellFormed(s: string, i: nat)
    requires WellFormed(s) && i < |s| - 1 && s[i] == '-'
    ensures WellFormed(s[i + 1..])
  {
  }

  lemma FirstHyphen(s: string) returns (i: nat)
    requires WellFormed(s) && !IsWord(s)
    ensures 0 < i < |s| - 1 && s[i] == '-' && IsWord(s[..i])
  {
    i := 0;
    while s[i] != '-'
      invariant i < |s| && forall k | 0 <= k < i :: s[k] != '-'
      decreases |s| - i
    {
      assert exists k :: 0 <= k < |s| && s[k] == '-';
      i := i + 1;
    }
  }

  lemma JoinWellFormed(a: string, b: string)
    requires WellFormed(a) && WellFormed(b)
    ensures WellFormed(a + ['-'] + b)
  {
  }

  // ---- slugifyEn ------------------------------------------------------------------------

  /** `/[^a-z0-9]+/g` to `-`; `inRun` says that the character before was part of such a run. */
  function Hyphenate(s: string, inRun: bool): string {
    if s == "" then ""
    else if IsWordChar(s[0]) then [s[0]] + Hyphenate(s[1..], false)
    else (if inRun then "" else "-") + Hyphenate(s[1..], true)
  }

  function TrimLeft(s: string): string {
    if s != "" && s[0] == '-' then TrimLeft(s[1..]) else s
  }

  function TrimRight(s: string): string {
    if s != "" && s[|s| - 1] == '-' then TrimRight(s[..|s| - 1]) else s
  }

  function DropMarks(s: string): string {
    if s == "" then ""
    else (if '\U{0300}' <= s[0] <= '\U{036F}' then "" else [s[0]]) + DropMarks(s[1..])
  }

  /** `text` is the title after lower-casing and compatibility decomposition. */
  function SlugifyEn(text: string): string {
    TrimRight(TrimLeft(Hyphenate(DropMarks(text), false)))
  }

  predicate SingleHyphens(s: string) {
    && (forall i | 0 <= i < |s| :: IsWordChar(s[i]) || s[i] == '-')
    && (forall i | 0 < i < |s| :: !(s[i - 1] == '-' && s[i] == '-'))
  }

  lemma {:induction false} HyphenateSingles(s: string, inRun: bool)
    ensures SingleHyphens(Hyphenate(s, inRun))
    ensures inRun && Hyphenate(s, inRun) != "" ==> Hyphenate(s, inRun)[0] != '-'
  {
    if s != "" {
      HyphenateSingles(s[1..], false);
      HyphenateSingles(s[1..], true);
    }
  }

  lemma {:induction false} TrimLeftSingles(s: string)
    requires SingleHyphens(s)
    ensures SingleHyphens(TrimLeft(s)) && (TrimLeft(s) != "" ==> TrimLeft(s)[0] != '-')
  {
  }

  lemma {:induction false} TrimRightSingles(s: string)
    requires SingleHyphens(s) && (s != "" ==> s[0] != '-')
    ensures TrimRight(s) == "" || WellFormed(TrimRight(s))
    ensures TrimRight(s) <= s && (s != "" ==> TrimRight(s) != "")
  {
  }

  /** Whatever the title, the result is empty or a slug. */
  lemma SlugifyEnIsSlug(text: string)
    ensures SlugifyEn(text) == "" || MatchesSlugRe(SlugifyEn(text))
  {
    var dashed := Hyphenate(DropMarks(text), false);
    HyphenateSingles(DropMarks(text), false);
    TrimLeftSingles(dashed);
    TrimRightSingles(TrimLeft(dashed));
    SlugReIsWellFormed(SlugifyEn(text));
  }

  // ---- what a slug keeps of a title -----------------------------------------------------

  /** A letter or digit of a text, and whether it directly follows another one. */
  datatype Letter = Letter(letter: char, joined: bool)

  /** What words a text is made of: its letters and digits in order, whatever stands between them. */
  function Letters(s: string, inWord: bool): seq<Letter> {
    if s == "" then []
    else if 'a' <= s[0] <= 'z' || '0' <= s[0] <= '9' then [Letter(s[0], inWord)] + Letters(s[1..], true)
    else Letters(s[1..], false)
  }

  function CharsOf(letters: seq<Letter>): string {
    seq(|letters|, i requires 0 <= i < |letters| => letters[i].letter)
  }

  function WithoutHyphens(s: string): string {
    if s == "" then "" else (if s[0] == '-' then "" else [s[0]]) + WithoutHyphens(s[1..])
  }

  /** The slug has the letters and digits of the text without its marks, in order and in the same words. */
  predicate SaysSame(slug: string, text: string) {
    Letters(slug, false) == Letters(DropMarks(text), false)
  }

  lemma {:induction false} HyphenateLetters(s: string, inRun: bool, inWord: bool)
    requires !(inRun && inWord)
    ensures Letters(Hyphenate(s, inRun), inWord) == Letters(s, inWord)
  {
    if s != "" {
      HyphenateLetters(s[1..], false, true);
      HyphenateLetters(s[1..], true, false);
      var gap, word := Hyphenate(s[1..], true), Hyphenate(s[1..], false);
      if IsWordChar(s[0]) {
        assert ([s[0]] + word)[1..] == word;
      } else if inRun {
        assert "" + gap == gap;
      } else {
        assert ("-" + gap)[1..] == gap;
      }
    }
  }

  lemma {:induction false} TrimLeftLetters(s: string)
    ensures Letters(TrimLeft(s), false) == Letters(s, false)
  {
    if s != "" && s[0] == '-' {
      TrimLeftLetters(s[1..]);
    }
  }

  lemma {:induction false} HyphenAdds(s: string, inWord: bool)
    ensures Letters(s + ['-'], inWord) == Letters(s, inWord)
  {
    if s == "" {
      assert (s + ['-'])[1..] == "";
    } else {
      HyphenAdds(s[1..], true);
      HyphenAdds(s[1..], false);
      assert (s + ['-'])[1..] == s[1..] + ['-'];
    }
  }

  lemma {:induction false} TrimRightLetters(s: string)
    ensures Letters(TrimRight(s), false) == Letters(s, false)
  {
    if s != "" && s[|s| - 1] == '-' {
      TrimRightLetters(s[..|s| - 1]);
      HyphenAdds(s[..|s| - 1], false);
      assert s == s[..|s| - 1] + ['-'];
    }
  }

  /**
   A slug has the letters and digits of the title without its marks, in order; between two of them
   stands a hyphen exactly when something else stood between them in the title.
   */
  lemma SlugifyEnLetters(text: string)
    ensures SaysSame(SlugifyEn(text), text)
  {
    var dashed := Hyphenate(DropMarks(text), false);
    HyphenateLetters(DropMarks(text), false, false);
    TrimLeftLetters(dashed);
    TrimRightLetters(TrimLeft(dashed));
  }

  lemma {:induction false} SlugLetters(s: string, inWord: bool)
    requires forall i | 0 <= i < |s| :: IsWordChar(s[i]) || s[i] == '-'
    ensures WithoutHyphens(s) == CharsOf(Letters(s, inWord))
  {
    if s != "" {
      SlugLetters(s[1..], true);
      SlugLetters(s[1..], false);
    }
  }

  /** Without its hyphens the slug is the letters and digits of the title. */
  lemma SlugifyEnKeeps(text: string)
    ensures WithoutHyphens(SlugifyEn(text)) == CharsOf(Letters(DropMarks(text), false))
  {
    SlugifyEnIsSlug(text);
    SlugReIsWellFormed(SlugifyEn(text));
    SlugifyEnLetters(text);
    SlugLetters(SlugifyEn(text), false);
  }

  /** Empty, or words joined by single hyphens; behind a letter (`inWord`) the first of these may come first. */
  predicate Rest(s: string, inWord: bool) {
    s == "" || WellFormed(if inWord && s[0] == '-' then s[1..] else s)
  }

  lemma RestTail(s: string, inWord: bool)
    requires Rest(s, inWord) && s != ""
    ensures Rest(s[1..], s[0] != '-') && (s[0] == '-' ==> inWord && s[1..] != "" && s[1] != '-')
    ensures s[0] != '-' ==> IsWordChar(s[0])
    ensures var rest := Letters(s[1..], s[0] != '-');
            if s[0] == '-' then Letters(s, inWord) == rest && rest != [] && !rest[0].joined
            else Letters(s, inWord) == [Letter(s[0], inWord)] + rest
  {
  }

  /** Its letters determine a slug. */
  lemma {:induction false} LettersDetermine(a: string, b: string, inWord: bool)
    requires Rest(a, inWord) && Rest(b, inWord) && Letters(a, inWord) == Letters(b, inWord)
    ensures a == b
    decreases |a| + |b|
  {
    if a != "" {
      RestTail(a, inWord);
    }
    if b != "" {
      RestTail(b, inWord);
    }
    if a != "" && b != "" {
      var tail, more := Letters(a[1..], a[0] != '-'), Letters(b[1..], b[0] != '-');
      assert a[0] != '-' ==> Letters(a, inWord)[0] == Letter(a[0], inWord) && Letters(a, inWord)[1..] == tail;
      assert b[0] != '-' ==> Letters(b, inWord)[0] == Letter(b[0], inWord) && Letters(b, inWord)[1..] == more;
      LettersDetermine(a[1..], b[1..], a[0] != '-');
      assert a == [a[0]] + a[1..] && b == [b[0]] + b[1..];
    }
  }

  /** No other slug says as much: the one made from a title is the only one with its letters. */
  lemma OnlySlugOfTitle(text: string, slug: string)
    requires slug == "" || MatchesSlugRe(slug)
    ensures slug == SlugifyEn(text) <==> SaysSame(slug, text)
  {
    SlugifyEnIsSlug(text);
    SlugifyEnLetters(text);
    SlugReIsWellFormed(slug);
    SlugReIsWellFormed(SlugifyEn(text));
    if SaysSame(slug, text) {
      LettersDetermine(slug, SlugifyEn(text), false);
    }
  }

  /** Marks count for nothing, wherever they stand, and nothing else is dropped. */
  lemma {:induction false} MarksCountForNothing(a: string, mark: char, b: string)
    requires '\U{0300}' <= mark <= '\U{036F}'
    ensures DropMarks(a + [mark] + b) == DropMarks(a + b)
  {
    if a == "" {
      assert a + [mark] + b == [mark] + b && a + b == b && ([mark] + b)[1..] == b;
      assert "" + DropMarks(b) == DropMarks(b);
    } else {
      MarksCountForNothing(a[1..], mark, b);
      assert a + [mark] + b == [a[0]] + (a[1..] + [mark] + b) && a + b == [a[0]] + (a[1..] + b);
    }
  }

  lemma {:induction false} NothingElseDropped(s: string)
    requires forall i | 0 <= i < |s| :: !('\U{0300}' <= s[i] <= '\U{036F}')
    ensures DropMarks(s) == s
  {
    if s != "" {
      NothingElseDropped(s[1..]);
    }
  }

  /** Lower-casing with decomposition, and the Arabic normalisation, are maps this model leaves open. */
  datatype TextMaps = TextMaps(fold: string -> string, normalizeAr: string -> string)

  predicate HasText(title: Option<string>) {
    title.Some? && exists i | 0 <= i < |title.value| :: !IsSpace(title.value[i])
  }

  function SlugBase(titleEn: Option<string>, titleAr: Option<string>, maps: TextMaps): (r: string)
    ensures r == "" || MatchesSlugRe(r)
    ensures HasText(titleEn) ==> SaysSame(r, maps.fold(titleEn.value))
    ensures !HasText(titleEn) && HasText(titleAr) ==> SaysSame(r, maps.fold(maps.normalizeAr(titleAr.value)))
    ensures !HasText(titleEn) && !HasText(titleAr) ==> r == ""
  {
    if HasText(titleEn) then
      SlugifyEnIsSlug(maps.fold(titleEn.value));
      SlugifyEnLetters(maps.fold(titleEn.value));
      SlugifyEn(maps.fold(titleEn.value))
    else if HasText(titleAr) then
      SlugifyEnIsSlug(maps.fold(maps.normalizeAr(titleAr.value)));
      SlugifyEnLetters(maps.fold(maps.normalizeAr(titleAr.value)));
      SlugifyEn(maps.fold(maps.normalizeAr(titleAr.value)))
    else ""
  }

  /** A slug that says what the English title says, or if that has no text, what the Arabic one says. */
  ghost predicate FromTitle(slug: string, titleEn: Option<string>, titleAr: Option<string>, maps: TextMaps) {
    && MatchesSlugRe(slug)
    && if HasText(titleEn) then SaysSame(slug, maps.fold(titleEn.value))
       else HasText(titleAr) && SaysSame(slug, maps.fold(maps.normalizeAr(titleAr.value)))
  }

  /** There is at most one, and an English title with text decides, whatever the Arabic one is. */
  lemma TitleDecides(slug: string, titleEn: Option<string>, titleAr: Option<string>, maps: TextMaps)
    ensures FromTitle(slug, titleEn, titleAr, maps) <==> slug == SlugBase(titleEn, titleAr, maps) != ""
    ensures HasText(titleEn) ==> forall other :: SlugBase(titleEn, other, maps) == SlugBase(titleEn, titleAr, maps)
  {
    if !MatchesSlugRe(slug) {
    } else if HasText(titleEn) {
      OnlySlugOfTitle(maps.fold(titleEn.value), slug);
    } else if HasText(titleAr) {
      OnlySlugOfTitle(maps.fold(maps.normalizeAr(titleAr.value)), slug);
    }
  }

  /** A title with anything but spaces in it counts. */
  lemma TitlesWithTextCount(text: string, i: nat, title: Option<string>, maps: TextMaps)
    requires i < |text| && !IsSpace(text[i])
    ensures SaysSame(SlugBase(Some(text), title, maps), maps.fold(text))
    ensures SaysSame(SlugBase(None, Some(text), maps), maps.fold(maps.normalizeAr(text)))
  {
    assert HasText(Some(text));
  }

  /** A blank title is as good as none. */
  lemma BlankTitlesCountForNothing(blank: string, title: Option<string>, maps: TextMaps)
    requires forall i | 0 <= i < |blank| :: IsSpace(blank[i])
    ensures SlugBase(Some(blank), title, maps) == SlugBase(None, title, maps)
    ensures SlugBase(title, Some(blank), maps) == SlugBase(title, None, maps)
  {
  }

  // ---- trimming to fit ------------------------------------------------------------------

  /** `/-[^-]*$/` to nothing: cut at the last hyphen, if there is one. */
  function CutLastWord(s: string): string {
    if '-' in s then s[..LastHyphen(s)] else s
  }

  function LastHyphen(s: string): (i: nat)
    requires '-' in s
    ensures i < |s| && s[i] == '-' && forall k | i < k < |s| :: s[k] != '-'
  {
    if s[|s| - 1] == '-' then |s| - 1
    else
      LastHyphen(s[..|s| - 1])
  }

  function Fitted(full: string): string {
    TrimRight(if |full| > BASE_MAX then CutLastWord(full[..BASE_MAX]) else full)
  }

  /**
   Cutting keeps a slug a slug and leaves room for the suffix, so only a reserved word or an empty
   title needs the fallback.
   */
  lemma FittedIsSlug(full: string)
    requires full == "" || MatchesSlugRe(full)
    ensures |Fitted(full)| <= BASE_MAX
    ensures MatchesSlugRe(Fitted(full)) <==> full != ""
  {
    SlugReIsWellFormed(full);
    var cut := if |full| > BASE_MAX then CutLastWord(full[..BASE_MAX]) else full;
    assert cut <= full && |cut| <= BASE_MAX;
    assert cut == "" <==> full == "" by {
      if full != "" && |full| > BASE_MAX {
        assert full[..BASE_MAX][0] != '-';
      }
    }
    TrimRightSingles(cut);
    SlugReIsWellFormed(Fitted(full));
    assert Fitted(full) <= cut;
  }

  lemma ShortFits(full: string)
    requires MatchesSlugRe(full) && |full| <= BASE_MAX
    ensures Fitted(full) == full
  {
    SlugReIsWellFormed(full);
  }

  /** A beginning of the slug that ends where a word ends. */
  predicate WholeWords(p: string, full: string) {
    p != "" && p <= full && p[|p| - 1] != '-' && (|p| == |full| || full[|p|] == '-')
  }

  ghost predicate LongestFit(p: string, full: string) {
    WholeWords(p, full) && |p| <= BASE_MAX && forall q | WholeWords(q, full) && |q| <= BASE_MAX :: |q| <= |p|
  }

  /** Cutting at the last hyphen leaves the longest run of whole words that is shorter than what would fit. */
  lemma FittedAtHyphen(full: string)
    requires MatchesSlugRe(full) && |full| > BASE_MAX && '-' in full[..BASE_MAX]
    ensures WholeWords(Fitted(full), full) && |Fitted(full)| < BASE_MAX
    ensures forall q | WholeWords(q, full) && |q| < BASE_MAX :: |q| <= |Fitted(full)|
  {
    SlugReIsWellFormed(full);
    var h := LastHyphen(full[..BASE_MAX]);
    assert full[..BASE_MAX][..h] == full[..h];
    assert full[h] == '-' && full[h - 1] != '-';
    forall q | WholeWords(q, full) && |q| < BASE_MAX ensures |q| <= h {
      assert full[..BASE_MAX][|q|] == '-';
    }
  }

  lemma FittedWithoutHyphen(full: string)
    requires |full| > BASE_MAX && '-' !in full[..BASE_MAX]
    ensures Fitted(full) == full[..BASE_MAX]
  {
    assert full[..BASE_MAX][BASE_MAX - 1] in full[..BASE_MAX];
  }

  lemma BoundaryAtCut(full: string)
    requires MatchesSlugRe(full) && |full| > BASE_MAX
    ensures forall q | |q| == BASE_MAX :: WholeWords(q, full) <==> q == full[..BASE_MAX] && full[BASE_MAX] == '-'
  {
    SlugReIsWellFormed(full);
  }

  /**
   A slug that is too long becomes the longest run of its words that fits, exactly unless the cut
   falls right behind a later word than the first, which is then dropped although it fits, or
   inside the first word, which is then broken.
   */
  lemma FittedIsLongest(full: string)
    requires MatchesSlugRe(full)
    ensures LongestFit(Fitted(full), full) <==>
            |full| <= BASE_MAX || ('-' in full[..BASE_MAX] <==> full[BASE_MAX] != '-')
  {
    SlugReIsWellFormed(full);
    if |full| <= BASE_MAX {
      ShortFits(full);
    } else {
      BoundaryAtCut(full);
      if '-' in full[..BASE_MAX] {
        FittedAtHyphen(full);
      } else {
        FittedWithoutHyphen(full);
      }
    }
  }

  function Repeat(c: char, n: nat): string {
    seq(n, i requires 0 <= i < n => c)
  }

  /** A title of three words of which the first two fit, but only the first is kept. */
  lemma CutDropsFittingWord() returns (full: string, longer: string)
    ensures MatchesSlugRe(full) && WholeWords(longer, full) && |longer| == BASE_MAX && Fitted(full) == "a"
  {
    var word := Repeat('b', BASE_MAX - 2);
    full, longer := "a-" + word + "-c", "a-" + word;
    JoinWellFormed("a", word);
    JoinWellFormed("a-" + word, "c");
    SlugReIsWellFormed(full);
    var cut := full[..BASE_MAX];
    assert cut == longer && LastHyphen(cut) == 1;
    assert cut[..1] == "a";
  }

  // ---- a free slug ----------------------------------------------------------------------

  /** The `n`th slug tried: the base, then `base-2`, `base-3` and so on. */
  function Candidate(base: string, n: nat): string
    requires n >= 1
  {
    if n == 1 then base else base + ['-'] + Decimal(n)
  }

  lemma CandidatesDiffer(base: string, m: nat, n: nat)
    requires 1 <= m < n
    ensures Candidate(base, m) != Candidate(base, n)
  {
    if m == 1 {
      assert |Candidate(base, n)| > |base|;
    } else if Candidate(base, m) == Candidate(base, n) {
      assert Candidate(base, m)[|base| + 1..] == Decimal(m) && Candidate(base, n)[|base| + 1..] == Decimal(n);
      DecimalInjective(m, n);
    }
  }

  ghost function Tried(base: string, n: nat): set<string> {
    if n == 0 then {} else Tried(base, n - 1) + {Candidate(base, n)}
  }

  /** The first `n` candidates are `n` different slugs. */
  lemma {:induction false} TriedCount(base: string, n: nat)
    ensures |Tried(base, n)| == n
    ensures forall s :: s in Tried(base, n) ==> exists m: nat :: 1 <= m <= n && Candidate(base, m) == s
  {
    if n > 0 {
      TriedCount(base, n - 1);
      if Candidate(base, n) in Tried(base, n - 1) {
        var m: nat :| 1 <= m <= n - 1 && Candidate(base, m) == Candidate(base, n);
        CandidatesDiffer(base, m, n);
      }
    }
  }

  lemma {:induction false} SubsetIsSmaller(a: set<string>, b: set<string>)
    requires a <= b
    ensures |a| <= |b|
  {
    assert b == a + (b - a) && a !! (b - a);
  }

  /** A suffix keeps a slug a slug, adds at most six characters up to 99999, and is never a plain word. */
  lemma CandidateIsSlug(base: string, n: nat)
    requires n >= 1 && MatchesSlugRe(base) && |base| <= BASE_MAX
    ensures MatchesSlugRe(Candidate(base, n))
    ensures n < 100000 ==> |Candidate(base, n)| <= SLUG_MAX
    ensures n > 1 ==> '-' in Candidate(base, n)
  {
    if n > 1 {
      SlugReIsWellFormed(base);
      assert forall i | 0 <= i < |Decimal(n)| :: Decimal(n)[i] in Decimal(n);
      assert IsWord(Decimal(n));
      JoinWellFormed(base, Decimal(n));
      SlugReIsWellFormed(Candidate(base, n));
      DecimalLength(n);
      assert Candidate(base, n)[|base|] == '-';
    }
  }

  ghost predicate NoHyphens(words: set<string>) {
    forall w | w in words :: '-' !in w
  }

  lemma ReservedPostSlugsArePlain()
    ensures NoHyphens(RESERVED_POST_SLUGS)
  {
  }

  /** The base a slug starts from: the fitted title, or the fallback when nothing valid is left of it. */
  function BaseOf(full: string, fallback: string, reserved: set<string>): string {
    if IsValidSlug(Fitted(full), reserved) then Fitted(full) else fallback
  }

  /**
   Every slug tried before the result is taken, so at most one more is tried than there are
   slugs. With a fallback and reserved words as the caller has them, the result obeys the rules.
   */
  method GenerateUniqueSlug(titleEn: Option<string>, titleAr: Option<string>, maps: TextMaps, fallback: string,
                            reserved: set<string>, taken: set<string>) returns (slug: string, ghost tries: nat)
    ensures slug !in taken && 1 <= tries <= |taken| + 1
    ensures var base := BaseOf(SlugBase(titleEn, titleAr, maps), fallback, reserved);
            slug == Candidate(base, tries) && forall n | 1 <= n < tries :: Candidate(base, n) in taken
    ensures forall full | FromTitle(full, titleEn, titleAr, maps) && |full| <= 174 && full !in reserved ::
              slug == (if tries == 1 then full else full + "-" + Decimal(tries))
    ensures !HasText(titleEn) && !HasText(titleAr) ==>
            slug == (if tries == 1 then fallback else fallback + "-" + Decimal(tries))
    ensures IsValidSlug(fallback, reserved) && |fallback| <= BASE_MAX && NoHyphens(reserved) ==>
              MatchesSlugRe(slug) && slug !in reserved && (tries < 100000 ==> IsValidSlug(slug, reserved))
  {
    var full := SlugBase(titleEn, titleAr, maps);
    FittedIsSlug(full);
    var base := Fitted(full);
    if !IsValidSlug(base, reserved) {
      base := fallback;
    }
    slug, tries := FirstFree(base, taken);
    forall f | FromTitle(f, titleEn, titleAr, maps) && |f| <= BASE_MAX && f !in reserved ensures base == f {
      TitleDecides(f, titleEn, titleAr, maps);
      ShortFits(f);
    }
    if IsValidSlug(fallback, reserved) && |fallback| <= BASE_MAX && NoHyphens(reserved) {
      CandidateIsSlug(base, tries);
      assert tries > 1 ==> slug !in reserved;
    }
  }

  /** A title that leaves any slug at all needs the fallback only when that slug is a reserved word. */
  lemma FallbackOnlyWhenNeeded(full: string, fallback: string, reserved: set<string>)
    requires full == "" || MatchesSlugRe(full)
    ensures IsValidSlug(Fitted(full), reserved) <==> full != "" && Fitted(full) !in reserved
    ensures |full| <= BASE_MAX && full != "" && full !in reserved ==> BaseOf(full, fallback, reserved) == full
  {
    FittedIsSlug(full);
    if full != "" && |full| <= BASE_MAX {
      ShortFits(full);
    }
  }

  method FirstFree(base: string, taken: set<string>) returns (candidate: string, ghost tries: nat)
    ensures candidate !in taken && 1 <= tries <= |taken| + 1
    ensures candidate == Candidate(base, tries) && forall n | 1 <= n < tries :: Candidate(base, n) in taken
  {
    var i := 2;
    candidate := base;
    while candidate in taken
      invariant 2 <= i && candidate == Candidate(base, i - 1)
      invariant Tried(base, i - 2) <= taken && i - 2 <= |taken|
      invariant forall n | 1 <= n < i - 1 :: Candidate(base, n) in taken
      decreases |taken| + 2 - i
    {
      MoreThanTaken(base, i - 1, taken);
      candidate := base + ['-'] + Decimal(i);
      i := i + 1;
    }
    tries := i - 1;
  }

  lemma MoreThanTaken(base: string, n: nat, taken: set<string>)
    requires n >= 1 && Tried(base, n - 1) <= taken && Candidate(base, n) in taken
    ensures Tried(base, n) <= taken && n <= |taken|
  {
    TriedCount(base, n);
    SubsetIsSmaller(Tried(base, n), taken);
  }

  /** `post-` and a time stamp, what news posts fall back to. */
  lemma PostFallbackIsValid(now: nat)
    requires |Decimal(now)| <= 100
    ensures IsValidSlug("post" + ['-'] + Decimal(now), RESERVED_POST_SLUGS)
    ensures |"post" + ['-'] + Decimal(now)| <= BASE_MAX
  {
    assert forall i | 0 <= i < |Decimal(now)| :: Decimal(now)[i] in Decimal(now);
    JoinWellFormed("post", Decimal(now));
    SlugReIsWellFormed("post" + ['-'] + Decimal(now));
    ReservedPostSlugsArePlain();
    HyphenIsNotReserved("post", Decimal(now), RESERVED_POST_SLUGS);
  }

  lemma HyphenIsNotReserved(a: string, b: string, reserved: set<string>)
    requires NoHyphens(reserved)
    ensures a + ['-'] + b !in reserved
  {
  }
}
