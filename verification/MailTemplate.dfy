/** Variables in mail templates: one pass over the Markdown source, with the values escaped. */
module MailTemplate {
  import opened Strings
  import opened Wrappers

  type Vars = map<string, string>

  const TRUSTED_LINK_VARS: set<string> := {"link"}

  predicate IsNameChar(c: char) {
    'a' <= c <= 'z' || 'A' <= c <= 'Z' || IsDigit(c) || c == '_'
  }

  // ---- tokens ---------------------------------------------------------------------------

  datatype Piece = Text(c: char) | Var(name: string)

  function SkipSpaces(s: string): (r: string)
    ensures |r| <= |s| && (r != "" ==> !IsSpace(r[0]))
  {
    if s != "" && IsSpace(s[0]) then SkipSpaces(s[1..]) else s
  }

  function TakeName(s: string): (r: (string, string))
    ensures s == r.0 + r.1 && (r.1 != "" ==> !IsNameChar(r.1[0]))
    ensures forall i | 0 <= i < |r.0| :: IsNameChar(r.0[i])
  {
    if s != "" && IsNameChar(s[0]) then var r := TakeName(s[1..]); ([s[0]] + r.0, r.1) else ("", s)
  }

  /** `\{\{\s*(\w+)\s*\}\}` at the start of `s`: the name and what follows the token. */
  function MatchToken(s: string): (r: Option<(string, string)>)
    ensures r.Some? ==>
            |r.value.1| < |s| && r.value.0 != "" && forall i | 0 <= i < |r.value.0| :: IsNameChar(r.value.0[i])
  {
    if !("{{" <= s) then None
    else
      var named := TakeName(SkipSpaces(s[2..]));
      var rest := SkipSpaces(named.1);
      if named.0 != "" && "}}" <= rest then Some((named.0, rest[2..])) else None
  }

  /** The template cut into tokens and single characters, from left to right. */
  function Pieces(s: string): seq<Piece>
    decreases |s|
  {
    if s == "" then []
    else
      var m := MatchToken(s);
      if m.Some? then [Var(m.value.0)] + Pieces(m.value.1) else [Text(s[0])] + Pieces(s[1..])
  }

  function VarNames(pieces: seq<Piece>): seq<string> {
    if pieces == [] then []
    else (if pieces[0].Var? then [pieces[0].name] else []) + VarNames(pieces[1..])
  }

  function ExtractVariables(text: string): seq<string> {
    VarNames(Pieces(text))
  }

  // ---- escaping -------------------------------------------------------------------------

  predicate IsMarkdownMeta(c: char) {
    c == '\\' || c == '[' || c == ']' || c == '(' || c == ')' || c == '`' || c == '*' || c == '_' ||
    c == '<' || c == '>' || c == '!' || c == '{' || c == '}'
  }

  predicate IsAutolinkChar(c: char) {
    c == ':' || c == '.' || c == '@'
  }

  /** The two sets, as the code spells them. */
  lemma EscapedCharacters(c: char)
    ensures IsMarkdownMeta(c) <==> c in "\\[]()`*_<>!{}"
    ensures IsAutolinkChar(c) <==> c in ":.@"
  {
  }

  datatype CharClass = Markdown | Autolink | Either

  predicate In(k: CharClass, c: char) {
    match k
    case Markdown => IsMarkdownMeta(c)
    case Autolink => IsAutolinkChar(c)
    case Either => IsMarkdownMeta(c) || IsAutolinkChar(c)
  }

  function EscapeAll(k: CharClass, value: string): string {
    if value == "" then ""
    else (if In(k, value[0]) then ['\\', value[0]] else [value[0]]) + EscapeAll(k, value[1..])
  }

  function EscapeMarkdown(value: string): string {
    EscapeAll(Markdown, value)
  }

  function EscapeValue(name: string, value: string): string {
    var escaped := EscapeMarkdown(value);
    if name in TRUSTED_LINK_VARS then escaped else EscapeAll(Autolink, escaped)
  }

  function ValueOf(vars: Vars, name: string): string {
    if name in vars then vars[name] else ""
  }

  /** What a variable is replaced by: its escaped value, its value, or nothing. */
  datatype Mode = ToMarkdown | ToPlain | ToNothing

  function Shown(mode: Mode, vars: Vars, name: string): string {
    match mode
    case ToMarkdown => EscapeValue(name, ValueOf(vars, name))
    case ToPlain => ValueOf(vars, name)
    case ToNothing => ""
  }

  function Render(pieces: seq<Piece>, mode: Mode, vars: Vars): string {
    if pieces == [] then ""
    else
      var shown := match pieces[0] case Text(c) => [c] case Var(name) => Shown(mode, vars, name);
      shown + Render(pieces[1..], mode, vars)
  }

  function SubstituteMarkdown(markdown: string, vars: Vars): string {
    Render(Pieces(markdown), ToMarkdown, vars)
  }

  function SubstitutePlain(markdown: string, vars: Vars): string {
    Render(Pieces(markdown), ToPlain, vars)
  }

  /** The template with every value left out. */
  function Blanked(markdown: string): string {
    Render(Pieces(markdown), ToNothing, map[])
  }

  /** The characters the escape of a variable covers. */
  function MetaOf(name: string): CharClass {
    if name in TRUSTED_LINK_VARS then Markdown else Either
  }

  /** The second pass leaves the backslashes of the first alone: the two are one pass over both sets. */
  lemma {:induction false} TwoPassesAreOne(value: string)
    ensures EscapeAll(Autolink, EscapeMarkdown(value)) == EscapeAll(Either, value)
  {
    if value != "" {
      TwoPassesAreOne(value[1..]);
      var tail := EscapeMarkdown(value[1..]);
      if IsMarkdownMeta(value[0]) {
        EscapedPairStays(value[0], tail);
      } else {
        assert ([value[0]] + tail)[1..] == tail;
      }
    }
  }

  lemma EscapedPairStays(c: char, rest: string)
    requires !IsAutolinkChar(c)
    ensures EscapeAll(Autolink, ['\\', c] + rest) == ['\\', c] + EscapeAll(Autolink, rest)
  {
  }

  lemma EscapeValueIsOnePass(name: string, value: string)
    ensures EscapeValue(name, value) == EscapeAll(MetaOf(name), value)
  {
    TwoPassesAreOne(value);
  }

  // ---- reading escapes ------------------------------------------------------------------

  /** ASCII punctuation, as section 2.1 of the CommonMark specification lists it. */
  predicate IsPunctuation(c: char) {
    '!' <= c <= '/' || ':' <= c <= '@' || '[' <= c <= '`' || '{' <= c <= '~'
  }

  /**
   Section 2.4 of the CommonMark specification: a backslash makes the punctuation after it literal,
   and is literal before anything else.
   */
  function Unescape(s: string): string {
    if s == "" then ""
    else if s[0] == '\\' && |s| > 1 && IsPunctuation(s[1]) then [s[1]] + Unescape(s[2..])
    else [s[0]] + Unescape(s[1..])
  }

  /** Every backslash is escaped, and everything escaped is punctuation. */
  ghost predicate EscapesWell(k: CharClass) {
    In(k, '\\') && forall c | In(k, c) :: IsPunctuation(c)
  }

  lemma MetaEscapesWell(name: string)
    ensures EscapesWell(MetaOf(name))
  {
  }

  lemma {:induction false} UnescapesBack(k: CharClass, value: string)
    requires EscapesWell(k)
    ensures Unescape(EscapeAll(k, value)) == value
  {
    if value != "" {
      UnescapesBack(k, value[1..]);
      var tail := EscapeAll(k, value[1..]);
      if In(k, value[0]) {
        var e := ['\\', value[0]] + tail;
        assert EscapeAll(k, value) == e && e[2..] == tail;
      } else {
        var e := [value[0]] + tail;
        assert EscapeAll(k, value) == e && e[1..] == tail;
      }
      assert value == [value[0]] + value[1..];
    }
  }

  /** What a reader of the mail sees of a value is the value, whichever variable it stands for. */
  lemma ValuesAreLossless(name: string, value: string)
    ensures Unescape(EscapeValue(name, value)) == value
  {
    EscapeValueIsOnePass(name, value);
    MetaEscapesWell(name);
    UnescapesBack(MetaOf(name), value);
  }

  // ---- inertness ------------------------------------------------------------------------

  /** A backslash run of odd length before a position makes what stands there literal. */
  function Pending(s: string, before: bool): bool {
    if s == "" then before else Pending(s[1..], !before && s[0] == '\\')
  }

  function ActiveHead(k: CharClass, c: char, before: bool): string {
    if !before && c != '\\' && In(k, c) then [c] else ""
  }

  /** The characters of `s` that a Markdown parser may act upon: those of `k` that no backslash escapes. */
  function Active(k: CharClass, s: string, before: bool): string {
    if s == "" then ""
    else ActiveHead(k, s[0], before) + Active(k, s[1..], !before && s[0] == '\\')
  }

  lemma {:induction false} PendingJoin(a: string, b: string, before: bool)
    ensures Pending(a + b, before) == Pending(b, Pending(a, before))
  {
    if a == "" {
      assert a + b == b;
    } else {
      PendingJoin(a[1..], b, !before && a[0] == '\\');
      assert (a + b)[0] == a[0] && (a + b)[1..] == a[1..] + b;
    }
  }

  lemma {:induction false} ActiveJoin(k: CharClass, a: string, b: string, before: bool)
    ensures Active(k, a + b, before) == Active(k, a, before) + Active(k, b, Pending(a, before))
  {
    if a == "" {
      assert a + b == b;
    } else {
      var next := !before && a[0] == '\\';
      ActiveJoin(k, a[1..], b, next);
      assert (a + b)[0] == a[0] && (a + b)[1..] == a[1..] + b;
      Assoc(ActiveHead(k, a[0], before), Active(k, a[1..], next), Active(k, b, Pending(a, before)));
    }
  }

  /** An escaped value shows no active character, and the scan is in step again after it. */
  lemma {:induction false} EscapedIsInert(k: CharClass, value: string)
    requires EscapesWell(k)
    ensures Active(k, EscapeAll(k, value), false) == "" && !Pending(EscapeAll(k, value), false)
  {
    if value != "" {
      EscapedIsInert(k, value[1..]);
      var tail := EscapeAll(k, value[1..]);
      if In(k, value[0]) {
        var e := ['\\', value[0]] + tail;
        assert EscapeAll(k, value) == e && e[1..][1..] == tail;
      } else {
        var e := [value[0]] + tail;
        assert EscapeAll(k, value) == e && e[1..] == tail;
      }
    }
  }

  /** What hides more characters hides each of fewer as well. */
  lemma {:induction false} FewerAreInert(k: CharClass, few: CharClass, s: string, before: bool)
    requires forall c | In(few, c) :: In(k, c)
    ensures Active(k, s, before) == "" ==> Active(few, s, before) == ""
  {
    if s != "" {
      FewerAreInert(k, few, s[1..], !before && s[0] == '\\');
    }
  }

  /** No token stands directly after an odd number of backslashes of the template's own. */
  predicate NoTokenEscaped(pieces: seq<Piece>, before: bool) {
    if pieces == [] then true
    else match pieces[0]
      case Text(c) => NoTokenEscaped(pieces[1..], !before && c == '\\')
      case Var(_) => !before && NoTokenEscaped(pieces[1..], false)
  }

  /** The escape of every variable covers the class: links may hold autolinks, and nothing else may. */
  predicate AllCovered(k: CharClass, pieces: seq<Piece>) {
    if pieces == [] then true
    else (k == Markdown || (pieces[0].Var? ==> pieces[0].name !in TRUSTED_LINK_VARS)) && AllCovered(k, pieces[1..])
  }

  lemma ValueIsInert(name: string, value: string)
    ensures var e := EscapeValue(name, value);
            && Active(MetaOf(name), e, false) == "" && Active(Markdown, e, false) == "" && !Pending(e, false)
  {
    var e := EscapeValue(name, value);
    EscapeValueIsOnePass(name, value);
    MetaEscapesWell(name);
    EscapedIsInert(MetaOf(name), value);
    FewerAreInert(MetaOf(name), Markdown, e, false);
  }

  /** A token in step shows nothing, whatever its value; the scan goes on as if it were not there. */
  lemma InertToken(k: CharClass, pieces: seq<Piece>, vars: Vars)
    requires pieces != [] && pieces[0].Var? && (k == Markdown || pieces[0].name !in TRUSTED_LINK_VARS)
    ensures Active(k, Render(pieces, ToMarkdown, vars), false) ==
            Active(k, Render(pieces[1..], ToMarkdown, vars), false)
  {
    var e := Shown(ToMarkdown, vars, pieces[0].name);
    ValueIsInert(pieces[0].name, ValueOf(vars, pieces[0].name));
    FewerAreInert(MetaOf(pieces[0].name), k, e, false);
    ActiveJoin(k, e, Render(pieces[1..], ToMarkdown, vars), false);
  }

  lemma TextGoesOn(k: CharClass, pieces: seq<Piece>, mode: Mode, vars: Vars, before: bool)
    requires pieces != [] && pieces[0].Text?
    ensures var c := pieces[0].c;
            Active(k, Render(pieces, mode, vars), before) ==
            ActiveHead(k, c, before) + Active(k, Render(pieces[1..], mode, vars), !before && c == '\\')
  {
    var r := [pieces[0].c] + Render(pieces[1..], mode, vars);
    assert r[1..] == Render(pieces[1..], mode, vars);
  }

  lemma BlankToken(pieces: seq<Piece>)
    requires pieces != [] && pieces[0].Var?
    ensures Render(pieces, ToNothing, map[]) == Render(pieces[1..], ToNothing, map[])
  {
    assert "" + Render(pieces[1..], ToNothing, map[]) == Render(pieces[1..], ToNothing, map[]);
  }

  lemma {:induction false} PiecesAreInert(k: CharClass, pieces: seq<Piece>, vars: Vars, before: bool)
    requires k != Autolink && NoTokenEscaped(pieces, before) && AllCovered(k, pieces)
    ensures Active(k, Render(pieces, ToMarkdown, vars), before) == Active(k, Render(pieces, ToNothing, map[]), before)
  {
    if pieces != [] {
      match pieces[0]
      case Text(c) =>
        PiecesAreInert(k, pieces[1..], vars, !before && c == '\\');
        TextGoesOn(k, pieces, ToMarkdown, vars, before);
        TextGoesOn(k, pieces, ToNothing, map[], before);
      case Var(name) =>
        PiecesAreInert(k, pieces[1..], vars, false);
        InertToken(k, pieces, vars);
        BlankToken(pieces);
    }
  }

  lemma EscapeOfOne(name: string, c: char)
    ensures EscapeValue(name, [c]) == if In(MetaOf(name), c) then ['\\', c] else [c]
  {
    EscapeValueIsOnePass(name, [c]);
    assert [c][1..] == "" && EscapeAll(MetaOf(name), "") == "";
  }

  /** A character is active where nothing escapes it, and where its own escape is escaped. */
  lemma OneIsActive(k: CharClass, c: char)
    requires In(k, c) && c != '\\'
    ensures Active(k, [c], false) == [c] && Active(k, ['\\', c], true) == [c]
  {
    assert [c][1..] == "" && ['\\', c][1..] == [c];
  }

  /** A token that shows what is left of its value, so that two values show two texts. */
  lemma OpenToken(k: CharClass, pieces: seq<Piece>, vars: Vars, c: char, before: bool) returns (more: string)
    requires pieces != [] && pieces[0].Var? && ValueOf(vars, pieces[0].name) == [c]
    requires In(k, c) && c != '\\' && (before <==> In(MetaOf(pieces[0].name), c))
    ensures Active(k, Render(pieces, ToMarkdown, vars), before) == [c] + more
  {
    var e, rest := EscapeValue(pieces[0].name, [c]), Render(pieces[1..], ToMarkdown, vars);
    EscapeOfOne(pieces[0].name, c);
    OneIsActive(k, c);
    ActiveJoin(k, e, rest, before);
    more := Active(k, rest, Pending(e, before));
  }

  lemma StillDiffer(head: string, a: string, b: string)
    requires a != b
    ensures head + a != head + b
  {
    assert (head + a)[|head|..] == a && (head + b)[|head|..] == b;
  }

  /** Where the condition fails, the first failing token shows different characters for different values. */
  lemma {:induction false} OpenTokenShows(k: CharClass, pieces: seq<Piece>, before: bool)
    returns (name: string, a: string, b: string)
    requires k != Autolink && !(NoTokenEscaped(pieces, before) && AllCovered(k, pieces))
    ensures Active(k, Render(pieces, ToMarkdown, map[name := a]), before) !=
            Active(k, Render(pieces, ToMarkdown, map[name := b]), before)
  {
    if pieces[0].Text? {
      name, a, b := OpenTokenShows(k, pieces[1..], !before && pieces[0].c == '\\');
      TextGoesOn(k, pieces, ToMarkdown, map[name := a], before);
      TextGoesOn(k, pieces, ToMarkdown, map[name := b], before);
      var next := !before && pieces[0].c == '\\';
      StillDiffer(ActiveHead(k, pieces[0].c, before), Active(k, Render(pieces[1..], ToMarkdown, map[name := a]), next),
                  Active(k, Render(pieces[1..], ToMarkdown, map[name := b]), next));
    } else if before || (k == Either && pieces[0].name in TRUSTED_LINK_VARS) {
      var c, d := if before then '[' else ':', if before then '*' else '.';
      name, a, b := pieces[0].name, [c], [d];
      var more := OpenToken(k, pieces, map[name := a], c, before);
      var other := OpenToken(k, pieces, map[name := b], d, before);
      assert ([c] + more)[0] != ([d] + other)[0];
    } else {
      name, a, b := OpenTokenShows(k, pieces[1..], false);
      InertToken(k, pieces, map[name := a]);
      InertToken(k, pieces, map[name := b]);
    }
  }

  /**
   Values are inert. Whatever they are, a parser finds the active Markdown characters of the
   template in the substituted text and no others, exactly when no token follows an odd run of
   backslashes; and the active autolink characters as well, exactly when no token is a link too.
   */
  lemma ValuesAreInert(k: CharClass, markdown: string)
    requires k != Autolink
    ensures (forall vars :: Active(k, SubstituteMarkdown(markdown, vars), false) == Active(k, Blanked(markdown), false))
            <==> NoTokenEscaped(Pieces(markdown), false) && AllCovered(k, Pieces(markdown))
  {
    var pieces := Pieces(markdown);
    if NoTokenEscaped(pieces, false) && AllCovered(k, pieces) {
      forall vars ensures Active(k, SubstituteMarkdown(markdown, vars), false) == Active(k, Blanked(markdown), false) {
        PiecesAreInert(k, pieces, vars, false);
      }
    } else {
      var name, a, b := OpenTokenShows(k, pieces, false);
      assert Active(k, SubstituteMarkdown(markdown, map[name := a]), false) !=
          Active(k, SubstituteMarkdown(markdown, map[name := b]), false);
    }
  }

  lemma {:induction false} CoveredNames(pieces: seq<Piece>)
    ensures AllCovered(Markdown, pieces)
    ensures AllCovered(Either, pieces) <==> forall name | name in VarNames(pieces) :: name !in TRUSTED_LINK_VARS
  {
    if pieces != [] {
      CoveredNames(pieces[1..]);
      assert pieces[0].Var? ==> VarNames(pieces)[0] == pieces[0].name;
    }
  }

  // ---- visitors' values beside links ----------------------------------------------------

  ghost predicate SameLinks(vars: Vars, other: Vars) {
    forall name | name in TRUSTED_LINK_VARS :: ValueOf(vars, name) == ValueOf(other, name)
  }

  /** No visitor's value stands behind a backslash that is still open, be it the template's own or a link's. */
  predicate VisitorsInStep(pieces: seq<Piece>, links: Vars, before: bool) {
    if pieces == [] then true
    else match pieces[0]
      case Text(c) => VisitorsInStep(pieces[1..], links, !before && c == '\\')
      case Var(name) =>
        if name in TRUSTED_LINK_VARS then
          VisitorsInStep(pieces[1..], links, Pending(EscapeValue(name, ValueOf(links, name)), before))
        else !before && VisitorsInStep(pieces[1..], links, false)
  }

  /** Where no token at all is escaped no visitor's is, whatever the links are. */
  lemma {:induction false} InStepForAllLinks(pieces: seq<Piece>, links: Vars, before: bool)
    requires NoTokenEscaped(pieces, before)
    ensures VisitorsInStep(pieces, links, before)
  {
    if pieces != [] {
      match pieces[0]
      case Text(c) => InStepForAllLinks(pieces[1..], links, !before && c == '\\');
      case Var(name) =>
        InStepForAllLinks(pieces[1..], links, false);
        ValueIsInert(name, ValueOf(links, name));
    }
  }

  lemma {:induction false} VisitorsShowNothing(k: CharClass, pieces: seq<Piece>, vars: Vars, other: Vars, before: bool)
    requires SameLinks(vars, other) && VisitorsInStep(pieces, vars, before)
    ensures Active(k, Render(pieces, ToMarkdown, vars), before) == Active(k, Render(pieces, ToMarkdown, other), before)
  {
    if pieces != [] {
      if pieces[0].Text? {
        VisitorsShowNothing(k, pieces[1..], vars, other, !before && pieces[0].c == '\\');
        TextGoesOn(k, pieces, ToMarkdown, vars, before);
        TextGoesOn(k, pieces, ToMarkdown, other, before);
      } else if pieces[0].name in TRUSTED_LINK_VARS {
        var e := EscapeValue(pieces[0].name, ValueOf(vars, pieces[0].name));
        VisitorsShowNothing(k, pieces[1..], vars, other, Pending(e, before));
        ActiveJoin(k, e, Render(pieces[1..], ToMarkdown, vars), before);
        ActiveJoin(k, e, Render(pieces[1..], ToMarkdown, other), before);
      } else {
        VisitorsShowNothing(k, pieces[1..], vars, other, false);
        InertToken(k, pieces, vars);
        InertToken(k, pieces, other);
      }
    }
  }

  /** The first visitor's value behind an open backslash shows different characters for different values. */
  lemma {:induction false} EscapedVisitorShows(k: CharClass, pieces: seq<Piece>, links: Vars, before: bool)
    returns (name: string, a: string, b: string)
    requires !VisitorsInStep(pieces, links, before)
    ensures name !in TRUSTED_LINK_VARS
    ensures Active(k, Render(pieces, ToMarkdown, links[name := a]), before) !=
            Active(k, Render(pieces, ToMarkdown, links[name := b]), before)
  {
    if pieces[0].Text? {
      var next := !before && pieces[0].c == '\\';
      name, a, b := EscapedVisitorShows(k, pieces[1..], links, next);
      TextGoesOn(k, pieces, ToMarkdown, links[name := a], before);
      TextGoesOn(k, pieces, ToMarkdown, links[name := b], before);
      StillDiffer(ActiveHead(k, pieces[0].c, before),
        Active(k, Render(pieces[1..], ToMarkdown, links[name := a]), next),
                  Active(k, Render(pieces[1..], ToMarkdown, links[name := b]), next));
    } else if pieces[0].name in TRUSTED_LINK_VARS {
      var e := EscapeValue(pieces[0].name, ValueOf(links, pieces[0].name));
      name, a, b := EscapedVisitorShows(k, pieces[1..], links, Pending(e, before));
      LinkGoesOn(k, pieces, links, name, a, before);
      LinkGoesOn(k, pieces, links, name, b, before);
      StillDiffer(Active(k, e, before),
        Active(k, Render(pieces[1..], ToMarkdown, links[name := a]), Pending(e, before)),
                  Active(k, Render(pieces[1..], ToMarkdown, links[name := b]), Pending(e, before)));
    } else if before {
      var c, d := if k == Markdown then '[' else ':', if k == Markdown then '*' else '.';
      name, a, b := pieces[0].name, [c], [d];
      var more := OpenToken(k, pieces, links[name := a], c, before);
      var other := OpenToken(k, pieces, links[name := b], d, before);
      assert ([c] + more)[0] != ([d] + other)[0];
    } else {
      name, a, b := EscapedVisitorShows(k, pieces[1..], links, false);
      InertToken(k, pieces, links[name := a]);
      InertToken(k, pieces, links[name := b]);
    }
  }

  lemma LinkGoesOn(k: CharClass, pieces: seq<Piece>, links: Vars, name: string, value: string, before: bool)
    requires pieces != [] && pieces[0].Var? && pieces[0].name in TRUSTED_LINK_VARS && name !in TRUSTED_LINK_VARS
    ensures var e := EscapeValue(pieces[0].name, ValueOf(links, pieces[0].name));
            Active(k, Render(pieces, ToMarkdown, links[name := value]), before) ==
            Active(k, e, before) + Active(k, Render(pieces[1..], ToMarkdown, links[name := value]), Pending(e, before))
  {
    var e := EscapeValue(pieces[0].name, ValueOf(links, pieces[0].name));
    ActiveJoin(k, e, Render(pieces[1..], ToMarkdown, links[name := value]), before);
  }

  /** The links alone: what a template becomes when no visitor's value is given. */
  function OnlyLinks(vars: Vars): Vars {
    map name | name in vars && name in TRUSTED_LINK_VARS :: vars[name]
  }

  /** A parser acts on the same characters whichever of the two the template is filled with. */
  ghost predicate SameActive(k: CharClass, markdown: string, vars: Vars, other: Vars) {
    Active(k, SubstituteMarkdown(markdown, vars), false) == Active(k, SubstituteMarkdown(markdown, other), false)
  }

  lemma InStepIsInert(k: CharClass, markdown: string, links: Vars, vars: Vars)
    requires VisitorsInStep(Pieces(markdown), links, false) && SameLinks(links, vars)
    ensures SameActive(k, markdown, vars, OnlyLinks(links))
  {
    VisitorsShowNothing(k, Pieces(markdown), links, OnlyLinks(links), false);
    VisitorsShowNothing(k, Pieces(markdown), links, vars, false);
  }

  lemma OutOfStepShows(k: CharClass, markdown: string, links: Vars) returns (vars: Vars)
    requires !VisitorsInStep(Pieces(markdown), links, false)
    ensures SameLinks(links, vars) && !SameActive(k, markdown, vars, OnlyLinks(links))
  {
    var name, a, b := EscapedVisitorShows(k, Pieces(markdown), links, false);
    vars := if SameActive(k, markdown, links[name := a], OnlyLinks(links)) then links[name := b] else links[name := a];
  }

  /**
   Visitors' values are inert on every template. With the links given, whatever the other values
   are, a parser finds the active characters of text and links and no others, exactly when no
   visitor's value stands behind an open backslash.
   */
  lemma VisitorsAreInert(k: CharClass, markdown: string, links: Vars)
    ensures (forall vars | SameLinks(links, vars) :: SameActive(k, markdown, vars, OnlyLinks(links)))
            <==> VisitorsInStep(Pieces(markdown), links, false)
  {
    if VisitorsInStep(Pieces(markdown), links, false) {
      forall vars | SameLinks(links, vars) ensures SameActive(k, markdown, vars, OnlyLinks(links)) {
        InStepIsInert(k, markdown, links, vars);
      }
    } else {
      var vars := OutOfStepShows(k, markdown, links);
    }
  }

  /** No visitor's value becomes a link: on a template without escaped tokens only links matter, if there are any. */
  lemma VisitorsNeverAutolink(markdown: string, vars: Vars, other: Vars)
    requires NoTokenEscaped(Pieces(markdown), false) && SameLinks(vars, other)
    ensures SameActive(Either, markdown, vars, other)
  {
    InStepForAllLinks(Pieces(markdown), vars, false);
    VisitorsShowNothing(Either, Pieces(markdown), vars, other, false);
  }

  function AutolinkChars(value: string): string {
    if value == "" then "" else (if IsAutolinkChar(value[0]) then [value[0]] else "") + AutolinkChars(value[1..])
  }

  /** The active characters of the template's text, with the autolink characters of the links in their places. */
  function Skeleton(pieces: seq<Piece>, links: Vars, before: bool): string {
    if pieces == [] then ""
    else match pieces[0]
      case Text(c) => ActiveHead(Either, c, before) + Skeleton(pieces[1..], links, !before && c == '\\')
      case Var(name) =>
        (if name in TRUSTED_LINK_VARS then AutolinkChars(ValueOf(links, name)) else "") +
        Skeleton(pieces[1..], links, false)
  }

  lemma {:induction false} LinkShowsAutolinks(value: string)
    ensures Active(Either, EscapeMarkdown(value), false) == AutolinkChars(value)
  {
    if value != "" {
      LinkShowsAutolinks(value[1..]);
      var tail := EscapeMarkdown(value[1..]);
      if IsMarkdownMeta(value[0]) {
        var e := ['\\', value[0]] + tail;
        assert EscapeMarkdown(value) == e && e[1..][1..] == tail;
      } else {
        var e := [value[0]] + tail;
        assert EscapeMarkdown(value) == e && e[1..] == tail;
      }
    }
  }

  lemma {:induction false} RenderShowsSkeleton(pieces: seq<Piece>, vars: Vars, before: bool)
    requires NoTokenEscaped(pieces, before)
    ensures Active(Either, Render(pieces, ToMarkdown, vars), before) == Skeleton(pieces, vars, before)
  {
    if pieces != [] {
      match pieces[0]
      case Text(c) =>
        RenderShowsSkeleton(pieces[1..], vars, !before && c == '\\');
        TextGoesOn(Either, pieces, ToMarkdown, vars, before);
      case Var(name) =>
        RenderShowsSkeleton(pieces[1..], vars, false);
        if name in TRUSTED_LINK_VARS {
          ValueIsInert(name, ValueOf(vars, name));
          LinkShowsAutolinks(ValueOf(vars, name));
          ActiveJoin(Either, Shown(ToMarkdown, vars, name), Render(pieces[1..], ToMarkdown, vars), false);
        } else {
          InertToken(Either, pieces, vars);
          assert "" + Skeleton(pieces[1..], vars, false) == Skeleton(pieces[1..], vars, false);
        }
    }
  }

  /** What links add to a template without escaped tokens: their own colons, dots and at-signs. */
  lemma LinksAddAutolinks(markdown: string, vars: Vars)
    requires NoTokenEscaped(Pieces(markdown), false)
    ensures Active(Either, SubstituteMarkdown(markdown, vars), false) == Skeleton(Pieces(markdown), vars, false)
  {
    RenderShowsSkeleton(Pieces(markdown), vars, false);
  }

  /** Without a link token nothing of any value is active. */
  lemma LinklessShowsNoValue(markdown: string, vars: Vars)
    requires NoTokenEscaped(Pieces(markdown), false)
    requires forall name | name in ExtractVariables(markdown) :: name !in TRUSTED_LINK_VARS
    ensures Active(Either, SubstituteMarkdown(markdown, vars), false) == Active(Either, Blanked(markdown), false)
  {
    CoveredNames(Pieces(markdown));
    ValuesAreInert(Either, markdown);
  }

  lemma WordToken(name: string, rest: string)
    requires name != "" && forall i | 0 <= i < |name| :: IsNameChar(name[i])
    ensures MatchToken("{{" + name + "}}" + rest) == Some((name, rest))
  {
    var after := "}}" + rest;
    NameTaken(name, after);
    NoSpaceFirst(name, after);
    TokenOpened(name, rest);
    TokenFrom("{{" + name + "}}" + rest, name, after);
  }

  lemma NoSpaceFirst(name: string, after: string)
    requires name != "" && IsNameChar(name[0])
    ensures SkipSpaces(name + after) == name + after
  {
  }

  lemma TokenOpened(name: string, rest: string)
    ensures "{{" <= "{{" + name + "}}" + rest && ("{{" + name + "}}" + rest)[2..] == name + ("}}" + rest)
    ensures ("}}" + rest)[2..] == rest
  {
  }

  lemma TokenPiece(s: string, name: string, rest: string)
    requires name != "" && (forall i | 0 <= i < |name| :: IsNameChar(name[i])) && s == "{{" + name + "}}" + rest
    ensures Pieces(s) == [Var(name)] + Pieces(rest)
  {
    WordToken(name, rest);
  }

  lemma TextPiece(s: string, c: char, rest: string)
    requires c != '{' && s == [c] + rest
    ensures Pieces(s) == [Text(c)] + Pieces(rest)
  {
    assert s[1..] == rest;
  }

  lemma TokenFrom(s: string, name: string, after: string)
    requires "{{" <= s && TakeName(SkipSpaces(s[2..])) == (name, after) && name != "" && "}}" <= SkipSpaces(after)
    ensures MatchToken(s) == Some((name, SkipSpaces(after)[2..]))
  {
  }

  lemma HeadAndTail(s: string, rest: string)
    requires s != ""
    ensures (s + rest)[0] == s[0] && (s + rest)[1..] == s[1..] + rest && [s[0]] + s[1..] == s
  {
  }

  lemma {:induction false} NameTaken(name: string, after: string)
    requires after != "" && after[0] == '}' && forall i | 0 <= i < |name| :: IsNameChar(name[i])
    ensures TakeName(name + after) == (name, after) && SkipSpaces(after) == after
  {
    if name == "" {
      assert name + after == after;
    } else {
      NameTaken(name[1..], after);
      HeadAndTail(name, after);
    }
  }

  /** A backslash, a token and nothing else. */
  lemma BackslashToken()
    ensures Pieces("\\{{x}}") == [Text('\\'), Var("x")]
  {
    TokenPiece("{{x}}", "x", "");
    TextPiece("\\{{x}}", '\\', "{{x}}");
  }

  /** The template `\{{first}}{{second}}`. */
  function EscapedPair(first: string, second: string): string {
    ['\\'] + ("{{" + first + "}}" + ("{{" + second + "}}" + ""))
  }

  predicate IsName(name: string) {
    name != "" && forall i | 0 <= i < |name| :: IsNameChar(name[i])
  }

  lemma EscapedPairPieces(first: string, second: string)
    requires IsName(first) && IsName(second)
    ensures Pieces(EscapedPair(first, second)) == [Text('\\'), Var(first), Var(second)]
  {
    var token := "{{" + second + "}}" + "";
    var tokens := "{{" + first + "}}" + token;
    TokenPiece(token, second, "");
    TokenPiece(tokens, first, token);
    TextPiece(EscapedPair(first, second), '\\', tokens);
  }

  lemma LinkThenVisitor(name: string, links: Vars)
    requires name !in TRUSTED_LINK_VARS
    ensures VisitorsInStep([Text('\\'), Var("link"), Var(name)], links, false) <==>
            !Pending(EscapeValue("link", ValueOf(links, "link")), true)
  {
    var behind := Pending(EscapeValue("link", ValueOf(links, "link")), true);
    assert [Text('\\'), Var("link"), Var(name)][1..] == [Var("link"), Var(name)];
    assert [Var("link"), Var(name)][1..] == [Var(name)] && [Var(name)][1..] == [];
    assert VisitorsInStep([Var(name)], links, behind) <==> !behind;
    assert VisitorsInStep([Var("link"), Var(name)], links, true) <==> VisitorsInStep([Var(name)], links, behind);
  }

  /**
   Behind a backslash the link's own value decides about a visitor's value that follows: an empty
   link leaves the backslash open, and one that starts with an escaped character closes it.
   */
  lemma LinkValueDecides(name: string)
    requires IsName(name) && name !in TRUSTED_LINK_VARS
    ensures !VisitorsInStep(Pieces(EscapedPair("link", name)), map["link" := ""], false)
    ensures VisitorsInStep(Pieces(EscapedPair("link", name)), map["link" := "["], false)
  {
    EscapedPairPieces("link", name);
    LinkThenVisitor(name, map["link" := ""]);
    LinkThenVisitor(name, map["link" := "["]);
    EscapeOfOne("link", '[');
    OpenBracketCloses();
  }

  lemma OpenBracketCloses()
    ensures !Pending(['\\', '['], true)
  {
    assert ['\\', '['][1..] == ['['] && ['['][1..] == "";
  }

  /** The condition is needed: a backslash before a token escapes the value's own escape. */
  lemma {:induction false} EscapedTokenLetsThrough()
    ensures var vars := map["x" := "["];
            && !NoTokenEscaped(Pieces("\\{{x}}"), false)
            && Active(Markdown, SubstituteMarkdown("\\{{x}}", vars), false) == "["
            && Active(Markdown, Blanked("\\{{x}}"), false) == ""
  {
    BackslashToken();
    var pieces, vars := [Text('\\'), Var("x")], map["x" := "["];
    EscapeValueIsOnePass("x", "[");
    assert EscapeAll(Either, "[") == ['\\', '['] + EscapeAll(Either, "");
    assert pieces[1..] == [Var("x")] && pieces[1..][1..] == [];
    assert Shown(ToMarkdown, vars, "x") == ['\\', '['];
    assert Render(pieces[1..], ToMarkdown, vars) == ['\\', '['];
    assert Render(pieces, ToMarkdown, vars) == ['\\', '\\', '['];
    assert Render(pieces, ToNothing, map[]) == ['\\'];
    assert ['\\', '\\', '['][1..] == ['\\', '['] && ['\\', '['][1..] == ['['] && ['['][1..] == "" && ['\\'][1..] == "";
  }

  // ---- no second expansion --------------------------------------------------------------

  /** Inside an escaped value a backslash stands before every brace, so no two stand together and none first. */
  lemma {:induction false} EscapedHoldsNoToken(name: string, value: string)
    ensures var e := EscapeAll(MetaOf(name), value);
            && (forall i | 0 <= i < |e| && (e[i] == '{' || e[i] == '}') :: i > 0 && e[i - 1] == '\\')
            && (forall i | 0 <= i < |e| - 1 :: !(e[i] == '{' && e[i + 1] == '{'))
            && (e != "" ==> e[0] != '{')
  {
    if value != "" {
      EscapedHoldsNoToken(name, value[1..]);
    }
  }

  lemma {:induction false} EscapedEnd(k: CharClass, value: string)
    requires value != ""
    ensures var e := EscapeAll(k, value); e != "" && e[|e| - 1] == value[|value| - 1]
  {
    if value[1..] != "" {
      EscapedEnd(k, value[1..]);
    }
  }

  lemma FirstTwo(e: string, rest: string, j: nat)
    requires j < |e| && "{{" <= e[j..] + rest
    ensures e[j] == '{' && (j + 1 < |e| ==> e[j + 1] == '{') && (j + 1 == |e| ==> e[j..] + rest == "{" + rest)
  {
    var s := e[j..] + rest;
    assert s[0] == e[j] && s[1] == if j + 1 < |e| then e[j + 1] else rest[0];
  }

  lemma BeginsOnlyAtEnd(name: string, value: string, rest: string, j: nat)
    requires j < |EscapeValue(name, value)| && MatchToken(EscapeValue(name, value)[j..] + rest).Some?
    ensures j == |EscapeValue(name, value)| - 1 && value != "" && value[|value| - 1] == '{'
    ensures MatchToken("{" + rest).Some?
  {
    var e := EscapeValue(name, value);
    EscapeValueIsOnePass(name, value);
    EscapedHoldsNoToken(name, value);
    EscapedEnd(MetaOf(name), value);
    FirstTwo(e, rest, j);
    assert e[j..] + rest == [e[j]] + (e[j + 1..] + rest);
  }

  /**
   A token of the output begins inside a value exactly when the value ends in a brace and what
   follows it in the output completes a token with that brace.
   */
  lemma TokenBeginsInValue(name: string, value: string, rest: string)
    ensures (exists j | 0 <= j < |EscapeValue(name, value)| :: MatchToken(EscapeValue(name, value)[j..] + rest).Some?)
            <==> value != "" && value[|value| - 1] == '{' && MatchToken("{" + rest).Some?
  {
    var e := EscapeValue(name, value);
    forall j | 0 <= j < |e| && MatchToken(e[j..] + rest).Some?
      ensures value != "" && value[|value| - 1] == '{' && MatchToken("{" + rest).Some?
    {
      BeginsOnlyAtEnd(name, value, rest, j);
    }
    if value != "" && value[|value| - 1] == '{' && MatchToken("{" + rest).Some? {
      EscapeValueIsOnePass(name, value);
      EscapedEnd(MetaOf(name), value);
      assert e[|e| - 1..] + rest == "{" + rest;
    }
  }

  lemma {:induction false} SpacesSkipped(s: string) returns (spaces: string)
    ensures s == spaces + SkipSpaces(s) && forall c | c in spaces :: IsSpace(c)
  {
    if s != "" && IsSpace(s[0]) {
      spaces := SpacesSkipped(s[1..]);
      spaces := [s[0]] + spaces;
    } else {
      spaces := "";
    }
  }

  /** A token: two braces, name characters and spaces, two braces. */
  lemma TokenShape(s: string) returns (inner: string)
    requires MatchToken(s).Some?
    ensures s == "{{" + inner + "}}" + MatchToken(s).value.1
    ensures forall c | c in inner :: IsNameChar(c) || IsSpace(c)
  {
    var named := TakeName(SkipSpaces(s[2..]));
    var left := SpacesSkipped(s[2..]);
    var right := SpacesSkipped(named.1);
    inner := left + named.0 + right;
    assert SkipSpaces(named.1) == "}}" + MatchToken(s).value.1;
    TokenParts(s, left, named.0, right, MatchToken(s).value.1);
  }

  lemma TokenParts(s: string, left: string, name: string, right: string, rest: string)
    requires "{{" <= s && s[2..] == left + (name + (right + ("}}" + rest)))
    ensures s == "{{" + (left + name + right) + "}}" + rest
  {
    assert s == "{{" + s[2..];
  }

  lemma {:induction false} UnescapedIsValue(k: CharClass, value: string)
    requires '\\' !in EscapeAll(k, value)
    ensures EscapeAll(k, value) == value
  {
    if value != "" {
      var e := EscapeAll(k, value);
      assert e[0] == if In(k, value[0]) then '\\' else value[0];
      assert e[1..] == EscapeAll(k, value[1..]);
      UnescapedIsValue(k, value[1..]);
    }
  }

  /** A brace that no backslash precedes stands outside the stretch in which all braces are escaped. */
  lemma StretchEndsBefore(s: string, n: nat, m: nat, end: nat)
    requires 2 <= n < end < |s| && n <= m <= |s| && s[end] == '}'
    requires forall i | 2 <= i < end :: s[i] != '\\'
    requires forall i | n <= i < m && s[i] == '}' :: s[i - 1] == '\\'
    ensures m <= end
  {
    assert s[end - 1] != '\\';
  }

  lemma GoesAround(before: string, e: string, rest: string, inner: string, after: string)
    requires before + e + rest == "{{" + inner + "}}" + after && |after| < |e + rest| && before != "" && e != ""
    requires forall i | 0 <= i < |inner| :: inner[i] != '\\'
    requires forall i | 0 <= i < |e| && (e[i] == '{' || e[i] == '}') :: i > 0 && e[i - 1] == '\\'
    ensures |before| >= 2 && |before| + |e| <= 2 + |inner| && inner[|before| - 2..|before| - 2 + |e|] == e
    ensures |after| < |rest|
  {
    var s, n, end := before + e + rest, |before|, 2 + |inner|;
    assert |s| == end + 2 + |after| == n + |e| + |rest|;
    assert s[0] == '{' && s[1] == '{' && s[end] == '}' && s[end + 1] == '}' && s[n] == e[0];
    assert n >= 2 && n != end && n != end + 1;
    forall i | 2 <= i < end ensures s[i] != '\\' {
      assert s[i] == inner[i - 2];
    }
    forall i | n <= i < n + |e| && s[i] == '}' ensures s[i - 1] == '\\' {
      assert s[i] == e[i - n] && s[i - 1] == e[i - n - 1];
    }
    StretchEndsBefore(s, n, n + |e|, end);
    forall i | 0 <= i < |e| ensures inner[n - 2 + i] == e[i] {
      assert s[n + i] == e[i] && s[n + i] == inner[n - 2 + i];
    }
  }

  /**
   A token of the output that begins before a value and reaches into it goes all around the
   value, which then holds nothing but name characters and spaces, none of them escaped.
   */
  lemma TokenGoesAroundValue(name: string, value: string, before: string, rest: string)
    requires before != "" && value != "" && MatchToken(before + EscapeValue(name, value) + rest).Some?
    requires |MatchToken(before + EscapeValue(name, value) + rest).value.1| < |EscapeValue(name, value) + rest|
    ensures |MatchToken(before + EscapeValue(name, value) + rest).value.1| < |rest|
    ensures EscapeValue(name, value) == value && forall c | c in value :: IsNameChar(c) || IsSpace(c)
  {
    var e := EscapeValue(name, value);
    EscapeValueIsOnePass(name, value);
    EscapedHoldsNoToken(name, value);
    EscapedEnd(MetaOf(name), value);
    var inner := TokenShape(before + e + rest);
    forall i | 0 <= i < |inner| ensures inner[i] != '\\' {
      assert inner[i] in inner;
    }
    GoesAround(before, e, rest, inner, MatchToken(before + e + rest).value.1);
    forall i | 0 <= i < |e| ensures IsNameChar(e[i]) || IsSpace(e[i]) {
      assert e[i] == inner[|before| - 2 + i];
    }
    UnescapedIsValue(MetaOf(name), value);
  }

  /** The template goes on with a brace of its own, directly or after tokens without a value. */
  predicate GoesOnWithBrace(pieces: seq<Piece>, vars: Vars) {
    pieces != [] && match pieces[0]
                    case Text(c) => c == '{'
                    case Var(name) => ValueOf(vars, name) == "" && GoesOnWithBrace(pieces[1..], vars)
  }

  /** A brace that can complete a token is the template's own: no value supplies it. */
  lemma {:induction false} BraceIsTheTemplates(pieces: seq<Piece>, vars: Vars)
    ensures var rest := Render(pieces, ToMarkdown, vars);
            (rest != "" && rest[0] == '{') <==> GoesOnWithBrace(pieces, vars)
  {
    if pieces != [] && pieces[0].Var? {
      BraceIsTheTemplates(pieces[1..], vars);
      var name := pieces[0].name;
      var value, e := ValueOf(vars, name), EscapeValue(name, ValueOf(vars, name));
      EscapeValueIsOnePass(name, value);
      EscapedHoldsNoToken(name, value);
      if value == "" {
        assert e + Render(pieces[1..], ToMarkdown, vars) == Render(pieces[1..], ToMarkdown, vars);
      } else {
        EscapedEnd(MetaOf(name), value);
      }
    }
  }

  /** So a value that ends in a brace can be the beginning of a token, which the one pass never looks at. */
  lemma BraceBeginsToken()
    ensures SubstituteMarkdown("{{a}}{x}}", map["a" := "{"]) == "\\{{x}}"
    ensures Pieces(SubstituteMarkdown("{{a}}{x}}", map["a" := "{"])) == [Text('\\'), Var("x")]
  {
    BraceRenders();
    BackslashToken();
  }

  lemma BraceRenders()
    ensures SubstituteMarkdown("{{a}}{x}}", map["a" := "{"]) == "\\{{x}}"
  {
    BraceTemplate();
    EscapeOfOne("a", '{');
    RenderValueThenText("a", "{", "{x}}");
    BraceText();
  }

  lemma BraceText()
    ensures ['\\', '{'] + "{x}}" == "\\{{x}}"
  {
  }

  lemma RenderValueThenText(name: string, value: string, text: string)
    ensures Render([Var(name)] + TextOf(text), ToMarkdown, map[name := value]) == EscapeValue(name, value) + text
  {
    RenderText(text, ToMarkdown, map[name := value]);
    assert ([Var(name)] + TextOf(text))[1..] == TextOf(text);
  }

  function TextOf(s: string): seq<Piece> {
    seq(|s|, i requires 0 <= i < |s| => Text(s[i]))
  }

  lemma {:induction false} RenderText(s: string, mode: Mode, vars: Vars)
    ensures Render(TextOf(s), mode, vars) == s
  {
    if s != "" {
      RenderText(s[1..], mode, vars);
      assert TextOf(s)[1..] == TextOf(s[1..]);
    }
  }

  /** A text without two braces in a row is no token anywhere. */
  lemma {:induction false} PlainText(s: string)
    requires forall i | 0 <= i < |s| - 1 :: !(s[i] == '{' && s[i + 1] == '{')
    ensures Pieces(s) == TextOf(s)
  {
    if s != "" {
      PlainText(s[1..]);
      assert TextOf(s) == [Text(s[0])] + TextOf(s[1..]);
    }
  }

  lemma BraceTemplate()
    ensures Pieces("{{a}}{x}}") == [Var("a")] + TextOf("{x}}")
  {
    TokenPiece("{{a}}{x}}", "a", "{x}}");
    PlainText("{x}}");
  }

  ghost predicate SameValues(names: seq<string>, vars: Vars, other: Vars) {
    forall i | 0 <= i < |names| :: ValueOf(vars, names[i]) == ValueOf(other, names[i])
  }

  lemma {:induction false} RenderAgrees(pieces: seq<Piece>, mode: Mode, vars: Vars, other: Vars)
    requires SameValues(VarNames(pieces), vars, other)
    ensures Render(pieces, mode, vars) == Render(pieces, mode, other)
  {
    if pieces != [] {
      var names, rest := VarNames(pieces), VarNames(pieces[1..]);
      var skip := if pieces[0].Var? then 1 else 0;
      forall i | 0 <= i < |rest| ensures ValueOf(vars, rest[i]) == ValueOf(other, rest[i]) {
        assert names[i + skip] == rest[i];
      }
      RenderAgrees(pieces[1..], mode, vars, other);
      assert pieces[0].Var? ==> names[0] == pieces[0].name;
    }
  }

  /** The variables extracted from a template are all that substitution depends on. */
  lemma OnlyExtractedMatter(text: string, vars: Vars, other: Vars)
    requires SameValues(ExtractVariables(text), vars, other)
    ensures SubstituteMarkdown(text, vars) == SubstituteMarkdown(text, other)
    ensures SubstitutePlain(text, vars) == SubstitutePlain(text, other)
  {
    RenderAgrees(Pieces(text), ToMarkdown, vars, other);
    RenderAgrees(Pieces(text), ToPlain, vars, other);
  }
}
