/** What the variable pattern matches, and that substitution replaces exactly that, in its place. */
module MailTokens {
  import opened Strings
  import opened Wrappers
  import opened MailTemplate

  predicate AllSpaces(s: string) {
    forall i | 0 <= i < |s| :: IsSpace(s[i])
  }

  /** Two braces, spaces, a name, spaces, two braces. */
  ghost predicate SpelledToken(token: string, name: string) {
    IsName(name) && exists left, right :: AllSpaces(left) && AllSpaces(right) && TokenOf(left, name, right) == token
  }

  function TokenOf(left: string, name: string, right: string): string {
    "{{" + left + name + right + "}}"
  }

  lemma {:induction false} SpacesThen(spaces: string, after: string)
    requires AllSpaces(spaces) && (after != "" ==> !IsSpace(after[0]))
    ensures SkipSpaces(spaces + after) == after
  {
    if spaces == "" {
      assert spaces + after == after;
    } else {
      SpacesThen(spaces[1..], after);
      assert (spaces + after)[1..] == spaces[1..] + after;
    }
  }

  lemma {:induction false} NameThen(name: string, after: string)
    requires (forall i | 0 <= i < |name| :: IsNameChar(name[i])) && (after != "" ==> !IsNameChar(after[0]))
    ensures TakeName(name + after) == (name, after)
  {
    if name == "" {
      assert name + after == after;
    } else {
      NameThen(name[1..], after);
      HeadAndTail(name, after);
    }
  }

  lemma TokenMatches(left: string, name: string, right: string, rest: string)
    requires IsName(name) && AllSpaces(left) && AllSpaces(right)
    ensures MatchToken(TokenOf(left, name, right) + rest) == Some((name, rest))
  {
    var s, end := TokenOf(left, name, right) + rest, "}}" + rest;
    assert "{{" <= s && s[2..] == left + (name + (right + end));
    SpacesThen(left, name + (right + end));
    NameThen(name, right + end);
    SpacesThen(right, end);
    assert end[2..] == rest;
  }

  lemma MatchIsToken(s: string) returns (token: string)
    requires MatchToken(s).Some?
    ensures s == token + MatchToken(s).value.1 && SpelledToken(token, MatchToken(s).value.0)
  {
    var (name, rest) := MatchToken(s).value;
    var named := TakeName(SkipSpaces(s[2..]));
    var left := SpacesBefore(s[2..]);
    var right := SpacesBefore(named.1);
    assert SkipSpaces(named.1) == "}}" + rest;
    token := TokenOf(left, name, right);
    TokenJoins(s, left, name, right, rest);
  }

  lemma SpacesBefore(s: string) returns (spaces: string)
    ensures s == spaces + SkipSpaces(s) && AllSpaces(spaces)
  {
    spaces := SpacesSkipped(s);
    assert forall i | 0 <= i < |spaces| :: spaces[i] in spaces;
  }

  lemma TokenJoins(s: string, left: string, name: string, right: string, rest: string)
    requires "{{" <= s && s[2..] == left + (name + (right + ("}}" + rest)))
    ensures s == TokenOf(left, name, right) + rest
  {
    assert s == "{{" + s[2..];
  }

  /** The matcher finds a token at the start of a text exactly when one is spelled there, and only one is. */
  lemma MatchesExactly(s: string, name: string, rest: string)
    ensures MatchToken(s) == Some((name, rest)) <==> exists token :: SpelledToken(token, name) && s == token + rest
  {
    if MatchToken(s) == Some((name, rest)) {
      var token := MatchIsToken(s);
    }
    if token :| SpelledToken(token, name) && s == token + rest {
      var left, right :| AllSpaces(left) && AllSpaces(right) && TokenOf(left, name, right) == token;
      TokenMatches(left, name, right, rest);
    }
  }

  /** No token begins in the first `n` characters of the text. */
  ghost predicate NoTokenBefore(s: string, n: nat)
    requires n <= |s|
  {
    forall i | 0 <= i < n :: MatchToken(s[i..]).None?
  }

  lemma TextFirst(s: string, mode: Mode, vars: Vars)
    requires s != "" && MatchToken(s).None?
    ensures Render(Pieces(s), mode, vars) == [s[0]] + Render(Pieces(s[1..]), mode, vars)
  {
    var pieces := [Text(s[0])] + Pieces(s[1..]);
    assert Pieces(s) == pieces && pieces[1..] == Pieces(s[1..]);
  }

  lemma {:induction false} RenderedBefore(before: string, after: string, mode: Mode, vars: Vars)
    requires NoTokenBefore(before + after, |before|)
    ensures Render(Pieces(before + after), mode, vars) == before + Render(Pieces(after), mode, vars)
  {
    var s := before + after;
    if before == "" {
      assert s == after;
    } else {
      assert s[0..] == s;
      HeadAndTail(before, after);
      forall i | 0 <= i < |before| - 1 ensures MatchToken(s[1..][i..]).None? {
        assert s[1..][i..] == s[i + 1..];
      }
      RenderedBefore(before[1..], after, mode, vars);
      TextFirst(s, mode, vars);
      Assoc([before[0]], before[1..], Render(Pieces(after), mode, vars));
    }
  }

  /**
   Substitution leaves what stands before the first token as it is, puts the variable's value in
   the token's place, and goes on behind it; a variable without a value leaves nothing.
   */
  lemma SubstitutesInPlace(before: string, token: string, name: string, rest: string, vars: Vars)
    requires SpelledToken(token, name) && NoTokenBefore(before + (token + rest), |before|)
    ensures SubstitutePlain(before + (token + rest), vars) ==
            before + ((if name in vars then vars[name] else "") + SubstitutePlain(rest, vars))
    ensures SubstituteMarkdown(before + (token + rest), vars) ==
            before + (EscapeAll(if name == "link" then Markdown else Either, if name in vars then vars[name] else "") +
                      SubstituteMarkdown(rest, vars))
  {
    MatchesExactly(token + rest, name, rest);
    assert Pieces(token + rest) == [Var(name)] + Pieces(rest);
    RenderedBefore(before, token + rest, ToPlain, vars);
    RenderedBefore(before, token + rest, ToMarkdown, vars);
    EscapeValueIsOnePass(name, ValueOf(vars, name));
  }

  lemma TextStays(text: string, vars: Vars)
    requires NoTokenBefore(text, |text|)
    ensures SubstitutePlain(text, vars) == text && SubstituteMarkdown(text, vars) == text
  {
    assert text + "" == text;
    RenderedBefore(text, "", ToPlain, vars);
    RenderedBefore(text, "", ToMarkdown, vars);
  }
}
