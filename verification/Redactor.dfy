/** URL redaction in logs and statuses (app/logging.py). */
module Redactor {
  import opened Text

  const MARK := "[redacted-url]"

  /** A character that ends a URL: white space, a quote or an angle bracket. */
  predicate Delimiter(c: char) {
    IsSpace(c) || c == '\'' || c == '"' || c == '>' || c == '<'
  }

  /** The length of the scheme `s` starts with: "http://", "https://" or none. */
  function SchemeLength(s: string): nat {
    if "http://" <= s then 7 else if "https://" <= s then 8 else 0
  }

  /** The pattern matches at the start of `s`: a scheme and at least one more URL character. */
  predicate MatchesHere(s: string) {
    SchemeLength(s) > 0 && SchemeLength(s) < |s| && !Delimiter(s[SchemeLength(s)])
  }

  /** What is left after the longest run of URL characters. */
  function AfterToken(s: string): string {
    if s != "" && !Delimiter(s[0]) then AfterToken(s[1..]) else s
  }

  lemma {:induction false} AfterTokenShorter(s: string)
    ensures |AfterToken(s)| <= |s| && AfterToken(s) == s[|s| - |AfterToken(s)|..]
    ensures s != "" && !Delimiter(s[0]) ==> |AfterToken(s)| < |s|
  {
    if s != "" && !Delimiter(s[0]) { AfterTokenShorter(s[1..]); }
  }

  /** The leftmost-greedy substitution. */
  function Sanitize(s: string): string
    decreases |s|
  {
    if s == "" then ""
    else if MatchesHere(s) then
      AfterTokenShorter(s[SchemeLength(s)..]);
      MARK + Sanitize(AfterToken(s[SchemeLength(s)..]))
    else [s[0]] + Sanitize(s[1..])
  }

  /** No suffix of `s` starts with a match: the pattern occurs nowhere in `s`. */
  ghost predicate Clean(s: string) {
    forall i :: 0 <= i <= |s| ==> !MatchesHere(s[i..])
  }

  lemma CleanCons(c: char, s: string)
    requires Clean(s) && !MatchesHere([c] + s)
    ensures Clean([c] + s)
  {
    forall i | 0 <= i <= |[c] + s| ensures !MatchesHere(([c] + s)[i..]) {
      if i > 0 { assert ([c] + s)[i..] == s[i - 1..]; } else { assert ([c] + s)[0..] == [c] + s; }
    }
  }

  lemma CleanTail(s: string)
    requires Clean(s) && s != ""
    ensures Clean(s[1..])
  {
    forall i | 0 <= i <= |s[1..]| ensures !MatchesHere(s[1..][i..]) {
      assert s[1..][i..] == s[i + 1..];
    }
  }

  /** A first output character other than the mark's bracket is the input's own first character. */
  lemma FirstCharacter(s: string)
    requires Sanitize(s) != ""
    ensures s != ""
    ensures Sanitize(s)[0] != '[' ==> Sanitize(s)[0] == s[0] && Sanitize(s)[1..] == Sanitize(s[1..])
    ensures !Delimiter(Sanitize(s)[0]) ==> !Delimiter(s[0])
  {
    if MatchesHere(s) {
      assert s[0] == 'h';
      assert Sanitize(s)[0] == MARK[0];
    }
  }

  /** Output that begins with bracket-free text `w` and one more URL character comes from input
      that begins the same way. */
  lemma {:induction false} PrefixComesThrough(s: string, w: string)
    requires w <= Sanitize(s) && '[' !in w && |w| < |Sanitize(s)| && !Delimiter(Sanitize(s)[|w|])
    ensures w <= s && |w| < |s| && !Delimiter(s[|w|])
  {
    FirstCharacter(s);
    if w != "" {
      assert w[0] in w;
      assert Sanitize(s[1..]) == Sanitize(s)[1..];
      PrefixComesThrough(s[1..], w[1..]);
    }
  }

  lemma MarkHasNoH(k: nat)
    requires k < |MARK|
    ensures MARK[k] != 'h'
  {
    assert MARK[0] == '[' && MARK[1] == 'r' && MARK[2] == 'e' && MARK[3] == 'd' && MARK[4] == 'a' && MARK[5] == 'c'
        && MARK[6] == 't' && MARK[7] == 'e' && MARK[8] == 'd' && MARK[9] == '-' && MARK[10] == 'u' && MARK[11] == 'r'
        && MARK[12] == 'l' && MARK[13] == ']';
  }

  lemma NoMatchWithoutH(c: char, s: string)
    requires c != 'h'
    ensures !MatchesHere([c] + s)
  {
    assert ([c] + s)[0] == c && "http://"[0] == 'h' && "https://"[0] == 'h';
  }

  lemma {:induction false} MarkThenClean(k: nat, rest: string)
    requires k <= |MARK| && Clean(rest)
    ensures Clean(MARK[k..] + rest)
    decreases |MARK| - k
  {
    if k == |MARK| {
      assert MARK[k..] + rest == rest;
    } else {
      MarkThenClean(k + 1, rest);
      assert MARK[k..] + rest == [MARK[k]] + (MARK[k + 1..] + rest);
      MarkHasNoH(k);
      NoMatchWithoutH(MARK[k], MARK[k + 1..] + rest);
      CleanCons(MARK[k], MARK[k + 1..] + rest);
    }
  }

  /** `s` starts with `scheme` and one more URL character. */
  ghost predicate StartsUrl(scheme: string, s: string) {
    scheme <= s && |scheme| < |s| && !Delimiter(s[|scheme|])
  }

  lemma MatchIsStart(s: string)
    ensures MatchesHere(s) <==> StartsUrl("http://", s) || StartsUrl("https://", s)
  {
    assert "http://"[4] == ':' && "https://"[4] == 's';
  }

  lemma StartComesThrough(scheme: string, c: char, rest: string)
    requires scheme != "" && '[' !in scheme && StartsUrl(scheme, [c] + Sanitize(rest))
    ensures StartsUrl(scheme, [c] + rest)
  {
    assert scheme == [scheme[0]] + scheme[1..];
    assert scheme[1..] <= ([c] + Sanitize(rest))[1..] == Sanitize(rest);
    PrefixComesThrough(rest, scheme[1..]);
    assert ([c] + rest)[..|scheme|] == [c] + rest[..|scheme| - 1];
  }

  /** A match at the start of the output was a match at the start of the input. */
  lemma MatchComesThrough(c: char, rest: string)
    requires MatchesHere([c] + Sanitize(rest))
    ensures MatchesHere([c] + rest)
  {
    MatchIsStart([c] + Sanitize(rest));
    MatchIsStart([c] + rest);
    if StartsUrl("http://", [c] + Sanitize(rest)) {
      StartComesThrough("http://", c, rest);
    } else {
      StartComesThrough("https://", c, rest);
    }
  }

  /** No URL is left anywhere in the output, not even one put together across a replacement. */
  lemma {:induction false} SanitizeLeavesNoUrl(s: string)
    ensures Clean(Sanitize(s))
    decreases |s|
  {
    if s == "" {
    } else if MatchesHere(s) {
      var rest := AfterToken(s[SchemeLength(s)..]);
      AfterTokenShorter(s[SchemeLength(s)..]);
      SanitizeLeavesNoUrl(rest);
      assert MARK[0..] == MARK;
      MarkThenClean(0, Sanitize(rest));
    } else {
      SanitizeLeavesNoUrl(s[1..]);
      assert s == [s[0]] + s[1..];
      if MatchesHere([s[0]] + Sanitize(s[1..])) { MatchComesThrough(s[0], s[1..]); }
      CleanCons(s[0], Sanitize(s[1..]));
    }
  }

  lemma {:induction false} CleanIsFixed(s: string)
    requires Clean(s)
    ensures Sanitize(s) == s
  {
    if s != "" {
      assert s[0..] == s;
      CleanTail(s);
      CleanIsFixed(s[1..]);
    }
  }

  /** Sanitizing twice is sanitizing once. */
  lemma SanitizeIdempotent(s: string)
    ensures Sanitize(Sanitize(s)) == Sanitize(s)
  {
    SanitizeLeavesNoUrl(s);
    CleanIsFixed(Sanitize(s));
  }

  /** No match starts inside `text` when `tail` follows it. */
  ghost predicate Quiet(text: string, tail: string) {
    text == "" || (!MatchesHere(text + tail) && Quiet(text[1..], tail))
  }

  /** Text in which no match starts comes through unchanged. */
  lemma {:induction false} SanitizePrefix(text: string, tail: string)
    requires Quiet(text, tail)
    ensures Sanitize(text + tail) == text + Sanitize(tail)
  {
    if text == "" {
      assert text + tail == tail;
    } else {
      assert text + tail == [text[0]] + (text[1..] + tail);
      SanitizePrefix(text[1..], tail);
      SanitizeStep(text[0], text[1..] + tail);
      assert [text[0]] + (text[1..] + Sanitize(tail)) == text + Sanitize(tail);
    }
  }

  lemma SanitizeStep(c: char, s: string)
    requires !MatchesHere([c] + s)
    ensures Sanitize([c] + s) == [c] + Sanitize(s)
  {
    assert ([c] + s)[1..] == s;
  }

  /** A whole URL: a scheme and a non-empty run of URL characters. */
  ghost predicate IsUrl(scheme: string, token: string) {
    (scheme == "http://" || scheme == "https://") && token != "" && forall c :: c in token ==> !Delimiter(c)
  }

  lemma {:induction false} TokenEnds(token: string, rest: string)
    requires forall c :: c in token ==> !Delimiter(c)
    requires rest != "" ==> Delimiter(rest[0])
    ensures AfterToken(token + rest) == rest
  {
    if token != "" {
      assert (token + rest)[1..] == token[1..] + rest;
      assert token[0] in token;
      TokenEnds(token[1..], rest);
    } else {
      assert token + rest == rest;
    }
  }

  lemma UrlStarts(scheme: string, token: string, rest: string)
    requires IsUrl(scheme, token)
    ensures MatchesHere(scheme + (token + rest)) && SchemeLength(scheme + (token + rest)) == |scheme|
  {
    var s := scheme + (token + rest);
    assert s[|scheme|] == token[0] && token[0] in token;
    assert scheme <= s;
    MatchIsStart(s);
    if scheme == "https://" { assert s[4] == 's' && "http://"[4] == ':'; }
  }

  /** Exactly the URLs go: text in which no match starts, then a whole URL, then nothing or a
      delimiter and more, comes out as that text, the mark, and the rest sanitized. */
  lemma SanitizeReplacesUrl(text: string, scheme: string, token: string, rest: string)
    requires IsUrl(scheme, token) && (rest != "" ==> Delimiter(rest[0]))
    requires Quiet(text, scheme + (token + rest))
    ensures Sanitize(text + (scheme + (token + rest))) == text + (MARK + Sanitize(rest))
  {
    var s := scheme + (token + rest);
    SanitizePrefix(text, s);
    UrlStarts(scheme, token, rest);
    assert s[|scheme|..] == token + rest;
    TokenEnds(token, rest);
  }
}
