/** The two rule lists of the watcher and the two tests that apply them:
    "some pattern occurs in this text, ignoring case" and "this path ends
    with some sensitive suffix". */
module Rules {
  import opened Text

  /** Patterns searched for in commit messages and patches by default. */
  const DefaultPatterns: seq<string> := ["password", "secret", "api_key", "client_secret", "token"]

  /** File-name suffixes that mark a changed file as sensitive. */
  const SensitiveFiles: seq<string> := [".env", ".pem", ".key", ".crt", ".pfx"]

  /** Characters that carry meaning in a Python regular expression. */
  predicate IsRegexMeta(c: char)
  {
    c == '.' || c == '^' || c == '$' || c == '*' || c == '+' || c == '?' || c == '{' || c == '}'
    || c == '[' || c == ']' || c == '\\' || c == '|' || c == '(' || c == ')'
  }

  /** A pattern that `re.search` treats as a plain string. */
  predicate IsLiteral(p: string)
  {
    forall i :: 0 <= i < |p| ==> !IsRegexMeta(p[i])
  }

  /** Lower-case letters and underscores only. */
  predicate IsPlainWord(p: string)
  {
    forall i :: 0 <= i < |p| ==> IsLower(p[i]) || p[i] == '_'
  }

  /** A plain word is searched for as written: it is literal and its own lower-case form. */
  lemma PlainWordIsLiteral(p: string)
    requires IsPlainWord(p)
    ensures IsLiteral(p) && Lower(p) == p
  {
    LowerOfLowercase(p);
  }

  /** The default patterns are non-empty plain words, so on ASCII text literal
      case-insensitive substring search is what `re.search(pattern, text,
      re.IGNORECASE)` does with them. Python's folding also lets a few non-ASCII
      letters match ASCII ones (U+017F long s matches `s`, the Kelvin sign
      U+212A matches `k`), which ASCII lower-casing does not. */
  lemma DefaultPatternsAreLiteral()
    ensures forall p :: p in DefaultPatterns ==> p != "" && IsLiteral(p) && Lower(p) == p
  {
    assert IsPlainWord("password");
    assert IsPlainWord("secret");
    assert IsPlainWord("api_key");
    assert IsPlainWord("client_secret");
    assert IsPlainWord("token");
    forall p | p in DefaultPatterns
      ensures p != "" && IsLiteral(p) && Lower(p) == p
    {
      PlainWordIsLiteral(p);
    }
  }

  /** Some pattern, tried in list order, occurs in `text` ignoring case. */
  function MatchesAny(patterns: seq<string>, text: string): (b: bool)
    ensures b <==> exists p :: p in patterns && ContainsIgnoreCase(text, p)
  {
    if patterns == [] then false
    else ContainsIgnoreCase(text, patterns[0]) || MatchesAny(patterns[1..], text)
  }

  /** `name` ends with one of `suffixes`, compared case-sensitively. */
  function EndsWithAny(name: string, suffixes: seq<string>): (b: bool)
    ensures b <==> exists s :: s in suffixes && EndsWith(name, s)
  {
    if suffixes == [] then false
    else EndsWith(name, suffixes[0]) || EndsWithAny(name, suffixes[1..])
  }

  /** Only the set of patterns matters, not their order or repetition. */
  lemma MatchesAnySameSet(ps: seq<string>, qs: seq<string>, text: string)
    requires forall p :: p in ps <==> p in qs
    ensures MatchesAny(ps, text) == MatchesAny(qs, text)
  {
  }

  /** Lower- or upper-casing the searched text does not change the verdict. */
  lemma MatchesAnyIgnoresCase(patterns: seq<string>, text: string)
    ensures MatchesAny(patterns, Lower(text)) == MatchesAny(patterns, text)
    ensures MatchesAny(patterns, Upper(text)) == MatchesAny(patterns, text)
  {
    forall p | p in patterns
      ensures ContainsIgnoreCase(Lower(text), p) == ContainsIgnoreCase(text, p)
      ensures ContainsIgnoreCase(Upper(text), p) == ContainsIgnoreCase(text, p)
    {
      IgnoreCaseOfText(text, p);
    }
  }

  /** A pattern list in which every pattern contains some pattern of `qs`
      never matches where `qs` does not. */
  lemma MatchesAnySubsumed(ps: seq<string>, qs: seq<string>, text: string)
    requires forall p :: p in ps ==> exists q :: q in qs && ContainsIgnoreCase(p, q)
    ensures MatchesAny(ps, text) ==> MatchesAny(qs, text)
  {
    if MatchesAny(ps, text) {
      var p :| p in ps && ContainsIgnoreCase(text, p);
      var q :| q in qs && ContainsIgnoreCase(p, q);
      ContainsIgnoreCaseTransitive(text, p, q);
    }
  }

  /** The default patterns without "client_secret", which contains "secret". */
  const ReducedPatterns: seq<string> := ["password", "secret", "api_key", "token"]

  /** "client_secret" is redundant among the defaults: dropping it never
      changes whether a text is flagged. */
  lemma ClientSecretIsRedundant(text: string)
    ensures MatchesAny(DefaultPatterns, text) == MatchesAny(ReducedPatterns, text)
  {
    DefaultPatternsAreLiteral();
    assert OccursAt(Lower("client_secret"), Lower("secret"), 7);
    ContainsMeansOccurs(Lower("client_secret"), Lower("secret"));
    forall p | p in DefaultPatterns
      ensures exists q :: q in ReducedPatterns && ContainsIgnoreCase(p, q)
    {
      if p == "client_secret" {
        assert "secret" in ReducedPatterns;
      } else {
        LowerIdempotent(p);
        assert OccursAt(Lower(p), Lower(p), 0);
        ContainsMeansOccurs(Lower(p), Lower(p));
        assert p in ReducedPatterns;
      }
    }
    MatchesAnySubsumed(DefaultPatterns, ReducedPatterns, text);
  }
}
