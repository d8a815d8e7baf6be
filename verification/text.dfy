/** Text primitives the classifier is built from: ASCII case mapping, the
    leftmost-occurrence search that a literal pattern under `re.search` with
    `re.IGNORECASE` performs, and Python's `str.endswith`. */
module Text {
  import opened Wrappers

  /* ---------- ASCII case mapping ---------- */

  predicate IsUpper(c: char) { 'A' <= c <= 'Z' }

  predicate IsLower(c: char) { 'a' <= c <= 'z' }

  function LowerChar(c: char): (d: char)
    ensures !IsUpper(d)
    ensures !IsUpper(c) ==> d == c
    ensures IsUpper(c) ==> IsLower(d) && d as int == c as int + 32
  {
    if IsUpper(c) then (c as int + 32) as char else c
  }

  function UpperChar(c: char): (d: char)
    ensures !IsLower(d)
    ensures !IsLower(c) ==> d == c
    ensures IsLower(c) ==> IsUpper(d) && d as int + 32 == c as int
  {
    if IsLower(c) then (c as int - 32) as char else c
  }

  /** ASCII lower-casing; every other character is left as it is. */
  function Lower(s: string): (r: string)
    ensures |r| == |s|
    ensures forall i :: 0 <= i < |s| ==> r[i] == LowerChar(s[i])
  {
    seq(|s|, i requires 0 <= i < |s| => LowerChar(s[i]))
  }

  /** ASCII upper-casing; every other character is left as it is. */
  function Upper(s: string): (r: string)
    ensures |r| == |s|
    ensures forall i :: 0 <= i < |s| ==> r[i] == UpperChar(s[i])
  {
    seq(|s|, i requires 0 <= i < |s| => UpperChar(s[i]))
  }

  lemma LowerIdempotent(s: string)
    ensures Lower(Lower(s)) == Lower(s)
  {
  }

  lemma LowerOfUpper(s: string)
    ensures Lower(Upper(s)) == Lower(s)
  {
    forall i | 0 <= i < |s|
      ensures Lower(Upper(s))[i] == Lower(s)[i]
    {
      if IsLower(s[i]) {
        assert LowerChar(UpperChar(s[i])) as int == s[i] as int;
      }
    }
  }

  /** A string with no upper-case ASCII letter is its own lower-case form. */
  lemma LowerOfLowercase(s: string)
    requires forall i :: 0 <= i < |s| ==> !IsUpper(s[i])
    ensures Lower(s) == s
  {
  }

  /* ---------- substring search ---------- */

  /** `p` occurs in `t` starting at position `i`. */
  predicate OccursAt(t: string, p: string, i: nat)
  {
    i + |p| <= |t| && t[i..i + |p|] == p
  }

  /** The leftmost occurrence of `p` in `t` at or after position `from`:
      what `re.search` reports for a pattern without metacharacters. */
  function IndexFrom(t: string, p: string, from: nat): (r: Option<nat>)
    decreases |t| - from
    ensures r.Some? ==> from <= r.value && OccursAt(t, p, r.value)
    ensures r.Some? ==> forall k :: from <= k < r.value ==> !OccursAt(t, p, k)
    ensures r.None? ==> forall k :: from <= k ==> !OccursAt(t, p, k)
  {
    if from + |p| > |t| then None
    else if t[from..from + |p|] == p then Some(from)
    else IndexFrom(t, p, from + 1)
  }

  /** Case-sensitive substring test: some position of `t` starts an occurrence of `p`. */
  predicate Contains(t: string, p: string)
  {
    IndexFrom(t, p, 0).Some?
  }

  lemma ContainsMeansOccurs(t: string, p: string)
    ensures Contains(t, p) <==> exists k: nat :: OccursAt(t, p, k)
  {
    if Contains(t, p) {
      assert OccursAt(t, p, IndexFrom(t, p, 0).value);
    }
  }

  /** A literal pattern searched with `re.IGNORECASE`, restricted to ASCII case folding. */
  predicate ContainsIgnoreCase(t: string, p: string)
  {
    Contains(Lower(t), Lower(p))
  }

  /** An occurrence of `q` inside an occurrence of `p` is an occurrence of `q`
      in the enclosing text. */
  lemma ContainsTransitive(t: string, p: string, q: string)
    requires Contains(t, p) && Contains(p, q)
    ensures Contains(t, q)
  {
    ContainsMeansOccurs(t, p);
    ContainsMeansOccurs(p, q);
    var k: nat :| OccursAt(t, p, k);
    var j: nat :| OccursAt(p, q, j);
    assert t[k + j..k + j + |q|] == q by {
      forall m | 0 <= m < |q|
        ensures t[k + j + m] == q[m]
      {
        assert t[k..k + |p|][j + m] == p[j + m];
      }
    }
    assert OccursAt(t, q, k + j);
    ContainsMeansOccurs(t, q);
  }

  lemma ContainsIgnoreCaseTransitive(t: string, p: string, q: string)
    requires ContainsIgnoreCase(t, p) && ContainsIgnoreCase(p, q)
    ensures ContainsIgnoreCase(t, q)
  {
    ContainsTransitive(Lower(t), Lower(p), Lower(q));
  }

  /** Only the empty pattern occurs in the empty text; the empty pattern
      occurs everywhere (as `re.search('', s)` matches every `s`). */
  lemma ContainsInEmpty(t: string, p: string)
    ensures ContainsIgnoreCase("", p) <==> p == ""
    ensures ContainsIgnoreCase(t, "")
  {
    ContainsMeansOccurs(Lower(""), Lower(p));
    if p == "" {
      assert OccursAt(Lower(""), Lower(p), 0);
    }
    assert OccursAt(Lower(t), Lower(""), 0);
    ContainsMeansOccurs(Lower(t), Lower(""));
  }

  /** Changing the case of the searched text never changes a case-insensitive match. */
  lemma IgnoreCaseOfText(t: string, p: string)
    ensures ContainsIgnoreCase(Lower(t), p) == ContainsIgnoreCase(t, p)
    ensures ContainsIgnoreCase(Upper(t), p) == ContainsIgnoreCase(t, p)
  {
    LowerIdempotent(t);
    LowerOfUpper(t);
  }

  /** Changing the case of the pattern never changes a case-insensitive match. */
  lemma IgnoreCaseOfPattern(t: string, p: string)
    ensures ContainsIgnoreCase(t, Lower(p)) == ContainsIgnoreCase(t, p)
    ensures ContainsIgnoreCase(t, Upper(p)) == ContainsIgnoreCase(t, p)
  {
    LowerIdempotent(p);
    LowerOfUpper(p);
  }

  /* ---------- suffix test ---------- */

  /** Python's `s.endswith(suffix)`: case-sensitive, and true for the empty suffix. */
  predicate EndsWith(s: string, suffix: string)
  {
    |suffix| <= |s| && s[|s| - |suffix|..] == suffix
  }

  lemma EndsWithCharacterised(s: string, suffix: string)
    ensures EndsWith(s, suffix) <==>
      |suffix| <= |s| && forall k :: 0 <= k < |suffix| ==> s[|s| - |suffix| + k] == suffix[k]
  {
    if |suffix| <= |s| && forall k :: 0 <= k < |suffix| ==> s[|s| - |suffix| + k] == suffix[k] {
      assert s[|s| - |suffix|..] == suffix;
    }
  }

  /** A suffix of a file name is a suffix of any path that ends with that name. */
  lemma EndsWithUnderDirectory(dir: string, name: string, suffix: string)
    requires EndsWith(name, suffix)
    ensures EndsWith(dir + name, suffix)
  {
    var path := dir + name;
    assert path[|dir|..] == name;
    assert path[|path| - |suffix|..] == path[|dir|..][|name| - |suffix|..];
  }
}
