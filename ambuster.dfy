/**
 * The selector validator: a selector containing `&` is "evil" unless one of twelve permitted
 * two-character patterns around an `&` occurs somewhere in it.
 */
module Ambuster {
  import opened Wrappers
  import opened Expression

  /** The alternatives of the validator's pattern, each a literal two-character string. */
  const ALLOWED_PAIRS: seq<string> :=
    ["& ", "&\t", "&.", "&:", "&#", "&+", "+&", "&>", ">&", "&~", "~&", "&["]

  /** The same twelve pairs, character by character. */
  predicate PairAllowed(a: char, b: char) {
    (a == '&' && b in " \t.:#+>~[") || (b == '&' && a in "+>~")
  }

  /** The character-level reading lists exactly the pattern's twelve alternatives. */
  lemma PairAllowedExactly(a: char, b: char)
    ensures PairAllowed(a, b) <==> [a, b] in ALLOWED_PAIRS
  {
  }

  /** A permitted pair starts at index `i` of `s`. */
  predicate AllowedAt(s: string, i: nat)
    requires i + 2 <= |s|
  {
    PairAllowed(s[i], s[i + 1])
  }

  /** Some index of `s` starts a permitted pair: what it means for the pattern to match. */
  predicate HasAllowedPair(s: string) {
    exists i: nat :: i + 2 <= |s| && AllowedAt(s, i)
  }

  /** The leftmost permitted pair at or after `from`, as the pattern search finds it. */
  function FindAllowedPair(s: string, from: nat): (r: Option<nat>)
    decreases |s| - from
    ensures r.Some? ==> from <= r.value && r.value + 2 <= |s| && AllowedAt(s, r.value)
    ensures r.Some? ==> forall j: nat :: from <= j < r.value ==> !AllowedAt(s, j)
    ensures r.None? ==> forall j: nat :: from <= j && j + 2 <= |s| ==> !AllowedAt(s, j)
  {
    if from + 2 > |s| then None
    else if AllowedAt(s, from) then Some(from)
    else FindAllowedPair(s, from + 1)
  }

  /** `has_evil_amp`: the string holds an `&` and no permitted pair occurs anywhere in it. */
  function HasEvilAmp(s: string): (r: bool)
    ensures '&' !in s ==> !r
    ensures r <==> '&' in s && !HasAllowedPair(s)
  {
    if '&' !in s then false
    else
      match FindAllowedPair(s, 0)
      case Some(_) => false
      case None => true
  }

  /** `Scope::has_amp`, which the source leaves as a stub. */
  function ScopeHasAmp(scope: Scope): (r: bool)
    ensures r == false
  {
    false
  }

  /** One permitted pair anywhere clears the whole string, whatever surrounds it. */
  lemma AllowedPairClears(before: string, pair: string, after: string)
    requires pair in ALLOWED_PAIRS
    ensures !HasEvilAmp(before + pair + after)
  {
    var s := before + pair + after;
    assert s[|before|] == pair[0] && s[|before| + 1] == pair[1];
    PairAllowedExactly(pair[0], pair[1]);
    assert [pair[0], pair[1]] == pair;
    assert AllowedAt(s, |before|);
  }

  /**
   * Only `+&`, `>&` and `~&` permit a character before `&`: an `&` that ends the string, follows
   * `.`, `:`, `#` or a space and is the only `&` is evil.
   */
  lemma LoneTrailingAmpIsEvil(before: string, c: char)
    requires '&' !in before
    requires c in ".:# "
    ensures HasEvilAmp(before + [c, '&'])
  {
    var s := before + [c, '&'];
    assert s[|s| - 1] == '&';
    forall i: nat | i + 2 <= |s|
      ensures !AllowedAt(s, i)
    {
      if i + 2 <= |before| {
        assert s[i] == before[i] && s[i + 1] == before[i + 1];
        assert s[i] in before && s[i + 1] in before;
      } else if i + 1 == |before| {
        assert s[i] == before[i] && s[i + 1] == c;
        assert before[i] in before;
      } else {
        assert s[i] == c && s[i + 1] == '&';
      }
    }
  }

  /** The source's test cases that are not evil. */
  lemma NotEvilExamples()
    ensures !HasEvilAmp(".a")
    ensures !HasEvilAmp("& a a &")
    ensures !HasEvilAmp("&#a #a&")
    ensures !HasEvilAmp("&.a .a&")
    ensures !HasEvilAmp("&:a a:&")
    ensures !HasEvilAmp("&+a a+&")
    ensures !HasEvilAmp("&>a a>&")
    ensures !HasEvilAmp("&~a a~&")
    ensures !HasEvilAmp("&[a")
  {
    assert AllowedAt("& a a &", 0);
    assert AllowedAt("&#a #a&", 0);
    assert AllowedAt("&.a .a&", 0);
    assert AllowedAt("&:a a:&", 0);
    assert AllowedAt("&+a a+&", 0);
    assert AllowedAt("&>a a>&", 0);
    assert AllowedAt("&~a a~&", 0);
    assert AllowedAt("&[a", 0);
  }

  /** The source's test cases that are evil. */
  lemma EvilExamples()
    ensures HasEvilAmp("&a") && HasEvilAmp("&-a") && HasEvilAmp("&_a")
    ensures HasEvilAmp("a&") && HasEvilAmp("a-&") && HasEvilAmp("a_&")
  {
    assert FindAllowedPair("&a", 0) == None;
    assert FindAllowedPair("&-a", 0) == None;
    assert FindAllowedPair("&_a", 0) == None;
    assert FindAllowedPair("a&", 0) == None;
    assert FindAllowedPair("a-&", 0) == None;
    assert FindAllowedPair("a_&", 0) == None;
  }

  /**
   * A stricter rule one might expect: `&` directly next to an identifier character (letter, digit,
   * `_`, `-`). The code does not implement this rule; see `PatternRuleDiffersFromIdentifierRule`.
   */
  predicate IsIdentifierChar(c: char) {
    ('a' <= c <= 'z') || ('A' <= c <= 'Z') || ('0' <= c <= '9') || c == '_' || c == '-'
  }

  predicate IdentifierAdjacentAmp(s: string) {
    exists i: nat :: i + 1 < |s| && ((s[i] == '&' && IsIdentifierChar(s[i + 1])) || (IsIdentifierChar(s[i]) && s[i + 1] == '&'))
  }

  /** The pattern rule and the identifier rule disagree in both directions. */
  lemma PatternRuleDiffersFromIdentifierRule()
    ensures IdentifierAdjacentAmp("a&.b") && !HasEvilAmp("a&.b")
    ensures !IdentifierAdjacentAmp(".&") && HasEvilAmp(".&")
  {
    assert "a&.b"[0] == 'a' && "a&.b"[1] == '&';
    AllowedPairClears("a", "&.", "b");
    LoneTrailingAmpIsEvil("", '.');
  }
}
