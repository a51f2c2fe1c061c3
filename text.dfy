/** Character classes and string trimming shared by the lexer and the parser. */
module Text {

  /** Rust's `char::is_whitespace`: the characters with the Unicode White_Space property. */
  predicate IsWhitespace(c: char) {
    ('\t' <= c <= '\r') || c == ' ' || c == '\U{0085}' || c == '\U{00A0}' || c == '\U{1680}'
    || ('\U{2000}' <= c <= '\U{200A}') || c == '\U{2028}' || c == '\U{2029}'
    || c == '\U{202F}' || c == '\U{205F}' || c == '\U{3000}'
  }

  /** Neither empty nor starting or ending with whitespace. */
  predicate Clean(s: string) {
    |s| > 0 && !IsWhitespace(s[0]) && !IsWhitespace(s[|s| - 1])
  }

  /** The first position at or after `p` that does not hold whitespace (`p` itself past the end). */
  function SkipWhitespace(s: string, p: nat): (k: nat)
    decreases |s| - p
    ensures p <= k
    ensures p <= |s| ==> k <= |s|
    ensures p > |s| ==> k == p
    ensures forall j :: p <= j < k ==> j < |s| && IsWhitespace(s[j])
    ensures k < |s| ==> !IsWhitespace(s[k])
  {
    if p < |s| && IsWhitespace(s[p]) then SkipWhitespace(s, p + 1) else p
  }

  /** The position just after the last non-whitespace character before `k` (0 when there is none). */
  function SkipWhitespaceBack(s: string, k: nat): (j: nat)
    requires k <= |s|
    ensures j <= k
    ensures forall m :: j <= m < k ==> IsWhitespace(s[m])
    ensures j > 0 ==> !IsWhitespace(s[j - 1])
  {
    if k > 0 && IsWhitespace(s[k - 1]) then SkipWhitespaceBack(s, k - 1) else k
  }

  /** Empty, or neither starting nor ending with whitespace: what `Trim` produces. */
  predicate Trimmed(s: string) {
    s == [] || (!IsWhitespace(s[0]) && !IsWhitespace(s[|s| - 1]))
  }

  /** Removes leading whitespace. */
  function TrimStart(s: string): string {
    s[SkipWhitespace(s, 0)..]
  }

  /** Removes trailing whitespace. */
  function TrimEnd(s: string): string {
    s[..SkipWhitespaceBack(s, |s|)]
  }

  /** Rust's `str::trim`: the text between the leading and the trailing whitespace. */
  function Trim(s: string): (r: string)
    ensures |r| <= |s|
  {
    TrimEnd(TrimStart(s))
  }

  /**
   * `Trim` keeps a contiguous part of its input, drops only whitespace around it, and leaves neither
   * end on whitespace.
   */
  lemma TrimShape(s: string)
    ensures var r := Trim(s);
            var a := SkipWhitespace(s, 0);
            a + |r| <= |s| && r == s[a..a + |r|]
            && (forall m :: 0 <= m < a ==> IsWhitespace(s[m]))
            && (forall m :: a + |r| <= m < |s| ==> IsWhitespace(s[m]))
            && Trimmed(r)
  {
    var a := SkipWhitespace(s, 0);
    var t := s[a..];
    var b := SkipWhitespaceBack(t, |t|);
    assert TrimEnd(t) == s[a..a + b];
    assert forall m :: a + b <= m < |s| ==> s[m] == t[m - a];
  }

  /** A text without outer whitespace trims to itself. */
  lemma TrimOfTrimmed(s: string)
    requires Trimmed(s)
    ensures Trim(s) == s
  {
    if s != [] {
      assert SkipWhitespace(s, 0) == 0;
      assert s[0..] == s;
      assert SkipWhitespaceBack(s, |s|) == |s|;
      assert s[..|s|] == s;
    }
  }

  /** Trimming twice is trimming once. */
  lemma TrimIdempotent(s: string)
    ensures Trim(Trim(s)) == Trim(s)
  {
    TrimShape(s);
    TrimOfTrimmed(Trim(s));
  }

  /** Each text followed by one space, as the parser accumulates them (`value + &val + " "`). */
  function Spaced(ts: seq<string>): string {
    if ts == [] then "" else ts[0] + " " + Spaced(ts[1..])
  }

  /** The texts joined with single spaces. */
  function JoinSpace(ts: seq<string>): string {
    if |ts| == 0 then "" else if |ts| == 1 then ts[0] else ts[0] + " " + JoinSpace(ts[1..])
  }

  lemma {:induction false} SpacedIsJoinPlusSpace(ts: seq<string>)
    requires ts != []
    ensures Spaced(ts) == JoinSpace(ts) + " "
  {
    if |ts| > 1 {
      SpacedIsJoinPlusSpace(ts[1..]);
    }
  }

  lemma {:induction false} JoinSpaceEnds(ts: seq<string>)
    requires ts != [] && forall k :: 0 <= k < |ts| ==> Clean(ts[k])
    ensures Clean(JoinSpace(ts))
  {
    if |ts| > 1 {
      JoinSpaceEnds(ts[1..]);
    }
  }

  /** A clean text with one trailing space trims back to itself. */
  lemma TrimCleanSpace(j: string)
    requires Clean(j)
    ensures Trim(j + " ") == j
  {
    var s := j + " ";
    assert s[0] == j[0] && s[|s| - 1] == ' ' && s[|s| - 2] == j[|j| - 1];
    assert SkipWhitespace(s, 0) == 0;
    assert s[0..] == s;
    assert TrimStart(s) == s;
    assert SkipWhitespaceBack(s, |s| - 1) == |s| - 1;
    assert SkipWhitespaceBack(s, |s|) == |j|;
    assert s[..|j|] == j;
  }

  /** Accumulating clean texts with trailing spaces and trimming gives exactly their space-joined form. */
  lemma TrimSpacedIsJoin(ts: seq<string>)
    requires forall k :: 0 <= k < |ts| ==> Clean(ts[k])
    ensures Trim(Spaced(ts)) == JoinSpace(ts)
  {
    if ts != [] {
      SpacedIsJoinPlusSpace(ts);
      JoinSpaceEnds(ts);
      TrimCleanSpace(JoinSpace(ts));
    }
  }
}
