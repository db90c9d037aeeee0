/**
 * The string primitives the wizard relies on: substring search
 * (`String.prototype.includes`), first-occurrence replacement
 * (`String.prototype.replace` with a string pattern), ASCII lower-casing
 * (`toLowerCase` restricted to ASCII) and `String.prototype.trim`.
 */
module Text {
  import opened Wrappers

  /** `pat` occurs in `s` starting at index `k`. */
  predicate OccursAt(s: string, pat: string, k: nat)
  {
    k + |pat| <= |s| && s[k..k + |pat|] == pat
  }

  /** `s.includes(pat)`. */
  predicate Contains(s: string, pat: string)
  {
    exists k: nat | k <= |s| :: OccursAt(s, pat, k)
  }

  /** The first index at or after `from` where `pat` occurs, if any. */
  function IndexOfFrom(s: string, pat: string, from: nat): (r: Option<nat>)
    ensures r.Some? ==> from <= r.value && OccursAt(s, pat, r.value)
    ensures r.Some? ==> forall k: nat :: from <= k < r.value ==> !OccursAt(s, pat, k)
    ensures r.None? ==> forall k: nat :: from <= k ==> !OccursAt(s, pat, k)
    decreases |s| - from
  {
    if from + |pat| > |s| then None
    else if s[from..from + |pat|] == pat then Some(from)
    else IndexOfFrom(s, pat, from + 1)
  }

  /** `s.indexOf(pat)`, with -1 as `None`. */
  function IndexOf(s: string, pat: string): (r: Option<nat>)
    ensures r.Some? <==> Contains(s, pat)
    ensures r.Some? ==> OccursAt(s, pat, r.value)
    ensures r.Some? ==> forall k: nat :: k < r.value ==> !OccursAt(s, pat, k)
  {
    IndexOfFrom(s, pat, 0)
  }

  /** `s.replace(pat, rep)` for a string `pat` and a `rep` without `$` patterns: only the first occurrence is replaced. */
  function ReplaceFirst(s: string, pat: string, rep: string): (r: string)
    ensures !Contains(s, pat) ==> r == s
    ensures Contains(s, pat) ==> |r| == |s| - |pat| + |rep|
  {
    match IndexOf(s, pat)
    case None => s
    case Some(k) => s[..k] + rep + s[k + |pat|..]
  }

  /** Replacing a pattern that does not occur leaves the string as it was. */
  lemma ReplaceFirstAbsent(s: string, pat: string, rep: string)
    requires !Contains(s, pat)
    ensures ReplaceFirst(s, pat, rep) == s
  {
  }

  /** When the first occurrence of `pat` in `a + pat + b` is the one after `a`, exactly that one is replaced. */
  lemma ReplaceFirstAt(a: string, pat: string, b: string, rep: string)
    requires forall k: nat :: k < |a| ==> !OccursAt(a + pat + b, pat, k)
    ensures ReplaceFirst(a + pat + b, pat, rep) == a + rep + b
  {
    var s := a + pat + b;
    assert s[|a|..|a| + |pat|] == pat;
    assert OccursAt(s, pat, |a|);
    var r := IndexOf(s, pat);
    assert r == Some(|a|);
    assert s[..|a|] == a;
    assert s[|a| + |pat|..] == b;
  }

  /**
   * An occurrence in `a + b` that lies in neither part must cover the last
   * character of `a`; if that character is not in the pattern there is none.
   */
  lemma LacksAcrossBoundary(a: string, b: string, pat: string)
    requires !Contains(a, pat) && !Contains(b, pat)
    requires a != [] && a[|a| - 1] !in pat
    ensures !Contains(a + b, pat)
  {
    var s := a + b;
    forall k: nat | k + |pat| <= |s| ensures !OccursAt(s, pat, k) {
      if k + |pat| <= |a| {
        assert s[k..k + |pat|] == a[k..k + |pat|];
        assert !OccursAt(a, pat, k);
      } else if k >= |a| {
        assert s[k..k + |pat|] == b[k - |a|..k - |a| + |pat|];
        assert !OccursAt(b, pat, k - |a|);
      } else {
        var w := s[k..k + |pat|];
        assert w[|a| - 1 - k] == a[|a| - 1];
        assert w[|a| - 1 - k] in w;
      }
    }
  }

  /**
   * Nothing before `|h| + |indent|` in `h + indent + rest` starts an
   * occurrence of `pat` when `h` lacks `pat`, ends with a character outside
   * `pat`, and `indent` lacks the first character of `pat`.
   */
  lemma NoOccurrenceBefore(h: string, indent: string, pat: string, rest: string)
    requires !Contains(h, pat) && h != [] && h[|h| - 1] !in pat
    requires pat != [] && pat[0] !in indent
    ensures forall k: nat :: k < |h| + |indent| ==> !OccursAt(h + indent + rest, pat, k)
  {
    var s := h + indent + rest;
    forall k: nat | k < |h| + |indent| && k + |pat| <= |s| ensures !OccursAt(s, pat, k) {
      var w := s[k..k + |pat|];
      if k + |pat| <= |h| {
        assert w == h[k..k + |pat|];
        assert !OccursAt(h, pat, k);
      } else if k < |h| {
        assert w[|h| - 1 - k] == h[|h| - 1];
        assert w[|h| - 1 - k] in w;
      } else {
        assert w[0] == indent[k - |h|];
        assert indent[k - |h|] in indent;
      }
    }
  }

  /** Concatenation of a sequence of pieces. */
  function Concat(pieces: seq<string>): string
  {
    if pieces == [] then "" else pieces[0] + Concat(pieces[1..])
  }

  /** Every piece is non-empty and ends with a character that is not in `pat`, and no piece holds `pat`. */
  predicate SafePieces(pieces: seq<string>, pat: string)
  {
    forall i | 0 <= i < |pieces| :: pieces[i] != [] && pieces[i][|pieces[i]| - 1] !in pat && !Contains(pieces[i], pat)
  }

  /** Pieces that are safe for `pat` never assemble into a string holding `pat`. */
  lemma {:induction false} ConcatLacks(pieces: seq<string>, pat: string)
    requires pat != [] && SafePieces(pieces, pat)
    ensures !Contains(Concat(pieces), pat)
  {
    if pieces == [] {
      assert forall k: nat :: !OccursAt("", pat, k);
    } else {
      assert SafePieces(pieces[1..], pat) by {
        forall i | 0 <= i < |pieces[1..]| ensures pieces[1..][i] == pieces[i + 1] { }
      }
      ConcatLacks(pieces[1..], pat);
      LacksAcrossBoundary(pieces[0], Concat(pieces[1..]), pat);
    }
  }

  /** A safe non-empty list of pieces assembles into a string that ends with a character outside `pat`. */
  lemma {:induction false} ConcatEndsOutside(pieces: seq<string>, pat: string)
    requires pieces != [] && SafePieces(pieces, pat)
    ensures Concat(pieces) != [] && Concat(pieces)[|Concat(pieces)| - 1] !in pat
  {
    var rest := Concat(pieces[1..]);
    if rest == [] {
      assert Concat(pieces) == pieces[0];
    } else {
      assert SafePieces(pieces[1..], pat) by {
        forall i | 0 <= i < |pieces[1..]| ensures pieces[1..][i] == pieces[i + 1] { }
      }
      ConcatEndsOutside(pieces[1..], pat);
      assert Concat(pieces)[|Concat(pieces)| - 1] == rest[|rest| - 1];
    }
  }

  /** Concatenation distributes over appending lists of pieces. */
  lemma {:induction false} ConcatAppend(xs: seq<string>, ys: seq<string>)
    ensures Concat(xs + ys) == Concat(xs) + Concat(ys)
  {
    if xs == [] {
      assert xs + ys == ys;
    } else {
      assert (xs + ys)[1..] == xs[1..] + ys;
      ConcatAppend(xs[1..], ys);
    }
  }

  /** `c` lowered when it is an ASCII capital letter. */
  function LowerChar(c: char): char
  {
    if 'A' <= c <= 'Z' then (c as int + 32) as char else c
  }

  /** `s.toLowerCase()` on the ASCII range. */
  function AsciiLower(s: string): (r: string)
    ensures |r| == |s|
    ensures forall i | 0 <= i < |r| :: !('A' <= r[i] <= 'Z')
    ensures forall i | 0 <= i < |s| && !('A' <= s[i] <= 'Z') :: r[i] == s[i]
  {
    seq(|s|, i requires 0 <= i < |s| => LowerChar(s[i]))
  }

  /** `t` matches `s` at `k` when case is ignored on `s`'s side. */
  predicate MatchesIgnoringCaseAt(s: string, t: string, k: nat)
  {
    k + |t| <= |s| && forall j | 0 <= j < |t| :: LowerChar(s[k + j]) == t[j]
  }

  /** The lower-cased string holds `t` exactly where `s` matches `t` ignoring case. */
  lemma LowerOccursAtIff(s: string, t: string, k: nat)
    ensures OccursAt(AsciiLower(s), t, k) <==> MatchesIgnoringCaseAt(s, t, k)
  {
    var l := AsciiLower(s);
    if OccursAt(l, t, k) {
      forall j | 0 <= j < |t| ensures LowerChar(s[k + j]) == t[j] {
        assert l[k..k + |t|][j] == l[k + j];
      }
    }
    if MatchesIgnoringCaseAt(s, t, k) {
      assert l[k..k + |t|] == t;
    }
  }

  /** `s.toLowerCase().includes(t)` holds exactly when `t` appears in `s` up to ASCII case. */
  lemma LowerContainsIff(s: string, t: string)
    ensures Contains(AsciiLower(s), t) <==> exists k: nat :: MatchesIgnoringCaseAt(s, t, k)
  {
    if Contains(AsciiLower(s), t) {
      var k: nat :| OccursAt(AsciiLower(s), t, k);
      LowerOccursAtIff(s, t, k);
    }
    if k: nat :| MatchesIgnoringCaseAt(s, t, k) {
      LowerOccursAtIff(s, t, k);
    }
  }

  /**
   * The characters `String.prototype.trim` removes: ECMAScript WhiteSpace
   * (tab, vertical tab, form feed, space, no-break space, byte order mark and
   * the Unicode space separators) and LineTerminator.
   */
  predicate IsJsWhitespace(c: char)
  {
    || c in {'\t', '\n', '\U{B}', '\U{C}', '\r', ' ', '\U{A0}', '\U{1680}'}
    || '\U{2000}' <= c <= '\U{200A}'
    || c in {'\U{2028}', '\U{2029}', '\U{202F}', '\U{205F}', '\U{3000}', '\U{FEFF}'}
  }

  predicate AllWhitespace(s: string)
  {
    forall i | 0 <= i < |s| :: IsJsWhitespace(s[i])
  }

  /** Neither end of `s` is whitespace. */
  predicate IsTrimmed(s: string)
  {
    s == [] || (!IsJsWhitespace(s[0]) && !IsJsWhitespace(s[|s| - 1]))
  }

  /** The number of whitespace characters `s.trimStart()` removes. */
  function LeadingWhitespace(s: string): (n: nat)
    ensures n <= |s| && AllWhitespace(s[..n])
    ensures n < |s| ==> !IsJsWhitespace(s[n])
  {
    if s != [] && IsJsWhitespace(s[0]) then
      var n := 1 + LeadingWhitespace(s[1..]);
      assert forall i | 1 <= i < n :: s[..n][i] == s[1..][..n - 1][i - 1];
      n
    else 0
  }

  /** The number of whitespace characters `s.trimEnd()` removes. */
  function TrailingWhitespace(s: string): (n: nat)
    ensures n <= |s| && AllWhitespace(s[|s| - n..])
    ensures n < |s| ==> !IsJsWhitespace(s[|s| - n - 1])
  {
    if s != [] && IsJsWhitespace(s[|s| - 1]) then
      var n := 1 + TrailingWhitespace(s[..|s| - 1]);
      n
    else 0
  }

  /** `s.trim()`: `s` without its leading and trailing whitespace. */
  function Trim(s: string): (r: string)
    ensures IsTrimmed(r)
    ensures r == [] <==> AllWhitespace(s)
    ensures |r| <= |s|
  {
    var i := LeadingWhitespace(s);
    var rest := s[i..];
    var r := rest[..|rest| - TrailingWhitespace(rest)];
    assert r != [] ==> r[0] == s[i];
    assert AllWhitespace(s) ==> i == |s|;
    r
  }

  /** The trimmed text sits in `s` right after its leading whitespace. */
  lemma TrimIsInfix(s: string)
    ensures LeadingWhitespace(s) + |Trim(s)| <= |s|
    ensures s[LeadingWhitespace(s)..LeadingWhitespace(s) + |Trim(s)|] == Trim(s)
  {
    var i := LeadingWhitespace(s);
    var rest := s[i..];
    var k := |rest| - TrailingWhitespace(rest);
    assert Trim(s) == rest[..k];
    assert s[i..i + k] == rest[..k];
  }

  /** Trimming removes only whitespace: everything before and after the trimmed text is whitespace. */
  lemma TrimRemovesOnlyWhitespace(s: string)
    ensures LeadingWhitespace(s) + |Trim(s)| <= |s|
    ensures AllWhitespace(s[..LeadingWhitespace(s)])
    ensures AllWhitespace(s[LeadingWhitespace(s) + |Trim(s)|..])
  {
    var i := LeadingWhitespace(s);
    var rest := s[i..];
    var t := TrailingWhitespace(rest);
    assert |Trim(s)| == |rest| - t;
    assert s[i + |rest| - t..] == rest[|rest| - t..];
  }

  /** Trimming twice is trimming once. */
  lemma TrimIdempotent(s: string)
    ensures Trim(Trim(s)) == Trim(s)
  {
    var r := Trim(s);
    if r != [] {
      assert LeadingWhitespace(r) == 0;
      assert TrailingWhitespace(r) == 0;
    }
  }
}
