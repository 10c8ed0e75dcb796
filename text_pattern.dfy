/**
  The regular expressions the compiler patcher searches for, and JavaScript's
  first-match `String.prototype.replace`.

  Every pattern of the patcher is a literal head followed by one of three tails:
  nothing (`/function changeExtension\(/`), `.*(?=;)` (the rest of the line up to
  its last semicolon) or `.+` followed by a literal (`/function createProgram\(.+\) {/`).
  For these shapes the match JavaScript's backtracking engine returns is the one
  that starts leftmost and, among those, ends last (both quantifiers are greedy),
  which is how `IsFirstMatch` specifies it.
*/
module TextPattern {
  import opened Wrappers

  /** The characters JavaScript's `.` does not match. */
  predicate IsLineTerminator(c: char) {
    c == '\n' || c == '\r' || c == '\U{2028}' || c == '\U{2029}'
  }

  /** What follows the literal head of a pattern. */
  datatype Tail =
    | NoTail                   // the head alone
    | ToLastSemicolon          // `.*(?=;)`
    | AnyThen(closing: string) // `.+` then the literal `closing`

  /** A pattern; `source` is the regular expression as JavaScript prints it (`/…/`). */
  datatype Pattern = Pattern(head: string, tail: Tail, source: string)

  /** `lit` occurs in `text` at offset `i`. */
  predicate OccursAt(text: string, lit: string, i: nat) {
    i + |lit| <= |text| && text[i..i + |lit|] == lit
  }

  /** No line terminator in `text[lo..hi]`: `.` can consume all of it. */
  ghost predicate OnOneLine(text: string, lo: nat, hi: nat) {
    lo <= hi <= |text| && forall t :: lo <= t < hi ==> !IsLineTerminator(text[t])
  }

  /** `p` matches `text[i..j]`. */
  ghost predicate IsMatch(text: string, p: Pattern, i: nat, j: nat) {
    OccursAt(text, p.head, i) &&
    var k := i + |p.head|;
    match p.tail
    case NoTail => j == k
    case ToLastSemicolon => k <= j < |text| && text[j] == ';' && OnOneLine(text, k, j)
    case AnyThen(closing) =>
      k + 1 + |closing| <= j && OnOneLine(text, k, j - |closing|) && OccursAt(text, closing, j - |closing|)
  }

  /** `text[i..j]` is the match JavaScript finds: leftmost start, then the greedy (last) end. */
  ghost predicate IsFirstMatch(text: string, p: Pattern, i: nat, j: nat) {
    IsMatch(text, p, i, j) &&
    (forall i': nat, j': nat :: i' < i ==> !IsMatch(text, p, i', j')) &&
    (forall j': nat :: IsMatch(text, p, i, j') ==> j' <= j)
  }

  /** There is only one first match. */
  lemma FirstMatchUnique(text: string, p: Pattern, i: nat, j: nat, i': nat, j': nat)
    requires IsFirstMatch(text, p, i, j) && IsFirstMatch(text, p, i', j')
    ensures i == i' && j == j'
  {
  }

  /** The end of the line that contains offset `k`. */
  function LineEnd(text: string, k: nat): (e: nat)
    requires k <= |text|
    ensures k <= e <= |text|
    decreases |text| - k
  {
    if k == |text| || IsLineTerminator(text[k]) then k else LineEnd(text, k + 1)
  }

  lemma {:induction false} LineEndSpec(text: string, k: nat)
    requires k <= |text|
    ensures OnOneLine(text, k, LineEnd(text, k))
    ensures LineEnd(text, k) < |text| ==> IsLineTerminator(text[LineEnd(text, k)])
    decreases |text| - k
  {
    if k < |text| && !IsLineTerminator(text[k]) {
      LineEndSpec(text, k + 1);
    }
  }

  /** The last semicolon in `text[lo..hi]`. */
  function LastSemicolon(text: string, lo: nat, hi: nat): (r: Option<nat>)
    requires lo <= hi <= |text|
    ensures r.Some? ==> lo <= r.value < hi
    decreases hi - lo
  {
    if hi == lo then None
    else if text[hi - 1] == ';' then Some(hi - 1)
    else LastSemicolon(text, lo, hi - 1)
  }

  lemma {:induction false} LastSemicolonSpec(text: string, lo: nat, hi: nat)
    requires lo <= hi <= |text|
    ensures var r := LastSemicolon(text, lo, hi);
            r.Some? ==> text[r.value] == ';' && forall t :: r.value < t < hi ==> text[t] != ';'
    ensures LastSemicolon(text, lo, hi).None? ==> forall t :: lo <= t < hi ==> text[t] != ';'
    decreases hi - lo
  {
    if hi != lo && text[hi - 1] != ';' {
      LastSemicolonSpec(text, lo, hi - 1);
    }
  }

  /** The last offset in `lo..hi` (both included) where `lit` occurs. */
  function LastOccurrence(text: string, lit: string, lo: nat, hi: nat): (r: Option<nat>)
    requires lo <= hi
    ensures r.Some? ==> lo <= r.value <= hi && r.value + |lit| <= |text|
    decreases hi - lo
  {
    if OccursAt(text, lit, hi) then Some(hi)
    else if hi == lo then None
    else LastOccurrence(text, lit, lo, hi - 1)
  }

  lemma {:induction false} LastOccurrenceSpec(text: string, lit: string, lo: nat, hi: nat)
    requires lo <= hi
    ensures var r := LastOccurrence(text, lit, lo, hi);
            r.Some? ==> OccursAt(text, lit, r.value) && forall t :: r.value < t <= hi ==> !OccursAt(text, lit, t)
    ensures LastOccurrence(text, lit, lo, hi).None? ==> forall t :: lo <= t <= hi ==> !OccursAt(text, lit, t)
    decreases hi - lo
  {
    if !OccursAt(text, lit, hi) && hi != lo {
      LastOccurrenceSpec(text, lit, lo, hi - 1);
    }
  }

  /** The end of the match JavaScript takes when the pattern is tried at offset `i`. */
  function MatchEndAt(text: string, p: Pattern, i: nat): (r: Option<nat>)
    ensures r.Some? ==> OccursAt(text, p.head, i) && i + |p.head| <= r.value <= |text|
  {
    if !OccursAt(text, p.head, i) then None
    else
      var k := i + |p.head|;
      var e := LineEnd(text, k);
      match p.tail
      case NoTail => Some(k)
      case ToLastSemicolon => LastSemicolon(text, k, e)
      case AnyThen(closing) =>
        if e < k + 1 then None
        else
          var m := LastOccurrence(text, closing, k + 1, e);
          if m.None? then None else Some(m.value + |closing|)
  }

  /** `r` is the end of the longest match of `p` at `i`, or None when nothing matches there. */
  ghost predicate LongestMatchAt(text: string, p: Pattern, i: nat, r: Option<nat>) {
    (r.Some? ==> IsMatch(text, p, i, r.value) && forall j: nat :: IsMatch(text, p, i, j) ==> j <= r.value) &&
    (r.None? ==> forall j: nat :: !IsMatch(text, p, i, j))
  }

  /** Trying `p` at `i` yields the longest match that starts there, if there is one. */
  lemma MatchEndAtSpec(text: string, p: Pattern, i: nat)
    ensures LongestMatchAt(text, p, i, MatchEndAt(text, p, i))
  {
    if OccursAt(text, p.head, i) {
      match p.tail
      case NoTail =>
      case ToLastSemicolon => SemicolonTailLongest(text, p, i);
      case AnyThen(closing) => ClosingTailLongest(text, p, i);
    }
  }

  lemma SemicolonTailLongest(text: string, p: Pattern, i: nat)
    requires OccursAt(text, p.head, i) && p.tail == ToLastSemicolon
    ensures LongestMatchAt(text, p, i, MatchEndAt(text, p, i))
  {
    var k := i + |p.head|;
    var e := LineEnd(text, k);
    LineEndSpec(text, k);
    LastSemicolonSpec(text, k, e);
    assert forall j: nat :: IsMatch(text, p, i, j) ==> j < e;
  }

  lemma ClosingTailLongest(text: string, p: Pattern, i: nat)
    requires OccursAt(text, p.head, i) && p.tail.AnyThen?
    ensures LongestMatchAt(text, p, i, MatchEndAt(text, p, i))
  {
    var k := i + |p.head|;
    var e := LineEnd(text, k);
    var closing := p.tail.closing;
    var r := MatchEndAt(text, p, i);
    forall j: nat | IsMatch(text, p, i, j) ensures k + 1 <= j - |closing| <= e {
      WithinLine(text, k, j - |closing|);
    }
    if k + 1 <= e {
      LastOccurrenceSpec(text, closing, k + 1, e);
      var m := LastOccurrence(text, closing, k + 1, e);
      if m.Some? {
        assert r == Some(m.value + |closing|);
        LineEndSpec(text, k);
        assert OnOneLine(text, k, m.value);
        assert IsMatch(text, p, i, m.value + |closing|);
      } else {
        assert r.None?;
      }
    } else {
      assert r.None?;
    }
  }

  /** A stretch that starts at `k` and holds no line terminator ends at or before the end of the line. */
  lemma WithinLine(text: string, k: nat, hi: nat)
    requires k <= |text| && OnOneLine(text, k, hi)
    ensures hi <= LineEnd(text, k)
  {
    LineEndSpec(text, k);
  }

  /** The first match of `p` that starts at or after `from`. */
  function FirstMatchFrom(text: string, p: Pattern, from: nat): (r: Option<(nat, nat)>)
    requires from <= |text| + 1
    ensures r.Some? ==> from <= r.value.0 && OccursAt(text, p.head, r.value.0)
    ensures r.Some? ==> r.value.0 + |p.head| <= r.value.1 <= |text|
    decreases |text| + 1 - from
  {
    if from == |text| + 1 then None
    else
      match MatchEndAt(text, p, from)
      case Some(j) => Some((from, j))
      case None => FirstMatchFrom(text, p, from + 1)
  }

  lemma {:induction false} FirstMatchFromSpec(text: string, p: Pattern, from: nat)
    requires from <= |text| + 1
    ensures var r := FirstMatchFrom(text, p, from);
            r.Some? ==> IsMatch(text, p, r.value.0, r.value.1)
    ensures var r := FirstMatchFrom(text, p, from);
            r.Some? ==> forall i: nat, j: nat :: from <= i < r.value.0 ==> !IsMatch(text, p, i, j)
    ensures var r := FirstMatchFrom(text, p, from);
            r.Some? ==> forall j: nat :: IsMatch(text, p, r.value.0, j) ==> j <= r.value.1
    ensures FirstMatchFrom(text, p, from).None? ==> forall i: nat, j: nat :: from <= i ==> !IsMatch(text, p, i, j)
    decreases |text| + 1 - from
  {
    if from == |text| + 1 {
      assert forall i: nat :: from <= i ==> !OccursAt(text, p.head, i);
    } else {
      MatchEndAtSpec(text, p, from);
      var m := MatchEndAt(text, p, from);
      if m.None? {
        FirstMatchFromSpec(text, p, from + 1);
        assert FirstMatchFrom(text, p, from) == FirstMatchFrom(text, p, from + 1);
      } else {
        assert FirstMatchFrom(text, p, from) == Some((from, m.value));
      }
    }
  }

  /** Where JavaScript's `text.replace(regex, …)` finds `p`, if anywhere. */
  function FirstMatch(text: string, p: Pattern): (r: Option<(nat, nat)>)
    ensures r.Some? ==> OccursAt(text, p.head, r.value.0) && r.value.0 + |p.head| <= r.value.1 <= |text|
  {
    FirstMatchFrom(text, p, 0)
  }

  /** `FirstMatch` finds the first match, and finds nothing only when there is no match. */
  lemma FirstMatchSpec(text: string, p: Pattern)
    ensures FirstMatch(text, p).Some? ==> IsFirstMatch(text, p, FirstMatch(text, p).value.0, FirstMatch(text, p).value.1)
    ensures FirstMatch(text, p).None? ==> forall i: nat, j: nat :: !IsMatch(text, p, i, j)
  {
    FirstMatchFromSpec(text, p, 0);
  }

  /** The first match is the one `FirstMatch` returns. */
  lemma FirstMatchIs(text: string, p: Pattern, i: nat, j: nat)
    requires IsFirstMatch(text, p, i, j)
    ensures FirstMatch(text, p) == Some((i, j))
  {
    FirstMatchSpec(text, p);
    FirstMatchUnique(text, p, i, j, FirstMatch(text, p).value.0, FirstMatch(text, p).value.1);
  }

  /** A pattern that is just the literal `lit`, as `s.replace('lit', …)` searches for it. */
  function Literal(lit: string): Pattern {
    Pattern(lit, NoTail, lit)
  }

  /**
    JavaScript's `s.replace(needle, replacement)` with two strings: the first
    occurrence of `needle` is replaced, and `s` is returned unchanged when there is
    none. (The replacements used here contain no `$`, so no substitution patterns apply.)
  */
  function ReplaceFirstLiteral(s: string, needle: string, replacement: string): (r: string)
    ensures (forall i: nat :: !OccursAt(s, needle, i)) ==> r == s
    ensures (exists i: nat :: OccursAt(s, needle, i)) ==> |r| == |s| - |needle| + |replacement|
  {
    FirstMatchSpec(s, Literal(needle));
    match FirstMatch(s, Literal(needle))
    case None =>
      assert forall i: nat :: OccursAt(s, needle, i) ==> IsMatch(s, Literal(needle), i, i + |needle|);
      s
    case Some((i, j)) => s[..i] + replacement + s[j..]
  }

  lemma ReplaceFirstLiteralAt(s: string, needle: string, replacement: string, i: nat)
    requires IsFirstMatch(s, Literal(needle), i, i + |needle|)
    ensures ReplaceFirstLiteral(s, needle, replacement) == s[..i] + replacement + s[i + |needle|..]
  {
    FirstMatchIs(s, Literal(needle), i, i + |needle|);
  }
}
