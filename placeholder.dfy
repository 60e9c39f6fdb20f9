/**
 * Placeholder substitution in src/PdfFiller.ts: the template text is
 * rewritten with `template.replace(new RegExp('%%.*?(' + name + ').*?%%', 'g'), value)`.
 * The field name is taken literally (see README). The expression is
 * modelled as the regular-expression engine runs it: the leftmost match,
 * lazy `.*?` that tries the shortest span first and backtracks, `.` that
 * matches anything but a line terminator, and a global scan that resumes
 * after each match.
 */
module Placeholder {
  import opened JsValue

  /** The characters `.` does not match in a JavaScript regular expression. */
  predicate IsLineTerminator(c: char) {
    c == '\n' || c == '\r' || c == '\U{2028}' || c == '\U{2029}'
  }

  /** No line terminator in `t[lo..hi]`. */
  predicate LineFree(t: string, lo: nat, hi: nat)
    requires lo <= hi <= |t|
  {
    forall i :: lo <= i < hi ==> !IsLineTerminator(t[i])
  }

  /** A `%%` pair starts at `k`. */
  predicate MarkerAt(t: string, k: nat) {
    k + 2 <= |t| && t[k] == '%' && t[k + 1] == '%'
  }

  /** `name` occurs at `j`. */
  predicate OccursAt(t: string, name: string, j: nat) {
    j + |name| <= |t| && t[j..j + |name|] == name
  }

  /**
   * `.*?%%` from position `k`: the first `%%` at or after `k` reached
   * without crossing a line terminator.
   */
  function CloseFrom(t: string, k: nat): (r: Option<nat>)
    requires k <= |t|
    ensures r.Some? ==> k <= r.value && MarkerAt(t, r.value) && LineFree(t, k, r.value)
    ensures r.Some? ==> forall c :: k <= c < r.value ==> !MarkerAt(t, c)
    ensures r.None? ==> forall c :: k <= c && MarkerAt(t, c) ==> !LineFree(t, k, c)
    decreases |t| - k
  {
    if MarkerAt(t, k) then Some(k)
    else if k == |t| || IsLineTerminator(t[k]) then None
    else CloseFrom(t, k + 1)
  }

  /** The name occurs at `j` and a closing `%%` can follow it. */
  predicate NameClosesAt(t: string, name: string, j: nat) {
    OccursAt(t, name, j) && CloseFrom(t, j + |name|).Some?
  }

  /**
   * `.*?(name).*?%%` from position `j`: the first position of the name that
   * a closing `%%` can follow, reached without crossing a line terminator
   * (the order in which lazy matching with backtracking tries them), and the
   * position of that closing `%%`.
   */
  function NameFrom(t: string, j: nat, name: string): (r: Option<(nat, nat)>)
    requires j <= |t|
    ensures r.Some? ==> var (n, c) := r.value;
      && j <= n <= |t| && LineFree(t, j, n)
      && OccursAt(t, name, n)
      && CloseFrom(t, n + |name|) == Some(c)
    ensures r.Some? ==> forall n' :: j <= n' < r.value.0 ==> !NameClosesAt(t, name, n')
    decreases |t| - j
  {
    if NameClosesAt(t, name, j) then Some((j, CloseFrom(t, j + |name|).value))
    else if j == |t| || IsLineTerminator(t[j]) then None
    else NameFrom(t, j + 1, name)
  }

  /** When `NameFrom` finds nothing, no occurrence of the name reachable without a line terminator can be closed. */
  lemma {:induction false} NameFromNone(t: string, j: nat, name: string)
    requires j <= |t| && NameFrom(t, j, name).None?
    ensures forall n :: j <= n <= |t| && LineFree(t, j, n) ==> !NameClosesAt(t, name, n)
    decreases |t| - j
  {
    if !NameClosesAt(t, name, j) && j < |t| && !IsLineTerminator(t[j]) {
      NameFromNone(t, j + 1, name);
      forall n | j < n <= |t| && LineFree(t, j, n) ensures LineFree(t, j + 1, n) { }
    }
  }

  /** The end of the match of `%%.*?(name).*?%%` that starts at `i`, if one does. */
  function MatchAt(t: string, i: nat, name: string): (r: Option<nat>)
    requires i <= |t|
    ensures r.Some? ==> MarkerAt(t, i) && i + 4 + |name| <= r.value <= |t| && MarkerAt(t, r.value - 2)
    ensures r.Some? ==> exists n :: i + 2 <= n && n + |name| + 2 <= r.value && OccursAt(t, name, n)
  {
    if MarkerAt(t, i) then
      match NameFrom(t, i + 2, name)
      case Some((n, c)) => Some(c + 2)
      case None => None
    else None
  }

  /**
   * A match that starts at `i` comes from a `%%` there, the first occurrence
   * of the name on the same line that a closing `%%` can follow, and the
   * first `%%` after that occurrence.
   */
  lemma MatchAtFirst(t: string, i: nat, name: string)
    requires i <= |t| && MatchAt(t, i, name).Some?
    ensures MarkerAt(t, i)
    ensures exists n :: && i + 2 <= n <= |t| && LineFree(t, i + 2, n) && NameClosesAt(t, name, n)
                        && (forall n' :: i + 2 <= n' < n ==> !NameClosesAt(t, name, n'))
                        && CloseFrom(t, n + |name|) == Some(MatchAt(t, i, name).value - 2)
  {
    var r := NameFrom(t, i + 2, name);
    var n := r.value.0;
    assert MatchAt(t, i, name) == Some(r.value.1 + 2);
    assert NameClosesAt(t, name, n);
  }

  /** A `%%` followed on the same line by a closable occurrence of the name starts a match. */
  lemma MatchAtWhenClosable(t: string, i: nat, name: string, n: nat)
    requires MarkerAt(t, i) && i + 2 <= n <= |t| && LineFree(t, i + 2, n) && NameClosesAt(t, name, n)
    ensures MatchAt(t, i, name).Some?
  {
    var r := NameFrom(t, i + 2, name);
    if r.None? {
      NameFromNone(t, i + 2, name);
      assert false;
    }
  }

  /**
   * A match starts at `i` exactly when a `%%` there is followed, on the same
   * line, by an occurrence of the name that a closing `%%` can follow. The
   * match takes the first such occurrence and the first `%%` after it.
   */
  lemma MatchAtExactly(t: string, i: nat, name: string)
    requires i <= |t|
    ensures MatchAt(t, i, name).Some? <==>
      MarkerAt(t, i) && exists n :: i + 2 <= n <= |t| && LineFree(t, i + 2, n) && NameClosesAt(t, name, n)
    ensures MatchAt(t, i, name).Some? ==>
      exists n :: && i + 2 <= n <= |t| && LineFree(t, i + 2, n) && NameClosesAt(t, name, n)
                  && (forall n' :: i + 2 <= n' < n ==> !NameClosesAt(t, name, n'))
                  && CloseFrom(t, n + |name|) == Some(MatchAt(t, i, name).value - 2)
  {
    if MatchAt(t, i, name).Some? {
      MatchAtFirst(t, i, name);
    } else if MarkerAt(t, i) {
      forall n | i + 2 <= n <= |t| && LineFree(t, i + 2, n)
        ensures !NameClosesAt(t, name, n)
      {
        if NameClosesAt(t, name, n) {
          MatchAtWhenClosable(t, i, name, n);
        }
      }
    }
  }

  /** The text from `i` on after the global scan: each match becomes `v`, other characters are kept. */
  function ReplaceFrom(t: string, i: nat, name: string, v: string): string
    requires i <= |t|
    decreases |t| - i
  {
    if i == |t| then []
    else match MatchAt(t, i, name)
      case Some(e) => v + ReplaceFrom(t, e, name, v)
      case None => [t[i]] + ReplaceFrom(t, i + 1, name, v)
  }

  /** `t.replace(/%%.*?(name).*?%%/g, v)`. */
  function ReplaceAll(t: string, name: string, v: string): string {
    ReplaceFrom(t, 0, name, v)
  }

  /** Where no match starts at `k`, the scan copies `t[k]` and moves on. */
  lemma CopiedOne(t: string, name: string, v: string, k: nat)
    requires k < |t| && MatchAt(t, k, name).None?
    ensures ReplaceFrom(t, k, name, v) == [t[k]] + ReplaceFrom(t, k + 1, name, v)
  {
  }

  /** A slice with its first element put back in front of a continuation. */
  lemma ConsSlice<T>(t: seq<T>, k: nat, i: nat, rest: seq<T>)
    requires k < i <= |t|
    ensures [t[k]] + (t[k + 1..i] + rest) == t[k..i] + rest
  {
    assert t[k..i] == [t[k]] + t[k + 1..i];
  }

  /** Where no match starts, the scan copies the text unchanged. */
  lemma {:induction false} CopiedUpTo(t: string, name: string, v: string, k: nat, i: nat)
    requires k <= i <= |t|
    requires forall m :: k <= m < i ==> MatchAt(t, m, name).None?
    ensures ReplaceFrom(t, k, name, v) == t[k..i] + ReplaceFrom(t, i, name, v)
    decreases i - k
  {
    if k < i {
      CopiedOne(t, name, v, k);
      CopiedUpTo(t, name, v, k + 1, i);
      ConsSlice(t, k, i, ReplaceFrom(t, i, name, v));
    }
  }

  /** Text in which no match starts anywhere is returned unchanged. */
  lemma ReplaceWithoutMatch(t: string, name: string, v: string)
    requires forall i :: 0 <= i < |t| ==> MatchAt(t, i, name).None?
    ensures ReplaceAll(t, name, v) == t
  {
    CopiedUpTo(t, name, v, 0, |t|);
  }

  /** Text without a `%%` pair is left byte-identical, whatever the field. */
  lemma NoMarkerNoChange(t: string, name: string, v: string)
    requires forall i :: 0 <= i < |t| ==> !MarkerAt(t, i)
    ensures ReplaceAll(t, name, v) == t
  {
    ReplaceWithoutMatch(t, name, v);
  }

  /**
   * A placeholder whose name is not declared is left byte-identical: if the
   * field name occurs nowhere in the text, nothing is replaced.
   */
  lemma AbsentNameNoChange(t: string, name: string, v: string)
    requires forall j :: 0 <= j < |t| ==> !OccursAt(t, name, j)
    ensures ReplaceAll(t, name, v) == t
  {
    ReplaceWithoutMatch(t, name, v);
  }

  /** An exact `%%name%%` at `i` is a match that ends right after it. */
  lemma TokenMatches(t: string, name: string, i: nat)
    requires MarkerAt(t, i) && OccursAt(t, name, i + 2) && MarkerAt(t, i + 2 + |name|)
    ensures MatchAt(t, i, name) == Some(i + |name| + 4)
  {
    assert CloseFrom(t, i + 2 + |name|) == Some(i + 2 + |name|);
    assert NameFrom(t, i + 2, name) == Some((i + 2, i + 2 + |name|));
  }

  /** Where a match starts, the scan writes the value and resumes after the match. */
  lemma ReplacedAt(t: string, name: string, v: string, i: nat, e: nat)
    requires i < |t| && MatchAt(t, i, name) == Some(e)
    ensures e <= |t| && ReplaceFrom(t, i, name, v) == v + ReplaceFrom(t, e, name, v)
  {
  }

  /** Before the first `%` no match can start. */
  lemma NoMatchBeforePercent(t: string, name: string, i: nat)
    requires i <= |t| && forall k :: 0 <= k < i ==> t[k] != '%'
    ensures forall m :: 0 <= m < i ==> MatchAt(t, m, name).None?
  {
    forall m | 0 <= m < i ensures MatchAt(t, m, name).None? {
      assert !MarkerAt(t, m);
    }
  }

  /**
   * An exact token `%%name%%` at `i`, preceded by text without `%`, is
   * replaced by the value, and the scan resumes right after the token.
   */
  lemma TokenReplaced(t: string, name: string, v: string, i: nat)
    requires MarkerAt(t, i) && OccursAt(t, name, i + 2) && MarkerAt(t, i + 2 + |name|)
    requires forall k :: 0 <= k < i ==> t[k] != '%'
    ensures ReplaceAll(t, name, v) == t[..i] + v + ReplaceFrom(t, i + |name| + 4, name, v)
  {
    PercentFreePrefixCopied(t, name, v, i);
    TokenStep(t, name, v, i);
    AppendAssoc(t[..i], v, ReplaceFrom(t, i + |name| + 4, name, v));
  }

  /** The scan at an exact `%%name%%` writes the value and resumes right after the token. */
  lemma TokenStep(t: string, name: string, v: string, i: nat)
    requires MarkerAt(t, i) && OccursAt(t, name, i + 2) && MarkerAt(t, i + 2 + |name|)
    ensures ReplaceFrom(t, i, name, v) == v + ReplaceFrom(t, i + |name| + 4, name, v)
  {
    TokenMatches(t, name, i);
    ReplacedAt(t, name, v, i, i + |name| + 4);
  }

  /** The text before the first `%` is copied unchanged. */
  lemma PercentFreePrefixCopied(t: string, name: string, v: string, i: nat)
    requires i <= |t| && forall k :: 0 <= k < i ==> t[k] != '%'
    ensures ReplaceAll(t, name, v) == t[..i] + ReplaceFrom(t, i, name, v)
  {
    NoMatchBeforePercent(t, name, i);
    CopiedUpTo(t, name, v, 0, i);
    assert t[0..i] == t[..i];
  }

  /** Text without `%` from `k` on is copied unchanged. */
  lemma NoPercentTail(t: string, name: string, v: string, k: nat)
    requires k <= |t| && forall j :: k <= j < |t| ==> t[j] != '%'
    ensures ReplaceFrom(t, k, name, v) == t[k..]
  {
    forall m | k <= m < |t| ensures MatchAt(t, m, name).None? {
      assert !MarkerAt(t, m);
    }
    CopiedUpTo(t, name, v, k, |t|);
  }

  /**
   * A text holding a single exact token `%%name%%`, with no other `%` around
   * it, comes out with the token replaced by the value and nothing else
   * changed.
   */
  lemma LoneTokenReplaced(pre: string, name: string, post: string, v: string)
    requires forall k :: 0 <= k < |pre| ==> pre[k] != '%'
    requires forall k :: 0 <= k < |post| ==> post[k] != '%'
    ensures ReplaceAll(pre + "%%" + name + "%%" + post, name, v) == pre + v + post
  {
    var t := pre + "%%" + name + "%%" + post;
    var i := |pre|;
    var e := i + |name| + 4;
    assert t[..i] == pre;
    assert t[i + 2..i + 2 + |name|] == name;
    assert t[e..] == post;
    assert MarkerAt(t, i) && MarkerAt(t, i + 2 + |name|);
    TokenReplaced(t, name, v, i);
    NoPercentTail(t, name, v, e);
  }
}
