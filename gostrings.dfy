/**
 * The functions of Go's `strings` package that the notifier relies on:
 * `TrimSpace`, `Trim` with a cutset, and `Contains`. Strings are sequences of
 * code points (Go ranges over runes when trimming).
 */
module GoStrings {

  /** Go's `unicode.IsSpace`: the Latin-1 spaces plus the Unicode White_Space code points. */
  predicate IsSpace(c: char) {
    || c == '\t' || c == '\n' || c == '\U{000B}' || c == '\U{000C}' || c == '\r' || c == ' '
    || c == '\U{0085}' || c == '\U{00A0}' || c == '\U{1680}'
    || ('\U{2000}' <= c <= '\U{200A}')
    || c == '\U{2028}' || c == '\U{2029}' || c == '\U{202F}' || c == '\U{205F}' || c == '\U{3000}'
  }

  /** Which characters a trim removes: white space (`TrimSpace`) or the characters of a cutset (`Trim`). */
  datatype Cutset = Whitespace | Chars(chars: string)

  predicate Cuts(cut: Cutset, c: char) {
    match cut
    case Whitespace => IsSpace(c)
    case Chars(cs) => c in cs
  }

  /** Every character of `s` is removed by `cut`. */
  predicate AllCut(cut: Cutset, s: string) {
    forall k :: 0 <= k < |s| ==> Cuts(cut, s[k])
  }

  /** `s` neither starts nor ends with a character that `cut` removes. */
  predicate Bare(cut: Cutset, s: string) {
    s == [] || (!Cuts(cut, s[0]) && !Cuts(cut, s[|s| - 1]))
  }

  /** Drops the longest prefix made of cut characters. */
  function TrimLeft(s: string, cut: Cutset): (r: string)
    ensures |r| <= |s|
    ensures r == [] || !Cuts(cut, r[0])
  {
    if s != [] && Cuts(cut, s[0]) then TrimLeft(s[1..], cut) else s
  }

  /** Drops the longest suffix made of cut characters. */
  function TrimRight(s: string, cut: Cutset): (r: string)
    ensures |r| <= |s| && r == s[..|r|]
    ensures r == [] || !Cuts(cut, r[|r| - 1])
  {
    if s != [] && Cuts(cut, s[|s| - 1]) then TrimRight(s[..|s| - 1], cut) else s
  }

  /** Go's `strings.TrimFunc`: trim on the left, then on the right. */
  function TrimFunc(s: string, cut: Cutset): (r: string)
    ensures |r| <= |s|
    ensures Bare(cut, r)
  {
    var l := TrimLeft(s, cut);
    var r := TrimRight(l, cut);
    assert r != [] ==> r[0] == l[0];
    r
  }

  /** Go's `strings.TrimSpace`. */
  function TrimSpace(s: string): (r: string)
    ensures |r| <= |s|
    ensures Bare(Whitespace, r)
  {
    TrimFunc(s, Whitespace)
  }

  /** Go's `strings.Trim(s, cutset)`: removes every leading and trailing character found in `cutset`. */
  function Trim(s: string, cutset: string): (r: string)
    ensures |r| <= |s|
    ensures Bare(Chars(cutset), r)
  {
    TrimFunc(s, Chars(cutset))
  }

  lemma {:induction false} TrimLeftSkipsCut(p: string, t: string, cut: Cutset)
    requires AllCut(cut, p)
    ensures TrimLeft(p + t, cut) == TrimLeft(t, cut)
  {
    if p != [] {
      var s := p + t;
      assert s[0] == p[0];
      assert Cuts(cut, p[0]);
      assert TrimLeft(s, cut) == TrimLeft(s[1..], cut);
      var p' := p[1..];
      assert s[1..] == p' + t;
      assert AllCut(cut, p');
      TrimLeftSkipsCut(p', t, cut);
    } else {
      assert p + t == t;
    }
  }

  lemma {:induction false} TrimRightSkipsCut(t: string, q: string, cut: Cutset)
    requires AllCut(cut, q)
    ensures TrimRight(t + q, cut) == TrimRight(t, cut)
  {
    if q != [] {
      var s := t + q;
      assert s[|s| - 1] == q[|q| - 1];
      assert Cuts(cut, q[|q| - 1]);
      assert TrimRight(s, cut) == TrimRight(s[..|s| - 1], cut);
      var q' := q[..|q| - 1];
      assert s[..|s| - 1] == t + q';
      assert AllCut(cut, q');
      TrimRightSkipsCut(t, q', cut);
    } else {
      assert t + q == t;
    }
  }

  /**
   * The trim of a string is determined by any split of it into a cut prefix, a
   * bare middle and a cut suffix: it is that middle.
   */
  lemma TrimFuncUnique(p: string, m: string, q: string, cut: Cutset)
    requires AllCut(cut, p) && AllCut(cut, q) && Bare(cut, m)
    ensures TrimFunc(p + m + q, cut) == m
  {
    assert p + m + q == p + (m + q);
    TrimLeftSkipsCut(p, m + q, cut);
    if m == [] {
      assert m + q == q + [];
      TrimLeftSkipsCut(q, [], cut);
    } else {
      assert TrimLeft(m + q, cut) == m + q;
      TrimRightSkipsCut(m, q, cut);
    }
  }

  /** Trimming twice is trimming once. */
  lemma TrimFuncIdempotent(s: string, cut: Cutset)
    ensures TrimFunc(TrimFunc(s, cut), cut) == TrimFunc(s, cut)
  {
    var r := TrimFunc(s, cut);
    assert [] + r + [] == r;
    TrimFuncUnique([], r, [], cut);
  }

  /** `sub` occurs in `s` at offset `k`. */
  predicate OccursAt(s: string, sub: string, k: int) {
    0 <= k && k + |sub| <= |s| && s[k..k + |sub|] == sub
  }

  /** Go's `strings.Contains(s, substr)`: `substr` occurs somewhere in `s`. */
  predicate Contains(s: string, sub: string)
    ensures Contains(s, sub) ==> |sub| <= |s|
  {
    exists k :: 0 <= k <= |s| - |sub| && OccursAt(s, sub, k)
  }

  /** Every string contains the empty string. */
  lemma ContainsEmpty(s: string)
    ensures Contains(s, "")
  {
    assert OccursAt(s, "", 0);
  }

  /** A string contains each of its infixes. */
  lemma ContainsInfix(a: string, sub: string, b: string)
    ensures Contains(a + sub + b, sub)
  {
    assert OccursAt(a + sub + b, sub, |a|);
  }

  /** Nothing longer than `s` occurs in it. */
  lemma LongerNotContained(s: string, sub: string)
    requires |sub| > |s|
    ensures !Contains(s, sub)
  {
  }

}
