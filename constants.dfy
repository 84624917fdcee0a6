// The shared constants of packages/constants/index.ts: the marker tag, the
// marker regular expression `/\*\s*__atomic_generated:([^*]+)\s*\*/` and
// the output paths.
//
// The regular expression is modelled by a hand-written matcher, `MatchAt`,
// and by a declarative description of the text it accepts, `MatchShape`;
// the two are proved to agree.
module Constants {
  import opened Collections
  import opened JsText

  const ATOMIC_TAG: string := "__atomic_generated"

  const OUTPUT_DIR: string := "./.atomic-variants"

  const OUTPUT_FILE_DIR: string := OUTPUT_DIR + "/.atomic"

  /** The output file lies in the output directory, under the name `.atomic`. */
  lemma OutputFileInOutputDir()
    ensures OUTPUT_FILE_DIR == "./.atomic-variants/.atomic"
    ensures OUTPUT_FILE_DIR[..|OUTPUT_DIR|] == OUTPUT_DIR
  {
  }

  /** `TAG:`, the literal text between the leading whitespace and the capture. */
  function Head(): (h: string)
    ensures |h| == |ATOMIC_TAG| + 1
  {
    ATOMIC_TAG + ":"
  }

  /** The first position at or after `i` that holds `*`, or the end of `s`. */
  function SkipNonStar(s: string, i: nat): (j: nat)
    requires i <= |s|
    ensures i <= j <= |s|
    ensures forall k :: i <= k < j ==> s[k] != '*'
    ensures j == |s| || s[j] == '*'
    decreases |s| - i
  {
    if i == |s| || s[i] == '*' then i else SkipNonStar(s, i + 1)
  }

  // The regular expression tried at position `i`: the text of the capture
  // group when it matches there.
  //
  // `\s*` must stop at the tag, which begins with a non-space character, so
  // it takes the whole whitespace run. `[^*]+` is greedy and runs to the
  // next `*`; giving characters back cannot help, since the optional
  // whitespace after it must then also reach that `*`. So the match succeeds
  // exactly when that `*` is followed by `/`, and whitespace before `*/`
  // stays in the capture.
  function MatchAt(s: string, i: nat): (r: Option<string>)
    requires i <= |s|
    ensures r.Some? ==> r.value != [] && '*' !in r.value
  {
    if !(i + 2 <= |s| && s[i] == '/' && s[i + 1] == '*') then None
    else
      var w := SkipSpaces(s, i + 2);
      var h := w + |Head()|;
      if !(h <= |s| && s[w..h] == Head()) then None
      else
        var q := SkipNonStar(s, h);
        if h < q && q + 1 < |s| && s[q + 1] == '/' then
          assert forall k :: 0 <= k < q - h ==> s[h..q][k] == s[h + k];
          Some(s[h..q])
        else None
  }

  // The text the regular expression accepts at `i`, decomposed: `/*` at `i`,
  // whitespace up to `w`, `TAG:`, a non-empty run of non-`*` characters up
  // to `q`, then `*/`.
  predicate MatchShape(s: string, i: nat, w: nat, q: nat) {
    i + 2 <= w && w + |Head()| < q && q + 2 <= |s|
    && s[i] == '/' && s[i + 1] == '*'
    && (forall k :: i + 2 <= k < w ==> IsSpace(s[k]))
    && s[w..w + |Head()|] == Head()
    && (forall k :: w + |Head()| <= k < q ==> s[k] != '*')
    && s[q] == '*' && s[q + 1] == '/'
  }

  /** The tag does not begin with whitespace, so it ends the leading `\s*`. */
  lemma HeadStartsSolid()
    ensures !IsSpace(Head()[0])
  {
  }

  /** A match found by the matcher has the accepted shape. */
  lemma MatchAtSound(s: string, i: nat)
    requires i <= |s|
    requires MatchAt(s, i).Some?
    ensures exists w: nat, q: nat :: MatchShape(s, i, w, q) && MatchAt(s, i).value == s[w + |Head()|..q]
  {
    var w := SkipSpaces(s, i + 2);
    var q := SkipNonStar(s, w + |Head()|);
    assert MatchShape(s, i, w, q);
  }

  /** Text of the accepted shape is matched, and the capture runs from after `TAG:` to `q`. */
  lemma MatchAtComplete(s: string, i: nat, w: nat, q: nat)
    requires i <= |s|
    requires MatchShape(s, i, w, q)
    ensures MatchAt(s, i) == Some(s[w + |Head()|..q])
  {
    HeadStartsSolid();
    assert s[w] == Head()[0];
    assert SkipSpaces(s, i + 2) == w by {
      SkipSpacesExact(s, i + 2, w);
    }
    SkipNonStarExact(s, w + |Head()|, q);
  }

  lemma {:induction false} SkipSpacesExact(s: string, i: nat, w: nat)
    requires i <= w < |s|
    requires forall k :: i <= k < w ==> IsSpace(s[k])
    requires !IsSpace(s[w])
    ensures SkipSpaces(s, i) == w
    decreases w - i
  {
    if i < w {
      SkipSpacesExact(s, i + 1, w);
    }
  }

  lemma {:induction false} SkipNonStarExact(s: string, i: nat, q: nat)
    requires i <= q < |s|
    requires forall k :: i <= k < q ==> s[k] != '*'
    requires s[q] == '*'
    ensures SkipNonStar(s, i) == q
    decreases q - i
  {
    if i < q {
      SkipNonStarExact(s, i + 1, q);
    }
  }

  // When the first `*` after `TAG:` is not followed by `/`, there is no
  // match at that `/*`, however the text goes on.
  lemma FirstStarMustClose(s: string, i: nat, w: nat, q: nat)
    requires i + 2 <= w && w + |Head()| <= q < |s|
    requires s[i] == '/' && s[i + 1] == '*'
    requires forall k :: i + 2 <= k < w ==> IsSpace(s[k])
    requires s[w..w + |Head()|] == Head()
    requires forall k :: w + |Head()| <= k < q ==> s[k] != '*'
    requires s[q] == '*' && (q + 1 == |s| || s[q + 1] != '/')
    ensures MatchAt(s, i) == None
  {
    HeadStartsSolid();
    assert s[w] == Head()[0];
    SkipSpacesExact(s, i + 2, w);
    SkipNonStarExact(s, w + |Head()|, q);
  }

  /**
   * `exec` from position `from`: the leftmost position at or after `from`
   * where the expression matches, with its capture.
   */
  function Exec(s: string, from: nat): (r: Option<(nat, string)>)
    requires from <= |s|
    ensures r.Some? ==> from <= r.value.0 <= |s|
    decreases |s| - from
  {
    match MatchAt(s, from)
    case Some(c) => Some((from, c))
    case None => if from == |s| then None else Exec(s, from + 1)
  }

  /**
   * `exec` reports the leftmost match: the expression matches where it
   * says, with the capture it gives, and nowhere between `from` and there;
   * when it finds nothing, the expression matches nowhere after `from`.
   */
  lemma {:induction false} ExecLeftmost(s: string, from: nat)
    requires from <= |s|
    ensures Exec(s, from).Some? ==> MatchAt(s, Exec(s, from).value.0) == Some(Exec(s, from).value.1)
    ensures forall j :: from <= j <= |s| && (Exec(s, from).None? || j < Exec(s, from).value.0) ==> MatchAt(s, j).None?
    decreases |s| - from
  {
    if MatchAt(s, from).None? && from < |s| {
      ExecLeftmost(s, from + 1);
    }
  }

  /** The matcher succeeds wherever the accepted shape starts. */
  lemma ShapeMatches(s: string, i: nat, w: nat, q: nat)
    requires i <= |s|
    ensures MatchShape(s, i, w, q) ==> MatchAt(s, i).Some?
  {
    if MatchShape(s, i, w, q) {
      MatchAtComplete(s, i, w, q);
    }
  }

  /**
   * `exec` from the start finds a match exactly when the text holds the
   * accepted shape somewhere; it reports the leftmost start of that shape,
   * and the capture from after `TAG:` up to the closing `*`.
   */
  lemma ExecLeftmostShape(s: string)
    ensures Exec(s, 0).Some? <==> exists i: nat, w: nat, q: nat :: MatchShape(s, i, w, q)
    ensures Exec(s, 0).Some? ==> exists w: nat, q: nat ::
      && MatchShape(s, Exec(s, 0).value.0, w, q)
      && Exec(s, 0).value.1 == s[w + |Head()|..q]
    ensures Exec(s, 0).Some? ==>
      forall j: nat, w: nat, q: nat :: j < Exec(s, 0).value.0 ==> !MatchShape(s, j, w, q)
  {
    ExecLeftmost(s, 0);
    match Exec(s, 0)
    case None =>
      forall i: nat, w: nat, q: nat ensures !MatchShape(s, i, w, q) {
        if i <= |s| {
          ShapeMatches(s, i, w, q);
        }
      }
    case Some(m) =>
      MatchAtSound(s, m.0);
      forall j: nat, w: nat, q: nat | j < m.0 ensures !MatchShape(s, j, w, q) {
        ShapeMatches(s, j, w, q);
      }
  }
}
